/**
  `LockFreeQueue` (include/utils/queue.h) with one producer thread and one consumer thread,
  as a machine whose steps are single index loads, slot accesses and index stores.

  Memory is weak. Every atomic index keeps all values ever stored to it in order; a load
  returns any of them that is not older than what the thread has already seen, so a view may
  lag arbitrarily. Slots are weak too: a release store of the tail carries how many
  slot writes precede it, an acquire load makes them known, and a slot read may return any
  write to that slot except those known to be overwritten.
 */
module Ring {
  import opened Bits
  import opened Options
  import opened Seqs
  import opened Fifo

  datatype Producer<T> =
    | ProducerIdle
    | TailLoaded(item: T, tail: uint64)
    | RoomSeen(item: T, tail: uint64, next: uint64)
    | SlotWritten(item: T, tail: uint64, next: uint64)
    | SizeHeadLoaded(head: uint64, position: nat)

  datatype Consumer<T> =
    | ConsumerIdle
    | HeadLoaded(head: uint64)
    | ItemSeen(head: uint64)
    | ItemCopied(head: uint64, item: T)
    | SizeOwnHeadLoaded(head: uint64)

  datatype SlotWrite<T> = SlotWrite(slot: uint64, item: T)

  datatype State<T> = State(
    heads: seq<uint64>,        // values stored to head_, oldest first
    tails: seq<uint64>,        // values stored to tail_, oldest first
    published: seq<nat>,       // for each value of tail_: the slot writes made before its store
    writes: seq<SlotWrite<T>>, // writes to buffer_, oldest first
    blank: T,                  // what every slot holds before the first write
    p: Producer<T>,
    c: Consumer<T>,
    headSeen: nat,             // the producer's view of head_, a position in heads
    tailSeen: nat,             // the consumer's view of tail_, a position in tails
    known: nat                 // the slot writes that acquire loads made known to the consumer
  ) {
    /** How many times the head, respectively the tail, has moved. */
    function HeadCount(): int { |heads| - 1 }
    function TailCount(): int { |tails| - 1 }
  }

  datatype Action<T> =
    | EnqueueCall(item: T)            // call, and load of the own index
    | EnqueueTest(view: nat)          // acquire load of head_, comparison
    | EnqueueWrite                    // buffer_[tail] = item
    | EnqueueStore                    // release store of tail_, return true
    | DequeueCall
    | DequeueTest(view: nat)          // acquire load of tail_, comparison
    | DequeueCopy(from: Option<nat>)  // item = buffer_[head]
    | DequeueStore                    // release store of head_, return true
    | ProducerSizeHead(view: nat)     // size() in the producer thread: relaxed load of head_
    | ProducerSizeTail                //   and of the own tail_
    | ConsumerSizeHead                // size() in the consumer thread: relaxed load of the own head_
    | ConsumerSizeTail(view: nat)     //   and of tail_

  /** Which of the two threads performs an action. */
  predicate ByConsumer<T>(a: Action<T>) {
    a.DequeueCall? || a.DequeueTest? || a.DequeueCopy? || a.DequeueStore? || a.ConsumerSizeHead? || a.ConsumerSizeTail?
  }

  function Init<T>(blank: T): State<T> {
    State([0], [0], [0], [], blank, ProducerIdle, ConsumerIdle, 0, 0, 0)
  }

  /** Which values a read of `slot` may return: `Some(w)` is the one of write w, `None` the initial one. */
  ghost predicate Readable<T>(s: State<T>, slot: uint64, from: Option<nat>) {
    match from
    case Some(w) =>
      && w < |s.writes| && s.writes[w].slot == slot
      && forall later :: w < later < s.known && later < |s.writes| ==> s.writes[later].slot != slot
    case None =>
      forall later :: 0 <= later < s.known && later < |s.writes| ==> s.writes[later].slot != slot
  }

  ghost predicate Enabled<T>(s: State<T>, a: Action<T>) {
    && s.heads != [] && s.tails != [] && |s.published| == |s.tails|
    && match a
       case EnqueueCall(_) => s.p.ProducerIdle?
       case EnqueueTest(view) => s.p.TailLoaded? && s.headSeen <= view < |s.heads|
       case EnqueueWrite => s.p.RoomSeen?
       case EnqueueStore => s.p.SlotWritten?
       case DequeueCall => s.c.ConsumerIdle?
       case DequeueTest(view) => s.c.HeadLoaded? && s.tailSeen <= view < |s.tails|
       case DequeueCopy(from) => s.c.ItemSeen? && Readable(s, s.c.head, from)
       case DequeueStore => s.c.ItemCopied?
       case ProducerSizeHead(view) => s.p.ProducerIdle? && s.headSeen <= view < |s.heads|
       case ProducerSizeTail => s.p.SizeHeadLoaded?
       case ConsumerSizeHead => s.c.ConsumerIdle?
       case ConsumerSizeTail(view) => s.c.SizeOwnHeadLoaded? && s.tailSeen <= view < |s.tails|
  }

  function Max(a: nat, b: nat): nat {
    if a < b then b else a
  }

  ghost function Apply<T>(capacity: uint64, s: State<T>, a: Action<T>): State<T>
    requires Enabled(s, a)
  {
    match a
    case EnqueueCall(item) => s.(p := TailLoaded(item, Last(s.tails)))
    case EnqueueTest(view) =>
      var next := NextIndex(capacity, s.p.tail);
      s.(headSeen := view,
         p := if next == s.heads[view] then ProducerIdle else RoomSeen(s.p.item, s.p.tail, next))
    case EnqueueWrite =>
      s.(writes := s.writes + [SlotWrite(s.p.tail, s.p.item)],
         p := SlotWritten(s.p.item, s.p.tail, s.p.next))
    case EnqueueStore =>
      s.(tails := s.tails + [s.p.next], published := s.published + [|s.writes|], p := ProducerIdle)
    case DequeueCall => s.(c := HeadLoaded(Last(s.heads)))
    case DequeueTest(view) =>
      s.(tailSeen := view, known := Max(s.known, s.published[view]),
         c := if s.c.head == s.tails[view] then ConsumerIdle else ItemSeen(s.c.head))
    case DequeueCopy(from) =>
      s.(c := ItemCopied(s.c.head, if from.Some? then s.writes[from.value].item else s.blank))
    case DequeueStore =>
      s.(heads := s.heads + [NextIndex(capacity, s.c.head)], c := ConsumerIdle)
    case ProducerSizeHead(view) => s.(headSeen := view, p := SizeHeadLoaded(s.heads[view], view))
    case ProducerSizeTail => s.(p := ProducerIdle)
    case ConsumerSizeHead => s.(c := SizeOwnHeadLoaded(Last(s.heads)))
    case ConsumerSizeTail(view) => s.(tailSeen := view, c := ConsumerIdle)
  }

  /** What the calls return, at the step that decides it: a success at the store of the own
      index, a failure at the load of the other side's index. */
  ghost function EffectOf<T>(capacity: uint64, s: State<T>, a: Action<T>): Effect<T>
    requires Enabled(s, a)
  {
    match a
    case EnqueueTest(view) =>
      if NextIndex(capacity, s.p.tail) == s.heads[view] then EnqueueFalse(s.p.item) else Internal
    case EnqueueStore => EnqueueTrue(s.p.item)
    case DequeueTest(view) => if s.c.head == s.tails[view] then DequeueFalse else Internal
    case DequeueStore => DequeueTrue(s.c.item)
    case _ => Internal
  }

  /** The load reads the latest value of the other side's index, as under sequential consistency. */
  ghost predicate Fresh<T>(s: State<T>, a: Action<T>) {
    && (a.EnqueueTest? || a.ProducerSizeHead? ==> a.view == s.HeadCount())
    && (a.DequeueTest? || a.ConsumerSizeTail? ==> a.view == s.TailCount())
  }

  /** The state after a run, or `None` when some action of it cannot happen. */
  ghost function Exec<T>(capacity: uint64, s: State<T>, acts: seq<Action<T>>): Option<State<T>> {
    if acts == [] then Some(s)
    else
      var mid := Exec(capacity, s, ButLast(acts));
      if mid.Some? && Enabled(mid.value, Last(acts)) then Some(Apply(capacity, mid.value, Last(acts)))
      else None
  }

  ghost function History<T>(capacity: uint64, s: State<T>, acts: seq<Action<T>>): seq<Effect<T>>
    requires Exec(capacity, s, acts).Some?
  {
    if acts == [] then []
    else
      History(capacity, s, ButLast(acts))
      + [EffectOf(capacity, Exec(capacity, s, ButLast(acts)).value, Last(acts))]
  }

  ghost predicate AllFresh<T>(capacity: uint64, s: State<T>, acts: seq<Action<T>>)
    requires Exec(capacity, s, acts).Some?
  {
    acts == [] ||
    (AllFresh(capacity, s, ButLast(acts)) && Fresh(Exec(capacity, s, ButLast(acts)).value, Last(acts)))
  }

  ghost predicate Reachable<T(!new)>(capacity: uint64, s: State<T>) {
    exists blank: T, acts: seq<Action<T>> :: Exec(capacity, Init(blank), acts) == Some(s)
  }

  function Items<T>(writes: seq<SlotWrite<T>>): (items: seq<T>)
    ensures |items| == |writes|
    ensures forall i :: 0 <= i < |writes| ==> items[i] == writes[i].item
  {
    seq(|writes|, i requires 0 <= i < |writes| => writes[i].item)
  }

  /** The abstract FIFO: written items whose tail store is done and whose head store is not. */
  ghost function Contents<T>(s: State<T>): seq<T>
    requires 0 <= s.HeadCount() <= s.TailCount() <= |s.writes|
  {
    Items(s.writes)[s.HeadCount()..s.TailCount()]
  }

  /** The invariant. Its heart is the chain of views: the producer's view of the head, the
      head, the consumer's view of the tail, the tail, all less than a lap apart. */
  ghost predicate Inv<T>(capacity: uint64, s: State<T>) {
    && IsPowerOfTwo(capacity)
    && s.heads != [] && s.tails != [] && |s.published| == |s.tails|
    && (forall i :: 0 <= i < |s.heads| ==> s.heads[i] == i % capacity)
    && (forall i :: 0 <= i < |s.tails| ==> s.tails[i] == i % capacity)
    && (forall i :: 0 <= i < |s.published| ==> s.published[i] == i)
    && (forall i :: 0 <= i < |s.writes| ==> s.writes[i].slot == i % capacity)
    && s.headSeen <= s.HeadCount() <= s.tailSeen <= s.TailCount() < s.headSeen + capacity
    && s.known <= s.TailCount()
    && |s.writes| == s.TailCount() + (if s.p.SlotWritten? then 1 else 0)
    && ProducerInv(capacity, s)
    && ConsumerInv(capacity, s)
  }

  ghost predicate ProducerInv<T>(capacity: uint64, s: State<T>)
    requires capacity >= 1 && s.heads != [] && s.tails != []
    requires |s.writes| == s.TailCount() + (if s.p.SlotWritten? then 1 else 0)
  {
    match s.p
    case ProducerIdle => true
    case TailLoaded(_, tail) => tail == s.TailCount() % capacity
    case RoomSeen(_, tail, next) =>
      && tail == s.TailCount() % capacity && next == (s.TailCount() + 1) % capacity
      && s.TailCount() + 1 < s.headSeen + capacity
    case SlotWritten(item, tail, next) =>
      && tail == s.TailCount() % capacity && next == (s.TailCount() + 1) % capacity
      && s.TailCount() + 1 < s.headSeen + capacity
      && s.writes[s.TailCount()].item == item
    case SizeHeadLoaded(head, position) =>
      position <= s.HeadCount() && s.TailCount() < position + capacity && head == position % capacity
  }

  ghost predicate ConsumerInv<T>(capacity: uint64, s: State<T>)
    requires capacity >= 1 && s.heads != [] && s.tails != []
  {
    match s.c
    case ConsumerIdle => true
    case HeadLoaded(head) => head == s.HeadCount() % capacity
    case ItemSeen(head) => head == s.HeadCount() % capacity && s.HeadCount() < s.tailSeen && s.HeadCount() < s.known
    case ItemCopied(head, item) =>
      && head == s.HeadCount() % capacity && s.HeadCount() < s.tailSeen
      && s.HeadCount() < |s.writes| && item == s.writes[s.HeadCount()].item
    case SizeOwnHeadLoaded(head) => head == s.HeadCount() % capacity
  }

  // ----- the tests on masked indices, seen through views -----

  lemma OneLapLater(capacity: nat, i: nat)
    requires capacity >= 1
    ensures (i + capacity) % capacity == i % capacity
  {
    MultipleSum(capacity, i / capacity, 1);
    DivModUnique(i + capacity, capacity, i / capacity + 1, i % capacity);
  }

  /** The full test is exact for the viewed head: it fails exactly when the tail is
      `capacity - 1` ahead of the viewed head. */
  lemma FullTestExactForView(capacity: uint64, view: nat, tail: nat)
    requires IsPowerOfTwo(capacity) && view <= tail < view + capacity
    ensures NextIndex(capacity, tail % capacity) == (tail + 1) % capacity
    ensures NextIndex(capacity, tail % capacity) == view % capacity <==> tail - view == capacity - 1
  {
    MaskedSuccessor(tail, capacity);
    OneLapLater(capacity, view);
    if (tail + 1) % capacity == view % capacity {
      SameRemainderSameCounter(tail + 1, view + capacity, capacity);
    }
  }

  /** The empty test is exact for the viewed tail. */
  lemma EmptyTestExactForView(capacity: uint64, head: nat, view: nat)
    requires capacity >= 1 && head <= view < head + capacity
    ensures head % capacity == view % capacity <==> head == view
  {
    if head % capacity == view % capacity {
      SameRemainderSameCounter(head, view, capacity);
    }
  }

  /** A slot read that follows a successful test has one possible outcome: the write that
      the head counter stands for. Neither the initial value nor an older nor a newer lap is readable. */
  lemma CopyIsExact<T>(capacity: uint64, s: State<T>, from: Option<nat>)
    requires Inv(capacity, s) && s.c.ItemSeen?
    ensures Readable(s, s.c.head, from) <==> from == Some(s.HeadCount())
  {
    var slot := s.c.head;
    assert s.writes[s.HeadCount()].slot == slot;
    forall later | s.HeadCount() < later < |s.writes|
      ensures s.writes[later].slot != slot
    {
      EmptyTestExactForView(capacity, s.HeadCount(), later);
    }
  }

  // ----- every step keeps the invariant and refines the FIFO -----

  lemma InitInv<T>(capacity: uint64, blank: T)
    requires IsPowerOfTwo(capacity)
    ensures Inv(capacity, Init(blank)) && Contents(Init(blank)) == []
  {
    DivModUnique(0, capacity, 0, 0);
  }

  /** An action keeps the invariant and has its effect on the FIFO contents. */
  ghost predicate Refines<T>(capacity: uint64, exact: bool, s: State<T>, a: Action<T>)
    requires Inv(capacity, s) && Enabled(s, a)
  {
    var s' := Apply(capacity, s, a);
    && Inv(capacity, s')
    && Step(capacity - 1, exact, Contents(s), EffectOf(capacity, s, a), Contents(s'))
  }

  lemma EnqueueTestStep<T>(capacity: uint64, exact: bool, s: State<T>, view: nat)
    requires Inv(capacity, s) && Enabled(s, EnqueueTest(view)) && (exact ==> view == s.HeadCount())
    ensures Refines(capacity, exact, s, EnqueueTest(view))
  {
    FullTestExactForView(capacity, view, s.TailCount());
  }

  lemma EnqueueWriteStep<T>(capacity: uint64, exact: bool, s: State<T>)
    requires Inv(capacity, s) && Enabled(s, EnqueueWrite)
    ensures Refines(capacity, exact, s, EnqueueWrite)
  {
    var s' := Apply(capacity, s, EnqueueWrite);
    assert Items(s'.writes)[..|s.writes|] == Items(s.writes);
    assert Contents(s') == Contents(s);
  }

  lemma EnqueueStoreStep<T>(capacity: uint64, exact: bool, s: State<T>)
    requires Inv(capacity, s) && Enabled(s, EnqueueStore)
    ensures Refines(capacity, exact, s, EnqueueStore)
  {
    var s' := Apply(capacity, s, EnqueueStore);
    assert Contents(s') == Contents(s) + [s.p.item];
  }

  lemma DequeueTestStep<T>(capacity: uint64, exact: bool, s: State<T>, view: nat)
    requires Inv(capacity, s) && Enabled(s, DequeueTest(view)) && (exact ==> view == s.TailCount())
    ensures Refines(capacity, exact, s, DequeueTest(view))
  {
    EmptyTestExactForView(capacity, s.HeadCount(), view);
  }

  lemma DequeueStoreStep<T>(capacity: uint64, exact: bool, s: State<T>)
    requires Inv(capacity, s) && Enabled(s, DequeueStore)
    ensures Refines(capacity, exact, s, DequeueStore)
  {
    MaskedSuccessor(s.HeadCount(), capacity);
    FrontItem(Items(s.writes), s.HeadCount(), s.TailCount());
  }

  lemma FrontItem<T>(items: seq<T>, i: nat, j: nat)
    requires i < j <= |items|
    ensures items[i..j] == [items[i]] + items[i + 1..j]
  {
  }

  lemma DequeueCopyStep<T>(capacity: uint64, exact: bool, s: State<T>, from: Option<nat>)
    requires Inv(capacity, s) && Enabled(s, DequeueCopy(from))
    ensures Refines(capacity, exact, s, DequeueCopy(from))
  {
    CopyIsExact(capacity, s, from);
  }

  /** Steps that change only the acting thread's own state. */
  lemma CallStep<T>(capacity: uint64, exact: bool, s: State<T>, a: Action<T>)
    requires Inv(capacity, s) && Enabled(s, a) && (a.EnqueueCall? || a.DequeueCall?)
    ensures Refines(capacity, exact, s, a)
  {
    assert Contents(Apply(capacity, s, a)) == Contents(s);
  }

  lemma SizeStep<T>(capacity: uint64, exact: bool, s: State<T>, a: Action<T>)
    requires Inv(capacity, s) && Enabled(s, a)
    requires a.ProducerSizeHead? || a.ProducerSizeTail? || a.ConsumerSizeHead? || a.ConsumerSizeTail?
    ensures Refines(capacity, exact, s, a)
  {
    assert Contents(Apply(capacity, s, a)) == Contents(s);
  }

  /** One step of either thread, in any reachable memory, is one atomic step of the FIFO. */
  lemma StepRefinesFifo<T>(capacity: uint64, exact: bool, s: State<T>, a: Action<T>)
    requires Inv(capacity, s) && Enabled(s, a) && (exact ==> Fresh(s, a))
    ensures Inv(capacity, Apply(capacity, s, a))
    ensures Step(capacity - 1, exact, Contents(s), EffectOf(capacity, s, a), Contents(Apply(capacity, s, a)))
  {
    match a {
      case EnqueueTest(view) => EnqueueTestStep(capacity, exact, s, view);
      case EnqueueWrite => EnqueueWriteStep(capacity, exact, s);
      case EnqueueStore => EnqueueStoreStep(capacity, exact, s);
      case DequeueTest(view) => DequeueTestStep(capacity, exact, s, view);
      case DequeueCopy(from) => DequeueCopyStep(capacity, exact, s, from);
      case DequeueStore => DequeueStoreStep(capacity, exact, s);
      case EnqueueCall(_) => CallStep(capacity, exact, s, a);
      case DequeueCall => CallStep(capacity, exact, s, a);
      case _ => SizeStep(capacity, exact, s, a);
    }
  }

  /** A legal history up to `s` is extended by the effect of one step. */
  lemma StepExtendsHistory<T(!new)>(capacity: uint64, exact: bool, h: seq<Effect<T>>, s: State<T>, a: Action<T>)
    requires Inv(capacity, s) && Enabled(s, a) && (exact ==> Fresh(s, a))
    requires Legal(capacity - 1, exact, [], h, Contents(s))
    ensures Inv(capacity, Apply(capacity, s, a))
    ensures Legal(capacity - 1, exact, [], h + [EffectOf(capacity, s, a)], Contents(Apply(capacity, s, a)))
  {
    StepRefinesFifo(capacity, exact, s, a);
    Extend(capacity - 1, exact, [], h, Contents(s), EffectOf(capacity, s, a), Contents(Apply(capacity, s, a)));
  }

  /** Every interleaving, with views as stale as they may be, has a legal FIFO history; when
      every view is fresh, `false` is returned only by a full, respectively empty, queue. */
  lemma {:induction false} RunRefinesFifo<T(!new)>(capacity: uint64, exact: bool, blank: T, acts: seq<Action<T>>)
    requires IsPowerOfTwo(capacity)
    requires Exec(capacity, Init(blank), acts).Some?
    requires exact ==> AllFresh(capacity, Init(blank), acts)
    ensures Inv(capacity, Exec(capacity, Init(blank), acts).value)
    ensures Legal(capacity - 1, exact, [], History(capacity, Init(blank), acts),
                  Contents(Exec(capacity, Init(blank), acts).value))
    decreases |acts|
  {
    if acts == [] {
      InitInv(capacity, blank);
    } else {
      var init := ButLast(acts);
      RunRefinesFifo(capacity, exact, blank, init);
      StepExtendsHistory(capacity, exact, History(capacity, Init(blank), init),
                         Exec(capacity, Init(blank), init).value, Last(acts));
    }
  }

  /** In every interleaving and with arbitrarily late views, the dequeued items are a prefix of
      the enqueued ones; the rest, at most `capacity - 1` items, is still in the ring. */
  lemma NothingLostOrOverwritten<T(!new)>(capacity: uint64, blank: T, acts: seq<Action<T>>)
    requires IsPowerOfTwo(capacity)
    requires Exec(capacity, Init(blank), acts).Some?
    ensures
      var s := Exec(capacity, Init(blank), acts).value;
      var h := History(capacity, Init(blank), acts);
      && 0 <= s.HeadCount() <= s.TailCount() <= |s.writes|
      && Enqueued(h) == Dequeued(h) + Contents(s)
      && |Contents(s)| <= capacity - 1
  {
    RunRefinesFifo(capacity, false, blank, acts);
    var s := Exec(capacity, Init(blank), acts).value;
    var h := History(capacity, Init(blank), acts);
    Conservation(capacity - 1, false, [], h, Contents(s));
    assert [] + Enqueued(h) == Enqueued(h);
  }

  lemma ReachableInv<T(!new)>(capacity: uint64, s: State<T>)
    requires IsPowerOfTwo(capacity) && Reachable(capacity, s)
    ensures Inv(capacity, s)
  {
    var blank: T, acts: seq<Action<T>> :| Exec(capacity, Init(blank), acts) == Some(s);
    RunRefinesFifo(capacity, false, blank, acts);
  }

  /** What a test answers, in every reachable state: the answer a queue would give whose other
      end is where the view says. A fresh view makes it exact; a stale one can only refuse. */
  lemma StalenessOnlyRefuses<T(!new)>(capacity: uint64, s: State<T>, a: Action<T>)
    requires IsPowerOfTwo(capacity) && Reachable(capacity, s) && Enabled(s, a)
    requires a.EnqueueTest? || a.DequeueTest?
    ensures 0 <= s.HeadCount() <= s.TailCount() <= |s.writes|
    ensures a.EnqueueTest? ==>
      (EffectOf(capacity, s, a).EnqueueFalse? <==> |Contents(s)| + (s.HeadCount() - a.view) == capacity - 1)
    ensures a.DequeueTest? ==>
      (EffectOf(capacity, s, a).DequeueFalse? <==> |Contents(s)| == s.TailCount() - a.view)
    ensures a.EnqueueTest? && |Contents(s)| == capacity - 1 ==> EffectOf(capacity, s, a).EnqueueFalse?
    ensures a.DequeueTest? && Contents(s) == [] ==> EffectOf(capacity, s, a).DequeueFalse?
  {
    ReachableInv(capacity, s);
    if a.EnqueueTest? {
      FullTestExactForView(capacity, a.view, s.TailCount());
    } else {
      EmptyTestExactForView(capacity, s.HeadCount(), a.view);
    }
  }

  /** The producer never touches the slot that the consumer is about to read or has read
      but not yet released, slot accesses stay in bounds, and that slot keeps its value. */
  lemma SlotExclusion<T(!new)>(capacity: uint64, s: State<T>)
    requires IsPowerOfTwo(capacity) && Reachable(capacity, s)
    ensures s.p.RoomSeen? || s.p.SlotWritten? ==> s.p.tail < capacity
    ensures s.c.ItemSeen? || s.c.ItemCopied? ==> s.c.head < capacity
    ensures (s.p.RoomSeen? || s.p.SlotWritten?) && (s.c.ItemSeen? || s.c.ItemCopied?) ==> s.p.tail != s.c.head
    ensures s.c.ItemSeen? || s.c.ItemCopied? ==>
      && 0 <= s.HeadCount() < s.TailCount() <= |s.writes|
      && s.writes[s.HeadCount()] == SlotWrite(s.c.head, Contents(s)[0])
      && (forall later :: s.HeadCount() < later < |s.writes| ==> s.writes[later].slot != s.c.head)
      && (s.c.ItemCopied? ==> s.c.item == Contents(s)[0])
  {
    ReachableInv(capacity, s);
    if s.c.ItemSeen? || s.c.ItemCopied? {
      forall later: nat | s.HeadCount() < later < s.HeadCount() + capacity
        ensures later % capacity != s.c.head
      {
        EmptyTestExactForView(capacity, s.HeadCount(), later);
      }
      if s.p.RoomSeen? || s.p.SlotWritten? {
        assert s.TailCount() % capacity != s.c.head;
      }
    }
  }

  // ----- which capacities are safe -----

  /** Every slot written, about to be written or about to be read is one of the buffer. */
  ghost predicate AccessesInBounds<T>(capacity: uint64, s: State<T>) {
    && (forall i :: 0 <= i < |s.writes| ==> s.writes[i].slot < capacity)
    && (s.p.RoomSeen? ==> s.p.tail < capacity)
    && (s.c.ItemSeen? ==> s.c.head < capacity)
  }

  lemma InvInBounds<T>(capacity: uint64, s: State<T>)
    requires Inv(capacity, s)
    ensures AccessesInBounds(capacity, s)
  {
  }

  /** With capacity 0 the first call of `enqueue` writes slot 0 of a buffer that has no slots. */
  lemma WriteBeyondEmptyBuffer<T(!new)>(blank: T, item: T) returns (acts: seq<Action<T>>)
    ensures acts == [EnqueueCall(item), EnqueueTest(0), EnqueueWrite]
    ensures Exec(0, Init(blank), acts).Some?
    ensures Exec(0, Init(blank), acts).value.writes == [SlotWrite(0, item)]
  {
    NextIndexOfNothing();
    var s0 := Init(blank);
    var call: Action<T>, test: Action<T>, write: Action<T> := EnqueueCall(item), EnqueueTest(0), EnqueueWrite;
    var s1 := Apply(0, s0, call);
    var s2 := Apply(0, s1, test);
    var s3 := Apply(0, s2, write);
    assert Exec(0, s0, []) == Some(s0);
    ExecOne(0, s0, [], s0, call);
    ExecOne(0, s0, [call], s1, test);
    ExecOne(0, s0, [call, test], s2, write);
    assert [] + [call] == [call] && [call] + [test] == [call, test];
    acts := [call, test, write];
    assert [call, test] + [write] == acts;
  }

  lemma ExecOne<T>(capacity: uint64, s: State<T>, acts: seq<Action<T>>, mid: State<T>, a: Action<T>)
    requires Exec(capacity, s, acts) == Some(mid) && Enabled(mid, a)
    ensures Exec(capacity, s, acts + [a]) == Some(Apply(capacity, mid, a))
  {
    AppendParts(acts, a);
  }

  /** Of the capacities that the constructor accepts, exactly the powers of two keep every slot
      access of every run inside the buffer; the one other accepted capacity is 0. */
  lemma AllRunsInBoundsIff<T(!new)>(capacity: uint64, blank: T)
    requires BitAnd(capacity, Sub64(capacity, 1)) == 0
    ensures (forall acts: seq<Action<T>> :: Exec(capacity, Init(blank), acts).Some? ==>
               AccessesInBounds(capacity, Exec(capacity, Init(blank), acts).value))
       <==> IsPowerOfTwo(capacity)
  {
    ConstructorTest(capacity);
    if IsPowerOfTwo(capacity) {
      forall acts: seq<Action<T>> | Exec(capacity, Init(blank), acts).Some?
        ensures AccessesInBounds(capacity, Exec(capacity, Init(blank), acts).value)
      {
        RunRefinesFifo(capacity, false, blank, acts);
        InvInBounds(capacity, Exec(capacity, Init(blank), acts).value);
      }
    } else {
      var acts := WriteBeyondEmptyBuffer(blank, blank);
      var s := Exec(capacity, Init(blank), acts).value;
      assert s.writes[0].slot == 0;
      assert !AccessesInBounds(capacity, s);
    }
  }

  // ----- progress -----

  /** How many more of its own steps a call takes. */
  function ProducerStepsLeft<T>(p: Producer<T>): nat {
    match p
    case ProducerIdle => 0
    case TailLoaded(_, _) => 3
    case RoomSeen(_, _, _) => 2
    case SlotWritten(_, _, _) => 1
    case SizeHeadLoaded(_, _) => 1
  }

  function ConsumerStepsLeft<T>(c: Consumer<T>): nat {
    match c
    case ConsumerIdle => 0
    case HeadLoaded(_) => 3
    case ItemSeen(_) => 2
    case ItemCopied(_, _) => 1
    case SizeOwnHeadLoaded(_) => 1
  }

  /** Every step that a thread takes inside a call brings it nearer to its return, and no step
      moves the other thread. */
  lemma EachStepAdvances<T>(capacity: uint64, s: State<T>, a: Action<T>)
    requires Enabled(s, a)
    ensures ByConsumer(a) ==> Apply(capacity, s, a).p == s.p
    ensures !ByConsumer(a) ==> Apply(capacity, s, a).c == s.c
    ensures ByConsumer(a) && !s.c.ConsumerIdle? ==>
      ConsumerStepsLeft(Apply(capacity, s, a).c) < ConsumerStepsLeft(s.c)
    ensures !ByConsumer(a) && !s.p.ProducerIdle? ==>
      ProducerStepsLeft(Apply(capacity, s, a).p) < ProducerStepsLeft(s.p)
  {
  }

  /** In every reachable state a thread inside a call can take a step of its own. With
      `EachStepAdvances`: a call returns after at most three steps from its first load, whatever
      the other side does, so the queue is wait-free. */
  lemma CallsNeverBlock<T(!new)>(capacity: uint64, s: State<T>) returns (byProducer: Action<T>, byConsumer: Action<T>)
    requires IsPowerOfTwo(capacity) && Reachable(capacity, s)
    ensures !s.p.ProducerIdle? ==> !ByConsumer(byProducer) && Enabled(s, byProducer)
    ensures !s.c.ConsumerIdle? ==> ByConsumer(byConsumer) && Enabled(s, byConsumer)
  {
    ReachableInv(capacity, s);
    byProducer := match s.p
      case TailLoaded(_, _) => EnqueueTest(s.headSeen)
      case RoomSeen(_, _, _) => EnqueueWrite
      case SlotWritten(_, _, _) => EnqueueStore
      case _ => ProducerSizeTail;
    byConsumer := match s.c
      case ItemSeen(_) => DequeueCopy(Some(s.HeadCount()))
      case ItemCopied(_, _) => DequeueStore
      case SizeOwnHeadLoaded(_) => ConsumerSizeTail(s.tailSeen)
      case _ => DequeueTest(s.tailSeen);
    if s.c.ItemSeen? {
      CopyIsExact(capacity, s, Some(s.HeadCount()));
    }
  }

  // ----- size() called while the other side runs -----

  /** `size()` in the consumer thread: the length for the viewed tail, so the true length at
      its tail load when that load is fresh. */
  lemma SizeInConsumer<T(!new)>(capacity: uint64, s: State<T>, view: nat)
    requires IsPowerOfTwo(capacity) && Reachable(capacity, s)
    requires Enabled(s, ConsumerSizeTail(view))
    ensures 0 <= s.HeadCount() <= s.TailCount() <= |s.writes|
    ensures IndexDistance(capacity, s.c.head, s.tails[view]) == |Contents(s)| - (s.TailCount() - view)
  {
    ReachableInv(capacity, s);
    MaskedDistance(s.HeadCount(), view, capacity);
  }

  lemma {:induction false} ConsumerLeavesProducer<T>(capacity: uint64, s: State<T>, acts: seq<Action<T>>)
    requires s.heads != [] && s.tails != [] && |s.published| == |s.tails|
    requires Exec(capacity, s, acts).Some?
    requires forall i :: 0 <= i < |acts| ==> ByConsumer(acts[i])
    ensures
      var s' := Exec(capacity, s, acts).value;
      s'.p == s.p && s'.tails == s.tails && s'.heads != [] && |s'.published| == |s'.tails|
    decreases |acts|
  {
    if acts != [] {
      ConsumerLeavesProducer(capacity, s, ButLast(acts));
    }
  }

  /** The difference of the own tail and a viewed head, in a reachable state. */
  lemma DistanceForView<T(!new)>(capacity: uint64, s: State<T>, view: nat)
    requires IsPowerOfTwo(capacity) && Reachable(capacity, s)
    requires Enabled(s, ProducerSizeHead(view))
    ensures 0 <= s.HeadCount() <= s.TailCount() <= |s.writes|
    ensures IndexDistance(capacity, s.heads[view], Last(s.tails)) == |Contents(s)| + (s.HeadCount() - view)
  {
    ReachableInv(capacity, s);
    MaskedDistance(view, s.TailCount(), capacity);
  }

  /** `size()` in the producer thread, whatever the consumer does between its two loads: the
      true length at its head load when that load is fresh, and otherwise too much by the lag. */
  lemma SizeInProducer<T(!new)>(capacity: uint64, s: State<T>, view: nat, acts: seq<Action<T>>)
    requires IsPowerOfTwo(capacity) && Reachable(capacity, s)
    requires Enabled(s, ProducerSizeHead(view))
    requires forall i :: 0 <= i < |acts| ==> ByConsumer(acts[i])
    requires Exec(capacity, Apply(capacity, s, ProducerSizeHead(view)), acts).Some?
    ensures 0 <= s.HeadCount() <= s.TailCount() <= |s.writes|
    ensures
      var s' := Exec(capacity, Apply(capacity, s, ProducerSizeHead(view)), acts).value;
      && Enabled(s', ProducerSizeTail)
      && IndexDistance(capacity, s'.p.head, Last(s'.tails)) == |Contents(s)| + (s.HeadCount() - view)
  {
    DistanceForView(capacity, s, view);
    ConsumerLeavesProducer(capacity, Apply(capacity, s, ProducerSizeHead(view)), acts);
  }

  // ----- why one producer thread is assumed -----

  /** A producer thread that is at point `p` of its call performs `a`. */
  ghost predicate ProducerAt<T>(capacity: uint64, s: State<T>, p: Producer<T>, a: Action<T>, s': State<T>) {
    Enabled(s.(p := p), a) && s' == Apply(capacity, s.(p := p), a)
  }

  /** Two producer threads, the one storing `a` and the other `b`, that take turns to test, to
      write and to store: `ss` are the states between the six steps. */
  ghost predicate TakeTurns<T>(capacity: uint64, ss: seq<State<T>>, a: T, b: T) {
    && |ss| == 7 && ss[0].heads != [] && ss[0].tails != []
    && ProducerAt(capacity, ss[0], TailLoaded(a, Last(ss[0].tails)), EnqueueTest(ss[0].HeadCount()), ss[1])
    && ProducerAt(capacity, ss[1], TailLoaded(b, Last(ss[0].tails)), EnqueueTest(ss[0].HeadCount()), ss[2])
    && ProducerAt(capacity, ss[2], ss[1].p, EnqueueWrite, ss[3])
    && ProducerAt(capacity, ss[3], ss[2].p, EnqueueWrite, ss[4])
    && ProducerAt(capacity, ss[4], ss[3].p, EnqueueStore, ss[5])
    && ProducerAt(capacity, ss[5], ss[4].p, EnqueueStore, ss[6])
    && EffectOf(capacity, ss[4].(p := ss[3].p), EnqueueStore) == EnqueueTrue(a)
    && EffectOf(capacity, ss[5].(p := ss[4].p), EnqueueStore) == EnqueueTrue(b)
  }

  /** Two producer threads that are not serialised: whenever the full test passes, both calls can
      return true although both write the same slot and the tail index ends one place further on
      instead of two. */
  lemma TwoProducersShareASlot<T>(capacity: uint64, s: State<T>, a: T, b: T) returns (ss: seq<State<T>>)
    requires s.heads != [] && s.tails != [] && |s.published| == |s.tails| && s.headSeen <= s.HeadCount()
    requires NextIndex(capacity, Last(s.tails)) != Last(s.heads)
    ensures |ss| == 7 && ss[0] == s && TakeTurns(capacity, ss, a, b)
    ensures ss[6].writes == s.writes + [SlotWrite(Last(s.tails), a), SlotWrite(Last(s.tails), b)]
    ensures ss[6].tails == s.tails + [NextIndex(capacity, Last(s.tails)), NextIndex(capacity, Last(s.tails))]
  {
    var tail, test := Last(s.tails), EnqueueTest(s.HeadCount());
    var s1 := Apply(capacity, s.(p := TailLoaded(a, tail)), test);
    var s2 := Apply(capacity, s1.(p := TailLoaded(b, tail)), test);
    var s3 := Apply(capacity, s2.(p := s1.p), EnqueueWrite);
    var s4 := Apply(capacity, s3.(p := s2.p), EnqueueWrite);
    var s5 := Apply(capacity, s4.(p := s3.p), EnqueueStore);
    var s6 := Apply(capacity, s5.(p := s4.p), EnqueueStore);
    ss := [s, s1, s2, s3, s4, s5, s6];
  }

  /** In every reachable state the test that the two producers pass is passed exactly when fewer
      than `capacity - 1` items are stored. */
  lemma TestPassesWithRoom<T(!new)>(capacity: uint64, s: State<T>)
    requires IsPowerOfTwo(capacity) && Reachable(capacity, s)
    ensures s.heads != [] && s.tails != [] && |s.published| == |s.tails| && s.headSeen <= s.HeadCount()
    ensures 0 <= s.HeadCount() <= s.TailCount() <= |s.writes|
    ensures NextIndex(capacity, Last(s.tails)) != Last(s.heads) <==> |Contents(s)| < capacity - 1
  {
    ReachableInv(capacity, s);
    FullTestExactForView(capacity, s.HeadCount(), s.TailCount());
  }
}
