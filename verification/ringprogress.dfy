/**
  What the ring buffer does get done: which steps are always possible and what they decide, how
  far a stale view may go, and that every legal FIFO history is that of some run.
 */
module RingProgress {
  import opened Bits
  import opened Options
  import opened Seqs
  import opened Fifo
  import opened Ring

  // ----- the next step of each thread -----

  /** What the loads may return, in every reachable state: each value from the last one seen to the
      newest, and no other. */
  lemma ViewsPossible<T(!new)>(capacity: uint64, s: State<T>, view: nat)
    requires IsPowerOfTwo(capacity) && Reachable(capacity, s)
    ensures s.c.HeadLoaded? ==> (Enabled(s, DequeueTest(view)) <==> s.tailSeen <= view <= s.TailCount())
    ensures s.p.TailLoaded? ==> (Enabled(s, EnqueueTest(view)) <==> s.headSeen <= view <= s.HeadCount())
    ensures s.c.SizeOwnHeadLoaded? ==> (Enabled(s, ConsumerSizeTail(view)) <==> s.tailSeen <= view <= s.TailCount())
    ensures s.p.ProducerIdle? ==> (Enabled(s, ProducerSizeHead(view)) <==> s.headSeen <= view <= s.HeadCount())
    ensures s.tailSeen <= s.TailCount() && s.headSeen <= s.HeadCount()
  {
    ReachableInv(capacity, s);
  }

  /** With its item copied, a call of `dequeue` hands out the oldest one stored. */
  lemma StoreHandsOutFirst<T>(capacity: uint64, s: State<T>)
    requires Inv(capacity, s) && s.c.ItemCopied?
    ensures Enabled(s, DequeueStore) && Contents(s) != []
    ensures EffectOf(capacity, s, DequeueStore) == DequeueTrue(Contents(s)[0])
    ensures Contents(Apply(capacity, s, DequeueStore)) == Contents(s)[1..]
  {
    FrontItem(Items(s.writes), s.HeadCount(), s.TailCount());
  }

  /** In every reachable state, wherever the producer is: an idle consumer can call `dequeue` or
      `size`; a load of the newest tail is possible and finds an item whenever there is one; the
      copy is possible and gets the oldest item, which the head store then hands out. */
  lemma DequeueNext<T(!new)>(capacity: uint64, s: State<T>)
    requires IsPowerOfTwo(capacity) && Reachable(capacity, s)
    ensures 0 <= s.HeadCount() <= s.TailCount() <= |s.writes|
    ensures s.c.ConsumerIdle? ==> Enabled(s, DequeueCall) && Enabled(s, ConsumerSizeHead)
    ensures s.c.HeadLoaded? && Contents(s) != [] ==>
      && Enabled(s, DequeueTest(s.TailCount()))
      && Apply(capacity, s, DequeueTest(s.TailCount())).c == ItemSeen(s.c.head)
    ensures s.c.ItemSeen? ==>
      && Enabled(s, DequeueCopy(Some(s.HeadCount()))) && Contents(s) != []
      && Apply(capacity, s, DequeueCopy(Some(s.HeadCount()))).c == ItemCopied(s.c.head, Contents(s)[0])
    ensures s.c.ItemCopied? ==>
      && Enabled(s, DequeueStore) && Contents(s) != []
      && EffectOf(capacity, s, DequeueStore) == DequeueTrue(Contents(s)[0])
      && Contents(Apply(capacity, s, DequeueStore)) == Contents(s)[1..]
  {
    ReachableInv(capacity, s);
    match s.c {
      case HeadLoaded(_) => EmptyTestExactForView(capacity, s.HeadCount(), s.TailCount());
      case ItemSeen(_) => CopyIsExact(capacity, s, Some(s.HeadCount()));
      case ItemCopied(_, _) => StoreHandsOutFirst(capacity, s);
      case _ =>
    }
  }

  /** The same for the producer, wherever the consumer is. */
  lemma EnqueueNext<T(!new)>(capacity: uint64, s: State<T>, item: T)
    requires IsPowerOfTwo(capacity) && Reachable(capacity, s)
    ensures 0 <= s.HeadCount() <= s.TailCount() <= |s.writes|
    ensures s.p.ProducerIdle? ==> Enabled(s, EnqueueCall(item))
    ensures s.p.SizeHeadLoaded? ==> Enabled(s, ProducerSizeTail)
    ensures s.p.TailLoaded? && |Contents(s)| < capacity - 1 ==>
      && Enabled(s, EnqueueTest(s.HeadCount()))
      && Apply(capacity, s, EnqueueTest(s.HeadCount())).p.RoomSeen?
      && Apply(capacity, s, EnqueueTest(s.HeadCount())).p.item == s.p.item
    ensures s.p.RoomSeen? ==>
      && Enabled(s, EnqueueWrite)
      && Apply(capacity, s, EnqueueWrite).p.SlotWritten? && Apply(capacity, s, EnqueueWrite).p.item == s.p.item
    ensures s.p.SlotWritten? ==>
      && Enabled(s, EnqueueStore)
      && EffectOf(capacity, s, EnqueueStore) == EnqueueTrue(s.p.item)
      && |s.writes| == s.TailCount() + 1
      && Contents(Apply(capacity, s, EnqueueStore)) == Contents(s) + [s.p.item]
  {
    ReachableInv(capacity, s);
    if s.p.TailLoaded? {
      FullTestExactForView(capacity, s.HeadCount(), s.TailCount());
    } else if s.p.SlotWritten? {
      EnqueueStoreStep(capacity, false, s);
    }
  }

  // ----- runs -----

  /** The effects that are calls returning. */
  function Visible<T>(es: seq<Effect<T>>): seq<Effect<T>> {
    if es == [] then []
    else if Last(es).Internal? then Visible(ButLast(es))
    else Visible(ButLast(es)) + [Last(es)]
  }

  /** The run `acts` from `s` ends in `s'`, and its calls have returned `es`. */
  ghost predicate Leads<T>(capacity: uint64, s: State<T>, acts: seq<Action<T>>, s': State<T>, es: seq<Effect<T>>) {
    Exec(capacity, s, acts) == Some(s') && Visible(History(capacity, s, acts)) == es
  }

  function Returns<T>(e: Effect<T>): seq<Effect<T>> {
    if e.Internal? then [] else [e]
  }

  lemma OneMore<T>(capacity: uint64, s: State<T>, acts: seq<Action<T>>, mid: State<T>, es: seq<Effect<T>>, a: Action<T>)
    requires Leads(capacity, s, acts, mid, es) && Enabled(mid, a)
    ensures Leads(capacity, s, acts + [a], Apply(capacity, mid, a), es + Returns(EffectOf(capacity, mid, a)))
    ensures AllFresh(capacity, s, acts) && Fresh(mid, a) ==> AllFresh(capacity, s, acts + [a])
  {
    AppendParts(acts, a);
    AppendParts(History(capacity, s, acts), EffectOf(capacity, mid, a));
    assert es + [] == es;
  }

  /** A call that is refused at its second step. */
  lemma TwoMore<T>(capacity: uint64, s: State<T>, acts: seq<Action<T>>, mid: State<T>, es: seq<Effect<T>>,
                   call: Action<T>, test: Action<T>) returns (more: seq<Action<T>>)
    requires Leads(capacity, s, acts, mid, es) && Enabled(mid, call) && EffectOf(capacity, mid, call).Internal?
    requires Enabled(Apply(capacity, mid, call), test)
    requires !EffectOf(capacity, Apply(capacity, mid, call), test).Internal?
    ensures
      var called := Apply(capacity, mid, call);
      Leads(capacity, s, more, Apply(capacity, called, test), es + [EffectOf(capacity, called, test)])
  {
    OneMore(capacity, s, acts, mid, es, call);
    assert es + [] == es;
    OneMore(capacity, s, acts + [call], Apply(capacity, mid, call), es, test);
    more := acts + [call] + [test];
  }

  /** A fresh run whose calls returned `es` has come to `s`, in which no call is in progress. */
  ghost predicate Settled<T>(capacity: uint64, blank: T, acts: seq<Action<T>>, s: State<T>, es: seq<Effect<T>>) {
    && Leads(capacity, Init(blank), acts, s, es) && AllFresh(capacity, Init(blank), acts)
    && Inv(capacity, s) && s.p.ProducerIdle? && s.c.ConsumerIdle?
  }

  /** One more fresh step. */
  lemma Proceed<T>(capacity: uint64, blank: T, acts: seq<Action<T>>, s: State<T>, es: seq<Effect<T>>, a: Action<T>)
    returns (more: seq<Action<T>>, s': State<T>)
    requires Leads(capacity, Init(blank), acts, s, es) && AllFresh(capacity, Init(blank), acts)
    requires Inv(capacity, s) && Enabled(s, a) && Fresh(s, a)
    ensures s' == Apply(capacity, s, a) && Inv(capacity, s')
    ensures Leads(capacity, Init(blank), more, s', es + Returns(EffectOf(capacity, s, a)))
    ensures AllFresh(capacity, Init(blank), more)
    ensures Step(capacity - 1, true, Contents(s), EffectOf(capacity, s, a), Contents(s'))
  {
    OneMore(capacity, Init(blank), acts, s, es, a);
    StepRefinesFifo(capacity, true, s, a);
    more, s' := acts + [a], Apply(capacity, s, a);
  }

  /** A call of `enqueue` with fresh loads. */
  lemma FreshEnqueue<T>(capacity: uint64, blank: T, acts: seq<Action<T>>, s: State<T>, es: seq<Effect<T>>, item: T)
    returns (more: seq<Action<T>>, s': State<T>)
    requires Settled(capacity, blank, acts, s, es)
    ensures Settled(capacity, blank, more, s',
                    es + [if |Contents(s)| < capacity - 1 then EnqueueTrue(item) else EnqueueFalse(item)])
    ensures Contents(s') == if |Contents(s)| < capacity - 1 then Contents(s) + [item] else Contents(s)
    ensures s'.heads == s.heads && s'.tailSeen == s.tailSeen
  {
    FullTestExactForView(capacity, s.HeadCount(), s.TailCount());
    var a1, s1 := Proceed(capacity, blank, acts, s, es, EnqueueCall(item));
    assert es + [] == es;
    more, s' := Proceed(capacity, blank, a1, s1, es, EnqueueTest(s.HeadCount()));
    if |Contents(s)| < capacity - 1 {
      var a3, s3 := Proceed(capacity, blank, more, s', es, EnqueueWrite);
      more, s' := Proceed(capacity, blank, a3, s3, es, EnqueueStore);
    }
  }

  /** A call of `dequeue` with fresh loads. */
  lemma FreshDequeue<T>(capacity: uint64, blank: T, acts: seq<Action<T>>, s: State<T>, es: seq<Effect<T>>)
    returns (more: seq<Action<T>>, s': State<T>)
    requires Settled(capacity, blank, acts, s, es)
    ensures Settled(capacity, blank, more, s',
                    es + [if Contents(s) != [] then DequeueTrue(Contents(s)[0]) else DequeueFalse])
    ensures Contents(s') == if Contents(s) != [] then Contents(s)[1..] else []
  {
    EmptyTestExactForView(capacity, s.HeadCount(), s.TailCount());
    var a1, s1 := Proceed(capacity, blank, acts, s, es, DequeueCall);
    assert es + [] == es;
    more, s' := Proceed(capacity, blank, a1, s1, es, DequeueTest(s.TailCount()));
    if Contents(s) != [] {
      CopyIsExact(capacity, s', Some(s'.HeadCount()));
      var a3, s3 := Proceed(capacity, blank, more, s', es, DequeueCopy(Some(s'.HeadCount())));
      more, s' := Proceed(capacity, blank, a3, s3, es, DequeueStore);
    }
  }

  /** One more call, with the answer that the FIFO prescribes. */
  lemma FreshCall<T>(capacity: uint64, blank: T, acts: seq<Action<T>>, s: State<T>, es: seq<Effect<T>>,
                     e: Effect<T>, q: seq<T>)
    returns (more: seq<Action<T>>, s': State<T>)
    requires Settled(capacity, blank, acts, s, es) && !e.Internal?
    requires Step(capacity - 1, true, Contents(s), e, q)
    ensures Settled(capacity, blank, more, s', es + [e]) && Contents(s') == q
  {
    if e.EnqueueTrue? || e.EnqueueFalse? {
      more, s' := FreshEnqueue(capacity, blank, acts, s, es, e.item);
    } else {
      more, s' := FreshDequeue(capacity, blank, acts, s, es);
    }
  }

  /** Completeness: every legal history of an exact FIFO of capacity - 1 items is what the calls
      of some run return. */
  lemma {:induction false} EveryHistoryIsReached<T(!new)>(capacity: uint64, blank: T, es: seq<Effect<T>>, q: seq<T>)
    returns (acts: seq<Action<T>>, s: State<T>)
    requires IsPowerOfTwo(capacity) && Legal(capacity - 1, true, [], es, q)
    requires forall i :: 0 <= i < |es| ==> !es[i].Internal?
    ensures Settled(capacity, blank, acts, s, es) && Contents(s) == q
    decreases |es|
  {
    if es == [] {
      InitInv(capacity, blank);
      acts, s := [], Init(blank);
    } else {
      var init := ButLast(es);
      var mid: seq<T> :| Legal(capacity - 1, true, [], init, mid) && Step(capacity - 1, true, mid, Last(es), q);
      acts, s := EveryHistoryIsReached(capacity, blank, init, mid);
      acts, s := FreshCall(capacity, blank, acts, s, init, Last(es), q);
      assert init + [Last(es)] == es;
    }
  }

  /** Leaving out the internal steps of a legal history leaves a legal history. */
  lemma {:induction false} VisibleLegal<T(!new)>(limit: int, exact: bool, q: seq<T>, es: seq<Effect<T>>, q': seq<T>)
    requires Legal(limit, exact, q, es, q')
    ensures Legal(limit, exact, q, Visible(es), q')
    decreases |es|
  {
    if es != [] {
      var init := ButLast(es);
      var mid: seq<T> :| Legal(limit, exact, q, init, mid) && Step(limit, exact, mid, Last(es), q');
      VisibleLegal(limit, exact, q, init, mid);
      if !Last(es).Internal? {
        Extend(limit, exact, q, Visible(init), mid, Last(es), q');
      }
    }
  }

  /** The answers that fresh runs give are exactly the legal histories of the FIFO. */
  lemma FreshHistoriesAreLegal<T(!new)>(capacity: uint64, blank: T, es: seq<Effect<T>>, q: seq<T>)
    requires IsPowerOfTwo(capacity) && forall i :: 0 <= i < |es| ==> !es[i].Internal?
    ensures (exists acts: seq<Action<T>>, s: State<T> :: Settled(capacity, blank, acts, s, es) && Contents(s) == q)
       <==> Legal(capacity - 1, true, [], es, q)
  {
    if acts: seq<Action<T>>, s: State<T> :| Settled(capacity, blank, acts, s, es) && Contents(s) == q {
      RunRefinesFifo(capacity, true, blank, acts);
      VisibleLegal(capacity - 1, true, [], History(capacity, Init(blank), acts), q);
    }
    if Legal(capacity - 1, true, [], es, q) {
      var acts, s := EveryHistoryIsReached(capacity, blank, es, q);
    }
  }

  // ----- how far staleness goes -----

  function Repeat<T>(e: Effect<T>, n: nat): (es: seq<Effect<T>>)
    ensures |es| == n && forall i :: 0 <= i < n ==> es[i] == e
  {
    if n == 0 then [] else Repeat(e, n - 1) + [e]
  }

  /** Between calls, and the newest tail that the consumer has seen is where the head is now. */
  ghost predicate SawNothing<T>(capacity: uint64, s: State<T>) {
    Inv(capacity, s) && s.c.ConsumerIdle? && s.tailSeen == s.HeadCount()
  }

  /** The contents do not matter to a call of `dequeue` with an old view. */
  lemma DequeueSeesOldTail<T>(capacity: uint64, s: State<T>)
    requires SawNothing(capacity, s)
    ensures Enabled(s, DequeueCall) && EffectOf(capacity, s, DequeueCall).Internal?
    ensures
      var called := Apply(capacity, s, DequeueCall);
      && Enabled(called, DequeueTest(s.tailSeen))
      && EffectOf(capacity, called, DequeueTest(s.tailSeen)) == DequeueFalse
      && Apply(capacity, called, DequeueTest(s.tailSeen)) == s.(known := Max(s.known, s.tailSeen))
    ensures SawNothing(capacity, s.(known := Max(s.known, s.tailSeen)))
  {
  }

  /** A consumer that last saw the tail where the head is now may be told false any number of
      times, whatever is stored. */
  lemma {:induction false} DequeueMayStarve<T>(capacity: uint64, start: State<T>, before: seq<Action<T>>, s: State<T>,
                                               es: seq<Effect<T>>, n: nat)
    returns (acts: seq<Action<T>>, s': State<T>)
    requires SawNothing(capacity, s) && Leads(capacity, start, before, s, es)
    ensures Leads(capacity, start, acts, s', es + Repeat(DequeueFalse, n))
    ensures SawNothing(capacity, s') && s' == s.(known := s'.known)
    decreases n
  {
    if n == 0 {
      acts, s' := before, s;
      assert es + Repeat(DequeueFalse, 0) == es;
    } else {
      acts, s' := DequeueMayStarve(capacity, start, before, s, es, n - 1);
      DequeueSeesOldTail(capacity, s');
      Regroup(es, Repeat(DequeueFalse, n - 1), [DequeueFalse]);
      acts := TwoMore(capacity, start, acts, s', es + Repeat(DequeueFalse, n - 1),
                      DequeueCall, DequeueTest(s'.tailSeen));
      s' := s'.(known := Max(s'.known, s'.tailSeen));
    }
  }

  /** Such a run from the start: one item is stored, and any number of calls of `dequeue` miss it. */
  lemma StoredYetRefused<T>(capacity: uint64, blank: T, item: T, n: nat)
    returns (acts: seq<Action<T>>, s: State<T>)
    requires IsPowerOfTwo(capacity) && capacity >= 2
    ensures Leads(capacity, Init(blank), acts, s, [EnqueueTrue(item)] + Repeat(DequeueFalse, n))
    ensures Inv(capacity, s) && Contents(s) == [item]
  {
    InitInv(capacity, blank);
    acts, s := FreshEnqueue(capacity, blank, [], Init(blank), [], item);
    assert [] + [EnqueueTrue(item)] == [EnqueueTrue(item)] && [] + [item] == [item];
    acts, s := DequeueMayStarve(capacity, Init(blank), acts, s, [EnqueueTrue(item)], n);
  }

  /** One call of `enqueue` that is refused by an old view leaves the memory as it was. */
  lemma EnqueueSeesOldHead<T>(capacity: uint64, s: State<T>, item: T)
    requires Inv(capacity, s) && s.p.ProducerIdle? && s.TailCount() == s.headSeen + capacity - 1
    ensures Enabled(s, EnqueueCall(item))
    ensures
      var called := Apply(capacity, s, EnqueueCall(item));
      && Enabled(called, EnqueueTest(s.headSeen)) && Apply(capacity, called, EnqueueTest(s.headSeen)) == s
      && EffectOf(capacity, called, EnqueueTest(s.headSeen)) == EnqueueFalse(item)
  {
    FullTestExactForView(capacity, s.headSeen, s.TailCount());
  }

  /** A producer that last saw the head capacity - 1 behind its tail may be told false any number of
      times, however many items have been taken since. */
  lemma {:induction false} EnqueueMayStarve<T(!new)>(capacity: uint64, s: State<T>, item: T, n: nat)
    returns (acts: seq<Action<T>>)
    requires IsPowerOfTwo(capacity) && Reachable(capacity, s) && s.p.ProducerIdle?
    requires s.TailCount() == s.headSeen + capacity - 1
    ensures Leads(capacity, s, acts, s, Repeat(EnqueueFalse(item), n))
    decreases n
  {
    ReachableInv(capacity, s);
    if n == 0 {
      acts := [];
    } else {
      var before := EnqueueMayStarve(capacity, s, item, n - 1);
      EnqueueSeesOldHead(capacity, s, item);
      acts := TwoMore(capacity, s, before, s, Repeat(EnqueueFalse(item), n - 1),
                      EnqueueCall(item), EnqueueTest(s.headSeen));
    }
  }

  /** Why the tail load is an acquire: from the second lap on, a consumer to which it had made only
      `known` slot writes visible could copy the item of the lap before, exactly when the
      write that it is after is not among them. */
  lemma AcquireIsNeeded<T(!new)>(capacity: uint64, s: State<T>, known: nat)
    requires IsPowerOfTwo(capacity) && Reachable(capacity, s) && s.c.ItemSeen?
    requires s.HeadCount() >= capacity
    ensures Readable(s.(known := known), s.c.head, Some(s.HeadCount() - capacity)) <==> known <= s.HeadCount()
  {
    ReachableInv(capacity, s);
    var earlier := s.HeadCount() - capacity;
    OneLapLater(capacity, earlier);
    assert s.writes[earlier].slot == s.c.head && s.writes[s.HeadCount()].slot == s.c.head;
    forall later | earlier < later < s.HeadCount()
      ensures s.writes[later].slot != s.c.head
    {
      EmptyTestExactForView(capacity, earlier, later);
    }
  }
}
