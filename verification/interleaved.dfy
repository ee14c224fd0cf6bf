/**
  The pipeline at the granularity of single index loads, slot accesses, index stores and
  posts: the producer thread inside `encache` and the consumer thread inside its event loop run
  against the weak-memory ring. Every run refines a run of the atomic pipeline with the same
  arrivals and answers, and the results on conservation, order, merge and loss are carried over.
 */
module Interleaved {
  import opened Bits
  import opened Messages
  import opened Options
  import opened Seqs
  import opened EventLoop
  import CacheSpec
  import Fifo
  import P = Pipeline
  import R = Ring

  /** Where the consumer thread is between taking a task off its loop and being done with it. */
  datatype Phase = AtTop | Dequeuing | Obtained(m: Msg) | Reposting

  /** Where the producer thread is: inside `encache` past the duplicate test, or not. */
  datatype Incoming = Quiet | Encaching(arrival: P.Arrival, before: uint64)

  datatype State = State(
    ring: R.State<Msg>,
    watermark: uint64,
    incoming: Incoming,
    tasks: seq<Task>,
    phase: Phase,
    delivered: seq<Msg>,
    calls: seq<Call>
  )

  datatype Step =
    | Arrive(arrival: P.Arrival)      // on_data up to the load of the own tail, or its early return
    | Produce(a: R.Action<Msg>)       // the producer's next access to the ring
    | CallRun                         // Consumer::run, called in the consumer's thread
    | BeginTask                       // the loop takes its front task; a poll loads the own head
    | Consume(a: R.Action<Msg>)       // the consumer's next access to the ring
    | PostDelivery
    | PostPoll

  function Init(w: uint64, blank: Msg): State {
    State(R.Init(blank), w, Quiet, [], AtTop, [], [])
  }

  /** `on_data` and `encache` get as far as the queue. */
  predicate Passes(cfg: P.Config, w: uint64, arrival: P.Arrival) {
    var m := P.MsgOf(cfg, arrival);
    Valid(m) && (m.source == WebSocket ==> CacheSpec.IsNumbered(m) && w < CacheSpec.U(m))
  }

  function NewWatermark(cfg: P.Config, w: uint64, arrival: P.Arrival): uint64
    requires Passes(cfg, w, arrival)
  {
    var m := P.MsgOf(cfg, arrival);
    if m.source == WebSocket then CacheSpec.U(m) else w
  }

  ghost predicate Enabled(cfg: P.Config, f: State, st: Step) {
    match st
    case Arrive(arrival) => R.Enabled(f.ring, R.EnqueueCall(P.MsgOf(cfg, arrival)))
    case Produce(a) =>
      && f.incoming.Encaching? && (a.EnqueueTest? || a.EnqueueWrite? || a.EnqueueStore?)
      && R.Enabled(f.ring, a)
    case CallRun => f.phase.AtTop?
    case BeginTask => f.phase.AtTop? && f.tasks != [] && (f.tasks[0].Poll? ==> R.Enabled(f.ring, R.DequeueCall))
    case Consume(a) => (a.DequeueTest? || a.DequeueCopy? || a.DequeueStore?) && R.Enabled(f.ring, a)
    case PostDelivery => f.phase.Obtained?
    case PostPoll => f.phase.Reposting?
  }

  ghost function Next(capacity: uint64, cfg: P.Config, f: State, st: Step): State
    requires Enabled(cfg, f, st)
  {
    match st
    case Arrive(arrival) =>
      if Passes(cfg, f.watermark, arrival) then
        f.(watermark := NewWatermark(cfg, f.watermark, arrival),
           incoming := Encaching(arrival, f.watermark),
           ring := R.Apply(capacity, f.ring, R.EnqueueCall(P.MsgOf(cfg, arrival))))
      else f
    case Produce(a) =>
      var ring := R.Apply(capacity, f.ring, a);
      f.(ring := ring, incoming := if ring.p.ProducerIdle? then Quiet else f.incoming)
    case CallRun => f.(tasks := f.tasks + [Poll])
    case BeginTask =>
      (match f.tasks[0]
       case Deliver(m) =>
         f.(tasks := f.tasks[1..], delivered := f.delivered + [m], calls := f.calls + OnData(cfg.bound, m))
       case Poll =>
         f.(tasks := f.tasks[1..], phase := Dequeuing, ring := R.Apply(capacity, f.ring, R.DequeueCall)))
    case Consume(a) =>
      var ring := R.Apply(capacity, f.ring, a);
      f.(ring := ring,
         phase := if a.DequeueStore? then Obtained(f.ring.c.item)
                  else if ring.c.ConsumerIdle? then Reposting else f.phase)
    case PostDelivery => f.(tasks := f.tasks + [Deliver(f.phase.m)], phase := Reposting)
    case PostPoll => f.(tasks := f.tasks + [Poll], phase := AtTop)
  }

  ghost predicate Fresh(f: State, st: Step) {
    st.Produce? || st.Consume? ==> R.Fresh(f.ring, st.a)
  }

  ghost function Exec(capacity: uint64, cfg: P.Config, f: State, sts: seq<Step>): Option<State> {
    if sts == [] then Some(f)
    else
      var mid := Exec(capacity, cfg, f, ButLast(sts));
      if mid.Some? && Enabled(cfg, mid.value, Last(sts)) then Some(Next(capacity, cfg, mid.value, Last(sts))) else None
  }

  ghost predicate AllFresh(capacity: uint64, cfg: P.Config, f: State, sts: seq<Step>)
    requires Exec(capacity, cfg, f, sts).Some?
  {
    sts == []
    || (&& AllFresh(capacity, cfg, f, ButLast(sts))
        && Fresh(Exec(capacity, cfg, f, ButLast(sts)).value, Last(sts)))
  }

  // ----- arrivals -----

  /** The arrival that `on_data` is done with at a step: an early return, or what `enqueue` returned. */
  ghost function DoneBy(capacity: uint64, cfg: P.Config, f: State, st: Step): seq<P.Done>
    requires Enabled(cfg, f, st)
  {
    match st
    case Arrive(arrival) => if Passes(cfg, f.watermark, arrival) then [] else [P.Done(arrival, false)]
    case Produce(a) =>
      var e := R.EffectOf(capacity, f.ring, a);
      if e.EnqueueTrue? then [P.Done(f.incoming.arrival, false)]
      else if e.EnqueueFalse? then [P.Done(f.incoming.arrival, true)]
      else []
    case _ => []
  }

  ghost function Done(capacity: uint64, cfg: P.Config, f: State, sts: seq<Step>): seq<P.Done>
    requires Exec(capacity, cfg, f, sts).Some?
  {
    if sts == [] then []
    else
      Done(capacity, cfg, f, ButLast(sts))
      + DoneBy(capacity, cfg, Exec(capacity, cfg, f, ButLast(sts)).value, Last(sts))
  }

  /** The arrivals of a run, in order. */
  function Arrived(sts: seq<Step>): seq<P.Arrival> {
    if sts == [] then []
    else if Last(sts).Arrive? then Arrived(ButLast(sts)) + [Last(sts).arrival]
    else Arrived(ButLast(sts))
  }

  /** The arrival that `encache` is at work on, if any. */
  function InProgress(f: State): seq<P.Arrival> {
    if f.incoming.Encaching? then [f.incoming.arrival] else []
  }

  function ArrivalsOf(done: seq<P.Done>): (arrivals: seq<P.Arrival>)
    ensures |arrivals| == |done|
  {
    seq(|done|, i requires 0 <= i < |done| => done[i].arrival)
  }

  // ----- the abstraction -----

  /** The messages for which `enqueue` has made its tail store, and so returned true. */
  ghost function Stored(ring: R.State<Msg>): seq<Msg>
    requires 0 <= ring.TailCount() <= |ring.writes|
  {
    R.Items(ring.writes)[..ring.TailCount()]
  }

  /** The loop's tasks, counting the task in progress as not yet run until its dequeue is
      decided, and as having posted everything after that. */
  function LoopTasks(f: State): seq<Task> {
    match f.phase
    case AtTop => f.tasks
    case Dequeuing => [Poll] + f.tasks
    case Obtained(m) => f.tasks + [Deliver(m), Poll]
    case Reposting => f.tasks + [Poll]
  }

  ghost predicate Inv(capacity: uint64, cfg: P.Config, f: State) {
    && cfg.limit == capacity - 1
    && R.Inv(capacity, f.ring)
    && !f.ring.p.SizeHeadLoaded? && !f.ring.c.SizeOwnHeadLoaded?
    && (f.phase.Dequeuing? <==> !f.ring.c.ConsumerIdle?)
    && (f.incoming.Quiet? <==> f.ring.p.ProducerIdle?)
    && (f.incoming.Encaching? ==>
          && Passes(cfg, f.incoming.before, f.incoming.arrival)
          && f.watermark == NewWatermark(cfg, f.incoming.before, f.incoming.arrival)
          && f.ring.p.item == P.MsgOf(cfg, f.incoming.arrival))
  }

  ghost function Abs(f: State): P.Sys
    requires 0 <= f.ring.HeadCount() <= f.ring.TailCount() <= |f.ring.writes|
  {
    P.Sys(CacheSpec.CacheState(if f.incoming.Encaching? then f.incoming.before else f.watermark, R.Contents(f.ring)),
          Loop(LoopTasks(f), f.delivered, f.calls),
          Stored(f.ring))
  }

  /** The atomic action that takes effect at a step, if any. */
  ghost function Atomic(capacity: uint64, cfg: P.Config, f: State, st: Step): seq<P.Action>
    requires Inv(capacity, cfg, f) && Enabled(cfg, f, st)
  {
    match st
    case Arrive(arrival) =>
      if Passes(cfg, f.watermark, arrival) then [] else [P.Data(arrival, |R.Contents(f.ring)| < cfg.limit)]
    case Produce(a) =>
      var e := R.EffectOf(capacity, f.ring, a);
      if e.EnqueueTrue? then [P.Data(f.incoming.arrival, true)]
      else if e.EnqueueFalse? then [P.Data(f.incoming.arrival, false)]
      else []
    case CallRun => [P.Start]
    case BeginTask => if f.tasks[0].Deliver? then [P.Execute(false)] else []
    case Consume(a) =>
      var e := R.EffectOf(capacity, f.ring, a);
      if e.DequeueTrue? then [P.Execute(true)] else if e.DequeueFalse? then [P.Execute(false)] else []
    case _ => []
  }

  /** A step is one atomic action of the pipeline, or none. */
  ghost predicate Refines(capacity: uint64, cfg: P.Config, exact: bool, f: State, st: Step)
    requires Inv(capacity, cfg, f) && Enabled(cfg, f, st)
  {
    var f' := Next(capacity, cfg, f, st);
    && Inv(capacity, cfg, f')
    && P.Follows(cfg, exact, Abs(f), Atomic(capacity, cfg, f, st), Abs(f'))
  }

  lemma StoredGrows(capacity: uint64, ring: R.State<Msg>, a: R.Action<Msg>)
    requires R.Inv(capacity, ring) && R.Enabled(ring, a)
    requires R.Inv(capacity, R.Apply(capacity, ring, a))
    ensures Stored(R.Apply(capacity, ring, a)) == if a.EnqueueStore? then Stored(ring) + [ring.p.item] else Stored(ring)
  {
    var ring' := R.Apply(capacity, ring, a);
    if a.EnqueueWrite? {
      assert R.Items(ring'.writes)[..|ring.writes|] == R.Items(ring.writes);
    }
  }

  /** What one ring access does, as far as the pipeline can tell. */
  lemma RingStep(capacity: uint64, exact: bool, ring: R.State<Msg>, a: R.Action<Msg>)
    requires R.Inv(capacity, ring) && R.Enabled(ring, a) && (exact ==> R.Fresh(ring, a))
    ensures
      var ring' := R.Apply(capacity, ring, a);
      && R.Inv(capacity, ring')
      && Fifo.Step(capacity - 1, exact, R.Contents(ring), R.EffectOf(capacity, ring, a), R.Contents(ring'))
      && Stored(ring') == (if a.EnqueueStore? then Stored(ring) + [ring.p.item] else Stored(ring))
  {
    R.StepRefinesFifo(capacity, exact, ring, a);
    StoredGrows(capacity, ring, a);
  }

  lemma ArriveRefines(capacity: uint64, cfg: P.Config, exact: bool, f: State, arrival: P.Arrival)
    requires Inv(capacity, cfg, f) && Enabled(cfg, f, Arrive(arrival))
    ensures Refines(capacity, cfg, exact, f, Arrive(arrival))
  {
    if Passes(cfg, f.watermark, arrival) {
      var call := R.EnqueueCall(P.MsgOf(cfg, arrival));
      RingStep(capacity, false, f.ring, call);
    }
  }

  /** The atomic arrival of a message that gets as far as the queue. */
  lemma PassingData(cfg: P.Config, exact: bool, s: P.Sys, arrival: P.Arrival, room: bool)
    requires Passes(cfg, s.cache.watermark, arrival)
    requires (room ==> |s.cache.queue| < cfg.limit) && (exact && |s.cache.queue| < cfg.limit ==> room)
    ensures P.Possible(cfg, exact, s, P.Data(arrival, room))
    ensures
      var m := P.MsgOf(cfg, arrival);
      P.Apply(cfg, s, P.Data(arrival, room))
      == P.Sys(CacheSpec.CacheState(NewWatermark(cfg, s.cache.watermark, arrival),
                                    if room then s.cache.queue + [m] else s.cache.queue),
               s.loop,
               if room then s.accepted + [m] else s.accepted)
  {
  }

  lemma TestRefines(capacity: uint64, cfg: P.Config, exact: bool, f: State, view: nat)
    requires Inv(capacity, cfg, f) && Enabled(cfg, f, Produce(R.EnqueueTest(view)))
    requires exact ==> view == f.ring.HeadCount()
    ensures Refines(capacity, cfg, exact, f, Produce(R.EnqueueTest(view)))
  {
    var test := R.EnqueueTest(view);
    RingStep(capacity, exact, f.ring, test);
    if R.EffectOf(capacity, f.ring, test).EnqueueFalse? {
      PassingData(cfg, exact, Abs(f), f.incoming.arrival, false);
    }
  }

  lemma WriteRefines(capacity: uint64, cfg: P.Config, exact: bool, f: State)
    requires Inv(capacity, cfg, f) && Enabled(cfg, f, Produce(R.EnqueueWrite))
    ensures Refines(capacity, cfg, exact, f, Produce(R.EnqueueWrite))
  {
    RingStep(capacity, exact, f.ring, R.EnqueueWrite);
  }

  lemma StoreRefines(capacity: uint64, cfg: P.Config, exact: bool, f: State)
    requires Inv(capacity, cfg, f) && Enabled(cfg, f, Produce(R.EnqueueStore))
    ensures Refines(capacity, cfg, exact, f, Produce(R.EnqueueStore))
  {
    RingStep(capacity, exact, f.ring, R.EnqueueStore);
    PassingData(cfg, exact, Abs(f), f.incoming.arrival, true);
  }

  lemma BeginRefines(capacity: uint64, cfg: P.Config, exact: bool, f: State)
    requires Inv(capacity, cfg, f) && Enabled(cfg, f, BeginTask)
    ensures Refines(capacity, cfg, exact, f, BeginTask)
  {
    if f.tasks[0].Poll? {
      RingStep(capacity, false, f.ring, R.DequeueCall);
      assert f.tasks == [Poll] + f.tasks[1..];
    }
  }

  lemma PollTestRefines(capacity: uint64, cfg: P.Config, exact: bool, f: State, view: nat)
    requires Inv(capacity, cfg, f) && Enabled(cfg, f, Consume(R.DequeueTest(view)))
    requires exact ==> view == f.ring.TailCount()
    ensures Refines(capacity, cfg, exact, f, Consume(R.DequeueTest(view)))
  {
    RingStep(capacity, exact, f.ring, R.DequeueTest(view));
    assert ([Poll] + f.tasks)[1..] == f.tasks;
  }

  lemma CopyRefines(capacity: uint64, cfg: P.Config, exact: bool, f: State, from: Option<nat>)
    requires Inv(capacity, cfg, f) && Enabled(cfg, f, Consume(R.DequeueCopy(from)))
    ensures Refines(capacity, cfg, exact, f, Consume(R.DequeueCopy(from)))
  {
    RingStep(capacity, exact, f.ring, R.DequeueCopy(from));
  }

  lemma ReleaseRefines(capacity: uint64, cfg: P.Config, exact: bool, f: State)
    requires Inv(capacity, cfg, f) && Enabled(cfg, f, Consume(R.DequeueStore))
    ensures Refines(capacity, cfg, exact, f, Consume(R.DequeueStore))
  {
    RingStep(capacity, exact, f.ring, R.DequeueStore);
    assert ([Poll] + f.tasks)[1..] == f.tasks;
  }

  lemma PostRefines(capacity: uint64, cfg: P.Config, exact: bool, f: State, st: Step)
    requires Inv(capacity, cfg, f) && Enabled(cfg, f, st)
    requires st.CallRun? || st.PostDelivery? || st.PostPoll?
    ensures Refines(capacity, cfg, exact, f, st)
  {
    if st.PostDelivery? {
      assert f.tasks + [Deliver(f.phase.m), Poll] == (f.tasks + [Deliver(f.phase.m)]) + [Poll];
    }
  }

  lemma StepRefines(capacity: uint64, cfg: P.Config, exact: bool, f: State, st: Step)
    requires Inv(capacity, cfg, f) && Enabled(cfg, f, st) && (exact ==> Fresh(f, st))
    ensures Refines(capacity, cfg, exact, f, st)
  {
    match st {
      case Arrive(arrival) => ArriveRefines(capacity, cfg, exact, f, arrival);
      case Produce(EnqueueTest(view)) => TestRefines(capacity, cfg, exact, f, view);
      case Produce(EnqueueWrite) => WriteRefines(capacity, cfg, exact, f);
      case Produce(EnqueueStore) => StoreRefines(capacity, cfg, exact, f);
      case BeginTask => BeginRefines(capacity, cfg, exact, f);
      case Consume(DequeueTest(view)) => PollTestRefines(capacity, cfg, exact, f, view);
      case Consume(DequeueCopy(from)) => CopyRefines(capacity, cfg, exact, f, from);
      case Consume(DequeueStore) => ReleaseRefines(capacity, cfg, exact, f);
      case CallRun => PostRefines(capacity, cfg, exact, f, st);
      case PostDelivery => PostRefines(capacity, cfg, exact, f, st);
      case PostPoll => PostRefines(capacity, cfg, exact, f, st);
    }
  }

  lemma CountsStarts(capacity: uint64, cfg: P.Config, f: State, st: Step)
    requires Inv(capacity, cfg, f) && Enabled(cfg, f, st)
    ensures P.Starts(Atomic(capacity, cfg, f, st)) == if st.CallRun? then 1 else 0
  {
    var now := Atomic(capacity, cfg, f, st);
    if now != [] {
      assert now == [now[0]];
      P.StartsOfOne(now[0]);
    }
  }

  /** The atomic action is done with the same arrival, with the same answer, as the step. */
  lemma SameDone(capacity: uint64, cfg: P.Config, f: State, st: Step)
    requires Inv(capacity, cfg, f) && Enabled(cfg, f, st)
    ensures P.DoneNow(cfg, Abs(f), Atomic(capacity, cfg, f, st)) == DoneBy(capacity, cfg, f, st)
  {
  }

  /** What a step does, without saying how. */
  lemma StepFollows(capacity: uint64, cfg: P.Config, exact: bool, f: State, st: Step)
    returns (now: seq<P.Action>, s': P.Sys)
    requires Inv(capacity, cfg, f) && Enabled(cfg, f, st) && (exact ==> Fresh(f, st))
    ensures Inv(capacity, cfg, Next(capacity, cfg, f, st)) && s' == Abs(Next(capacity, cfg, f, st))
    ensures P.Follows(cfg, exact, Abs(f), now, s') && |now| <= 1
    ensures P.Starts(now) == if st.CallRun? then 1 else 0
    ensures P.DoneNow(cfg, Abs(f), now) == DoneBy(capacity, cfg, f, st)
  {
    StepRefines(capacity, cfg, exact, f, st);
    CountsStarts(capacity, cfg, f, st);
    SameDone(capacity, cfg, f, st);
    now := Atomic(capacity, cfg, f, st);
    s' := Abs(Next(capacity, cfg, f, st));
  }

  /** The run `acts` of the atomic pipeline ends in `s` after `starts` calls of `run()` and is
      done with `done`. */
  ghost predicate Reaches(cfg: P.Config, exact: bool, w: uint64, acts: seq<P.Action>, s: P.Sys,
                          starts: nat, done: seq<P.Done>)
  {
    && P.Run(cfg, exact, w, acts) && P.After(cfg, w, acts) == s
    && P.Starts(acts) == starts && P.DoneOf(cfg, w, acts) == done
  }

  lemma StepExtendsRun(capacity: uint64, cfg: P.Config, exact: bool, w: uint64, f: State, st: Step,
                       acts: seq<P.Action>, starts: nat, done: seq<P.Done>)
    returns (more: seq<P.Action>)
    requires Inv(capacity, cfg, f) && Enabled(cfg, f, st) && (exact ==> Fresh(f, st))
    requires Reaches(cfg, exact, w, acts, Abs(f), starts, done)
    ensures Inv(capacity, cfg, Next(capacity, cfg, f, st))
    ensures Reaches(cfg, exact, w, more, Abs(Next(capacity, cfg, f, st)), starts + (if st.CallRun? then 1 else 0),
                    done + DoneBy(capacity, cfg, f, st))
  {
    var now, s' := StepFollows(capacity, cfg, exact, f, st);
    P.FollowRun(cfg, exact, w, acts, now, s');
    more := acts + now;
  }

  /** Every fine-grained run is a run of the atomic pipeline with the same arrivals, in the same
      order and with the same answers; it is exact when every load of the other side's index is
      fresh. */
  lemma {:induction false} RunRefines(capacity: uint64, cfg: P.Config, exact: bool, w: uint64, blank: Msg,
                                      sts: seq<Step>)
    returns (acts: seq<P.Action>)
    requires IsPowerOfTwo(capacity) && cfg.limit == capacity - 1
    requires Exec(capacity, cfg, Init(w, blank), sts).Some?
    requires exact ==> AllFresh(capacity, cfg, Init(w, blank), sts)
    ensures Inv(capacity, cfg, Exec(capacity, cfg, Init(w, blank), sts).value)
    ensures Reaches(cfg, exact, w, acts, Abs(Exec(capacity, cfg, Init(w, blank), sts).value),
                    CallsOfRun(sts), Done(capacity, cfg, Init(w, blank), sts))
    decreases |sts|
  {
    if sts == [] {
      R.InitInv(capacity, blank);
      acts := [];
    } else {
      var init := ButLast(sts);
      var before := RunRefines(capacity, cfg, exact, w, blank, init);
      acts := StepExtendsRun(capacity, cfg, exact, w, Exec(capacity, cfg, Init(w, blank), init).value, Last(sts),
                             before, CallsOfRun(init), Done(capacity, cfg, Init(w, blank), init));
    }
  }

  function CallsOfRun(sts: seq<Step>): nat {
    if sts == [] then 0
    else CallsOfRun(ButLast(sts)) + (if Last(sts).CallRun? then 1 else 0)
  }

  // ----- the end-to-end results for every interleaving -----

  /** In every interleaving, with views as late as they may be: the messages whose tail store
      is done are, in order, the delivered ones, those on the consumer's loop or in its hands, and
      those in the ring; and at most capacity - 1 + k are undelivered after k calls of `run()`. */
  lemma NothingLostEndToEnd(capacity: uint64, cfg: P.Config, w: uint64, blank: Msg, sts: seq<Step>)
    requires IsPowerOfTwo(capacity) && cfg.limit == capacity - 1
    requires Exec(capacity, cfg, Init(w, blank), sts).Some?
    ensures
      var f := Exec(capacity, cfg, Init(w, blank), sts).value;
      && 0 <= f.ring.HeadCount() <= f.ring.TailCount() <= |f.ring.writes|
      && Stored(f.ring) == f.delivered + Pending(LoopTasks(f)) + R.Contents(f.ring)
      && |Stored(f.ring)| - |f.delivered| <= capacity - 1 + CallsOfRun(sts)
  {
    var acts := RunRefines(capacity, cfg, false, w, blank, sts);
    P.Conservation(cfg, false, w, acts);
    P.InFlightBound(cfg, false, w, acts);
  }

  /** In every interleaving the WebSocket callback sees strictly increasing numbers above the
      starting watermark, and the consumer never meets an unknown or null message. */
  lemma OrderEndToEnd(capacity: uint64, cfg: P.Config, w: uint64, blank: Msg, sts: seq<Step>)
    requires IsPowerOfTwo(capacity) && cfg.limit == capacity - 1 && cfg.bound.ws
    requires Exec(capacity, cfg, Init(w, blank), sts).Some?
    ensures
      var f := Exec(capacity, cfg, Init(w, blank), sts).value;
      var books := P.WebSocketBooks(f.calls);
      && P.BooksIncrease(books) && (forall i :: 0 <= i < |books| ==> w < books[i].u.value)
      && UnknownType !in f.calls && NullBook !in f.calls
  {
    var acts := RunRefines(capacity, cfg, false, w, blank, sts);
    P.EndToEndOrder(cfg, false, w, acts);
    P.NoUnknownMessage(cfg, false, w, acts);
  }

  // ----- merge and loss -----

  lemma ArrivalStep(capacity: uint64, cfg: P.Config, f: State, st: Step)
    requires Inv(capacity, cfg, f) && Enabled(cfg, f, st)
    ensures ArrivalsOf(DoneBy(capacity, cfg, f, st)) + InProgress(Next(capacity, cfg, f, st))
         == InProgress(f) + (if st.Arrive? then [st.arrival] else [])
  {
  }

  /** `on_data` is done with the arrivals in the order in which they came; only the last may be
      in progress. */
  lemma {:induction false} DoneInOrder(capacity: uint64, cfg: P.Config, w: uint64, blank: Msg, sts: seq<Step>)
    requires IsPowerOfTwo(capacity) && cfg.limit == capacity - 1
    requires Exec(capacity, cfg, Init(w, blank), sts).Some?
    ensures ArrivalsOf(Done(capacity, cfg, Init(w, blank), sts))
            + InProgress(Exec(capacity, cfg, Init(w, blank), sts).value) == Arrived(sts)
    decreases |sts|
  {
    if sts != [] {
      var init := ButLast(sts);
      var f := Exec(capacity, cfg, Init(w, blank), init).value;
      var before, now := Done(capacity, cfg, Init(w, blank), init), DoneBy(capacity, cfg, f, Last(sts));
      DoneInOrder(capacity, cfg, w, blank, init);
      var _ := RunRefines(capacity, cfg, false, w, blank, init);
      ArrivalStep(capacity, cfg, f, Last(sts));
      ArrivalsConcat(before, now);
      Regroup(ArrivalsOf(before), ArrivalsOf(now), InProgress(Next(capacity, cfg, f, Last(sts))));
      Regroup(ArrivalsOf(before), InProgress(f), if Last(sts).Arrive? then [Last(sts).arrival] else []);
    }
  }

  lemma ArrivalsConcat(a: seq<P.Done>, b: seq<P.Done>)
    ensures ArrivalsOf(a + b) == ArrivalsOf(a) + ArrivalsOf(b)
  {
  }

  /** Replica merge in every interleaving and with views as late as they may be: when each handler
      is done with a prefix of one stream of increasing numbers and no `enqueue` of a new WebSocket
      message has failed, the stored WebSocket messages are the prefix of the handler that is furthest
      ahead, and the WebSocket callback has been given the books of a first part of the stream. */
  lemma MergeEndToEnd(capacity: uint64, cfg: P.Config, w: uint64, blank: Msg, sts: seq<Step>, stream: seq<Msg>)
    returns (ahead: nat)
    requires IsPowerOfTwo(capacity) && cfg.limit == capacity - 1 && cfg.bound.ws
    requires Exec(capacity, cfg, Init(w, blank), sts).Some?
    requires CacheSpec.NumbersIncrease(stream) && CacheSpec.NumbersAbove(w, stream)
    requires P.NoneRefused(Done(capacity, cfg, Init(w, blank), sts))
    requires forall h :: P.OffersFrom(cfg, Done(capacity, cfg, Init(w, blank), sts), h) <= stream
    ensures
      var f, done := Exec(capacity, cfg, Init(w, blank), sts).value, Done(capacity, cfg, Init(w, blank), sts);
      var furthest := P.OffersFrom(cfg, done, ahead);
      && (forall h :: |P.OffersFrom(cfg, done, h)| <= |furthest|)
      && 0 <= f.ring.TailCount() <= |f.ring.writes|
      && CacheSpec.WebSocketOnly(Stored(f.ring)) == furthest
      && P.WebSocketBooks(f.calls) <= P.BooksOf(stream) && |P.WebSocketBooks(f.calls)| <= |furthest|
  {
    var acts := RunRefines(capacity, cfg, false, w, blank, sts);
    var start, es := CacheSpec.CacheState(w, []), P.Events(cfg, w, acts);
    P.CallsAreOfArrivals(cfg, false, w, acts);
    ahead := CacheSpec.LongestIsGreatest(es);
    forall h
      ensures CacheSpec.FromReplica(es, h) <= stream
      ensures |P.OffersFrom(cfg, Done(capacity, cfg, Init(w, blank), sts), h)| <= CacheSpec.Longest(es)
    {
      assert CacheSpec.FromReplica(es, h) == P.OffersFrom(cfg, P.DoneOf(cfg, w, acts), h);
    }
    P.EndToEndMerge(cfg, false, w, acts, stream);
    assert CacheSpec.FromReplica(es, ahead) <= stream;
  }

  /** With any losses, in every interleaving: when every WebSocket arrival is of one stream, the
      stored WebSocket messages are that stream with elements left out, and the delivered ones are
      the first of them. */
  lemma LossyEndToEnd(capacity: uint64, cfg: P.Config, w: uint64, blank: Msg, sts: seq<Step>, stream: seq<Msg>)
    requires IsPowerOfTwo(capacity) && cfg.limit == capacity - 1
    requires Exec(capacity, cfg, Init(w, blank), sts).Some?
    requires CacheSpec.NumbersIncrease(stream)
    requires forall a :: a in Arrived(sts) && a.source == WebSocket ==> P.MsgOf(cfg, a) in stream
    ensures
      var f := Exec(capacity, cfg, Init(w, blank), sts).value;
      && 0 <= f.ring.TailCount() <= |f.ring.writes|
      && CacheSpec.Subsequence(CacheSpec.WebSocketOnly(Stored(f.ring)), stream)
      && CacheSpec.WebSocketOnly(f.delivered) <= CacheSpec.WebSocketOnly(Stored(f.ring))
  {
    var acts := RunRefines(capacity, cfg, false, w, blank, sts);
    var done, es := Done(capacity, cfg, Init(w, blank), sts), P.Events(cfg, w, acts);
    DoneInOrder(capacity, cfg, w, blank, sts);
    P.CallsAreOfArrivals(cfg, false, w, acts);
    forall i | 0 <= i < |es| && es[i].Offer? && es[i].m.source == WebSocket
      ensures es[i].m in stream
    {
      CacheSpec.OfferIsFromReplica(es, i);
      assert CacheSpec.FromReplica(es, es[i].from) == P.OffersFrom(cfg, done, es[i].from);
      var k := P.OfferedArrival(cfg, done, es[i].from, es[i].m);
      assert ArrivalsOf(done)[k] == Arrived(sts)[k];
    }
    P.EndToEndLossy(cfg, false, w, acts, stream);
  }
}
