/**
  The other direction of `Interleaved.RunRefines`: no thread is ever stuck, and every exact run of
  the atomic pipeline is a run of the two threads over the ring.
 */
module Realised {
  import opened Bits
  import opened Messages
  import opened Options
  import opened Seqs
  import opened EventLoop
  import opened Interleaved
  import P = Pipeline
  import R = Ring
  import RingProgress

  // ----- the next step of each thread -----

  ghost predicate Reachable(capacity: uint64, cfg: P.Config, f: State) {
    exists w, blank, sts :: Exec(capacity, cfg, Init(w, blank), sts) == Some(f)
  }

  lemma ReachableInv(capacity: uint64, cfg: P.Config, f: State)
    requires IsPowerOfTwo(capacity) && cfg.limit == capacity - 1 && Reachable(capacity, cfg, f)
    ensures Inv(capacity, cfg, f)
  {
    var w, blank, sts :| Exec(capacity, cfg, Init(w, blank), sts) == Some(f);
    var _ := RunRefines(capacity, cfg, false, w, blank, sts);
  }

  /** The loads of the other side's index may return each value from the last one seen to the
      newest, and no other. */
  lemma ViewsPossible(capacity: uint64, cfg: P.Config, f: State, view: nat)
    requires IsPowerOfTwo(capacity) && cfg.limit == capacity - 1 && Reachable(capacity, cfg, f)
    ensures f.incoming.Encaching? && f.ring.p.TailLoaded? ==>
      (Enabled(cfg, f, Produce(R.EnqueueTest(view))) <==> f.ring.headSeen <= view <= f.ring.HeadCount())
    ensures f.phase.Dequeuing? && f.ring.c.HeadLoaded? ==>
      (Enabled(cfg, f, Consume(R.DequeueTest(view))) <==> f.ring.tailSeen <= view <= f.ring.TailCount())
  {
    ReachableInv(capacity, cfg, f);
  }

  /** In every reachable state the consumer thread can take a step of its own, with a fresh load, unless its loop is
      empty; and between tasks `Consumer::run` can be called. */
  lemma ConsumerNext(capacity: uint64, cfg: P.Config, f: State) returns (st: Step)
    requires IsPowerOfTwo(capacity) && cfg.limit == capacity - 1 && Reachable(capacity, cfg, f)
    ensures f.phase.AtTop? ==> Enabled(cfg, f, CallRun)
    ensures f.phase.AtTop? && f.tasks == [] <==> st.CallRun?
    ensures Enabled(cfg, f, st) && Fresh(f, st)
    ensures st.CallRun? || st.BeginTask? || st.Consume? || st.PostDelivery? || st.PostPoll?
  {
    ReachableInv(capacity, cfg, f);
    match f.phase {
      case AtTop => st := if f.tasks == [] then CallRun else BeginTask;
      case Obtained(_) => st := PostDelivery;
      case Reposting => st := PostPoll;
      case Dequeuing =>
        if f.ring.c.HeadLoaded? {
          st := Consume(R.DequeueTest(f.ring.TailCount()));
        } else if f.ring.c.ItemSeen? {
          R.CopyIsExact(capacity, f.ring, Some(f.ring.HeadCount()));
          st := Consume(R.DequeueCopy(Some(f.ring.HeadCount())));
        } else {
          st := Consume(R.DequeueStore);
        }
    }
  }

  /** In every reachable state the producer thread can take a step of its own, with a fresh load: inside `encache` the
      next access to the ring, and otherwise any text can arrive. */
  lemma ProducerNext(capacity: uint64, cfg: P.Config, f: State, arrival: P.Arrival) returns (st: Step)
    requires IsPowerOfTwo(capacity) && cfg.limit == capacity - 1 && Reachable(capacity, cfg, f)
    ensures Enabled(cfg, f, st) && Fresh(f, st)
    ensures if f.incoming.Quiet? then st == Arrive(arrival) else st.Produce?
  {
    ReachableInv(capacity, cfg, f);
    st := match f.ring.p
      case ProducerIdle => Arrive(arrival)
      case TailLoaded(_, _) => Produce(R.EnqueueTest(f.ring.HeadCount()))
      case RoomSeen(_, _, _) => Produce(R.EnqueueWrite)
      case _ => Produce(R.EnqueueStore);
  }

  // ----- runs -----

  /** The run `sts`, all of whose loads are fresh, has come to `f`. */
  ghost predicate Tracks(capacity: uint64, cfg: P.Config, w: uint64, blank: Msg, sts: seq<Step>, f: State,
                         starts: nat, done: seq<P.Done>)
  {
    && Exec(capacity, cfg, Init(w, blank), sts) == Some(f) && Inv(capacity, cfg, f)
    && AllFresh(capacity, cfg, Init(w, blank), sts)
    && CallsOfRun(sts) == starts && Done(capacity, cfg, Init(w, blank), sts) == done
  }

  lemma Proceed(capacity: uint64, cfg: P.Config, w: uint64, blank: Msg, sts: seq<Step>, f: State,
                starts: nat, done: seq<P.Done>, st: Step)
    returns (more: seq<Step>, f': State)
    requires Tracks(capacity, cfg, w, blank, sts, f, starts, done)
    requires Enabled(cfg, f, st) && Fresh(f, st)
    ensures f' == Next(capacity, cfg, f, st)
    ensures Tracks(capacity, cfg, w, blank, more, f', starts + (if st.CallRun? then 1 else 0),
                   done + DoneBy(capacity, cfg, f, st))
    ensures P.Follows(cfg, true, Abs(f), Atomic(capacity, cfg, f, st), Abs(f'))
  {
    AppendParts(sts, st);
    StepRefines(capacity, cfg, true, f, st);
    more, f' := sts + [st], Next(capacity, cfg, f, st);
  }

  /** An arrival that does not get as far as the queue. */
  lemma DroppedData(cfg: P.Config, s: P.Sys, arrival: P.Arrival, room: bool)
    requires !Passes(cfg, s.cache.watermark, arrival)
    ensures P.Apply(cfg, s, P.Data(arrival, room)) == s
    ensures P.DoneBy(cfg, s, P.Data(arrival, room)) == [P.Done(arrival, false)]
  {
  }

  /** An arrival that does finds room exactly when the atomic one does. */
  lemma RoomIsKnown(cfg: P.Config, s: P.Sys, arrival: P.Arrival, room: bool)
    requires Passes(cfg, s.cache.watermark, arrival) && P.Possible(cfg, true, s, P.Data(arrival, room))
    ensures room <==> |s.cache.queue| < cfg.limit
    ensures P.DoneBy(cfg, s, P.Data(arrival, room)) == [P.Done(arrival, !room)]
  {
    var m := P.MsgOf(cfg, arrival);
    assert CacheSpec.Offer(arrival.from, m, room) in P.EventsOf(cfg, s, P.Data(arrival, room));
  }

  /** A text whose message is dropped takes one step. */
  lemma DropRealised(capacity: uint64, cfg: P.Config, w: uint64, blank: Msg, sts: seq<Step>, f: State,
                     starts: nat, done: seq<P.Done>, arrival: P.Arrival)
    returns (more: seq<Step>)
    requires Tracks(capacity, cfg, w, blank, sts, f, starts, done) && f.incoming.Quiet?
    requires !Passes(cfg, f.watermark, arrival)
    ensures Tracks(capacity, cfg, w, blank, more, f, starts, done + [P.Done(arrival, false)])
  {
    var f';
    more, f' := Proceed(capacity, cfg, w, blank, sts, f, starts, done, Arrive(arrival));
  }

  /** The step that brings a message as far as the queue. */
  lemma ArriveRealised(capacity: uint64, cfg: P.Config, w: uint64, blank: Msg, sts: seq<Step>, f: State,
                       starts: nat, done: seq<P.Done>, arrival: P.Arrival)
    returns (more: seq<Step>, f': State)
    requires Tracks(capacity, cfg, w, blank, sts, f, starts, done) && f.incoming.Quiet?
    requires Passes(cfg, f.watermark, arrival)
    ensures Tracks(capacity, cfg, w, blank, more, f', starts, done) && Abs(f') == Abs(f) && f'.phase == f.phase
    ensures f'.incoming.Encaching? && f'.incoming.arrival == arrival && f'.ring.p.TailLoaded?
  {
    assert done + [] == done;
    more, f' := Proceed(capacity, cfg, w, blank, sts, f, starts, done, Arrive(arrival));
  }

  lemma DataRealised(capacity: uint64, cfg: P.Config, w: uint64, blank: Msg, sts: seq<Step>, f: State,
                     starts: nat, done: seq<P.Done>, arrival: P.Arrival, room: bool)
    returns (more: seq<Step>, f': State)
    requires Tracks(capacity, cfg, w, blank, sts, f, starts, done) && f.incoming.Quiet? && f.phase.AtTop?
    requires P.Possible(cfg, true, Abs(f), P.Data(arrival, room))
    ensures Tracks(capacity, cfg, w, blank, more, f', starts, done + P.DoneBy(cfg, Abs(f), P.Data(arrival, room)))
    ensures f'.incoming.Quiet? && f'.phase.AtTop? && Abs(f') == P.Apply(cfg, Abs(f), P.Data(arrival, room))
  {
    if !Passes(cfg, f.watermark, arrival) {
      DroppedData(cfg, Abs(f), arrival, room);
      f' := f;
      more := DropRealised(capacity, cfg, w, blank, sts, f, starts, done, arrival);
    } else {
      RoomIsKnown(cfg, Abs(f), arrival, room);
      more, f' := ArriveRealised(capacity, cfg, w, blank, sts, f, starts, done, arrival);
      assert R.Contents(f'.ring) == Abs(f').cache.queue;
      more, f' := EncacheRealised(capacity, cfg, w, blank, more, f', starts, done);
    }
  }

  lemma EncacheRealised(capacity: uint64, cfg: P.Config, w: uint64, blank: Msg, sts: seq<Step>, f: State,
                        starts: nat, done: seq<P.Done>)
    returns (more: seq<Step>, f': State)
    requires Tracks(capacity, cfg, w, blank, sts, f, starts, done)
    requires f.incoming.Encaching? && f.ring.p.TailLoaded? && f.phase.AtTop?
    ensures
      var room, arrival := |R.Contents(f.ring)| < cfg.limit, f.incoming.arrival;
      && Tracks(capacity, cfg, w, blank, more, f', starts, done + [P.Done(arrival, !room)])
      && f'.incoming.Quiet? && f'.phase.AtTop? && Abs(f') == P.Apply(cfg, Abs(f), P.Data(arrival, room))
  {
    var test := R.EnqueueTest(f.ring.HeadCount());
    R.StepRefinesFifo(capacity, true, f.ring, test);
    more, f' := Proceed(capacity, cfg, w, blank, sts, f, starts, done, Produce(test));
    if f'.ring.p.RoomSeen? {
      assert done + [] == done;
      more, f' := Proceed(capacity, cfg, w, blank, more, f', starts, done, Produce(R.EnqueueWrite));
      R.StepRefinesFifo(capacity, true, f'.ring, R.EnqueueStore);
      more, f' := Proceed(capacity, cfg, w, blank, more, f', starts, done, Produce(R.EnqueueStore));
    }
  }

  /** A turn of an empty loop, or one that runs a delivery, does not depend on `hit`. */
  lemma HitOfPollOnly(cfg: P.Config, s: P.Sys, hit: bool, any: bool)
    requires s.loop.tasks == [] || s.loop.tasks[0].Deliver?
    ensures P.Apply(cfg, s, P.Execute(hit)) == P.Apply(cfg, s, P.Execute(any))
    ensures s.loop.tasks == [] ==> P.Apply(cfg, s, P.Execute(hit)) == s
  {
  }

  lemma HitIsKnown(cfg: P.Config, s: P.Sys, hit: bool)
    requires s.loop.tasks != [] && s.loop.tasks[0].Poll? && P.Possible(cfg, true, s, P.Execute(hit))
    ensures hit <==> s.cache.queue != []
  {
    assert CacheSpec.Take(hit) in P.EventsOf(cfg, s, P.Execute(hit));
  }

  /** A poll that has seen an item copies it. */
  lemma CopyRealised(capacity: uint64, cfg: P.Config, w: uint64, blank: Msg, sts: seq<Step>, f: State,
                     starts: nat, done: seq<P.Done>)
    returns (more: seq<Step>, f': State)
    requires Tracks(capacity, cfg, w, blank, sts, f, starts, done)
    requires f.incoming.Quiet? && f.phase.Dequeuing? && f.ring.c.ItemSeen?
    ensures Tracks(capacity, cfg, w, blank, more, f', starts, done) && Abs(f') == Abs(f)
    ensures f'.incoming.Quiet? && f'.phase.Dequeuing? && f'.ring.c.ItemCopied?
  {
    assert done + [] == done;
    var copy := R.DequeueCopy(Some(f.ring.HeadCount()));
    R.CopyIsExact(capacity, f.ring, Some(f.ring.HeadCount()));
    more, f' := Proceed(capacity, cfg, w, blank, sts, f, starts, done, Consume(copy));
  }

  /** With its item copied, a poll releases the slot. */
  lemma ReleaseRealised(capacity: uint64, cfg: P.Config, w: uint64, blank: Msg, sts: seq<Step>, f: State,
                        starts: nat, done: seq<P.Done>)
    returns (more: seq<Step>, f': State)
    requires Tracks(capacity, cfg, w, blank, sts, f, starts, done)
    requires f.incoming.Quiet? && f.phase.Dequeuing? && f.ring.c.ItemCopied?
    ensures Tracks(capacity, cfg, w, blank, more, f', starts, done) && f'.incoming.Quiet? && f'.phase.Obtained?
    ensures Abs(f') == P.Apply(cfg, Abs(f), P.Execute(true)) && Abs(f).cache.queue != []
  {
    assert done + [] == done;
    R.StepRefinesFifo(capacity, true, f.ring, R.DequeueStore);
    more, f' := Proceed(capacity, cfg, w, blank, sts, f, starts, done, Consume(R.DequeueStore));
  }

  lemma PostRealised(capacity: uint64, cfg: P.Config, w: uint64, blank: Msg, sts: seq<Step>, f: State,
                     starts: nat, done: seq<P.Done>)
    returns (more: seq<Step>, f': State)
    requires Tracks(capacity, cfg, w, blank, sts, f, starts, done)
    requires f.incoming.Quiet? && f.phase.Obtained?
    ensures Tracks(capacity, cfg, w, blank, more, f', starts, done) && f'.incoming.Quiet? && f'.phase.Reposting?
    ensures Abs(f') == Abs(f)
  {
    assert done + [] == done;
    more, f' := Proceed(capacity, cfg, w, blank, sts, f, starts, done, PostDelivery);
  }

  /** A poll that has seen an item takes it and posts its delivery. */
  lemma TakeRealised(capacity: uint64, cfg: P.Config, w: uint64, blank: Msg, sts: seq<Step>, f: State,
                     starts: nat, done: seq<P.Done>)
    returns (more: seq<Step>, f': State)
    requires Tracks(capacity, cfg, w, blank, sts, f, starts, done)
    requires f.incoming.Quiet? && f.phase.Dequeuing? && f.ring.c.ItemSeen?
    ensures Tracks(capacity, cfg, w, blank, more, f', starts, done) && f'.incoming.Quiet? && f'.phase.Reposting?
    ensures Abs(f') == P.Apply(cfg, Abs(f), P.Execute(true)) && Abs(f).cache.queue != []
  {
    more, f' := CopyRealised(capacity, cfg, w, blank, sts, f, starts, done);
    more, f' := ReleaseRealised(capacity, cfg, w, blank, more, f', starts, done);
    more, f' := PostRealised(capacity, cfg, w, blank, more, f', starts, done);
  }

  /** The poll that has begun comes to its end. */
  lemma PollRealised(capacity: uint64, cfg: P.Config, w: uint64, blank: Msg, sts: seq<Step>, f: State,
                     starts: nat, done: seq<P.Done>)
    returns (more: seq<Step>, f': State)
    requires Tracks(capacity, cfg, w, blank, sts, f, starts, done)
    requires f.incoming.Quiet? && f.phase.Dequeuing? && f.ring.c.HeadLoaded?
    ensures Tracks(capacity, cfg, w, blank, more, f', starts, done) && f'.incoming.Quiet? && f'.phase.AtTop?
    ensures Abs(f') == P.Apply(cfg, Abs(f), P.Execute(R.Contents(f.ring) != []))
  {
    var test := R.DequeueTest(f.ring.TailCount());
    assert done + [] == done;
    R.StepRefinesFifo(capacity, true, f.ring, test);
    more, f' := Proceed(capacity, cfg, w, blank, sts, f, starts, done, Consume(test));
    if f'.ring.c.ItemSeen? {
      more, f' := TakeRealised(capacity, cfg, w, blank, more, f', starts, done);
    }
    more, f' := Proceed(capacity, cfg, w, blank, more, f', starts, done, PostPoll);
  }

  lemma ExecuteRealised(capacity: uint64, cfg: P.Config, w: uint64, blank: Msg, sts: seq<Step>, f: State,
                        starts: nat, done: seq<P.Done>, hit: bool)
    returns (more: seq<Step>, f': State)
    requires Tracks(capacity, cfg, w, blank, sts, f, starts, done) && f.incoming.Quiet? && f.phase.AtTop?
    requires P.Possible(cfg, true, Abs(f), P.Execute(hit))
    ensures Tracks(capacity, cfg, w, blank, more, f', starts, done) && f'.incoming.Quiet? && f'.phase.AtTop?
    ensures Abs(f') == P.Apply(cfg, Abs(f), P.Execute(hit))
  {
    more, f' := sts, f;
    if f.tasks == [] {
      HitOfPollOnly(cfg, Abs(f), hit, false);
    } else {
      assert done + [] == done;
      more, f' := Proceed(capacity, cfg, w, blank, sts, f, starts, done, BeginTask);
      if f.tasks[0].Deliver? {
        HitOfPollOnly(cfg, Abs(f), hit, false);
      } else {
        HitIsKnown(cfg, Abs(f), hit);
        more, f' := PollRealised(capacity, cfg, w, blank, more, f', starts, done);
      }
    }
  }

  /** One atomic action, from a state in which neither thread is inside a call. */
  lemma ActionRealised(capacity: uint64, cfg: P.Config, w: uint64, blank: Msg, sts: seq<Step>, f: State,
                       starts: nat, done: seq<P.Done>, a: P.Action)
    returns (more: seq<Step>, f': State)
    requires Tracks(capacity, cfg, w, blank, sts, f, starts, done) && f.incoming.Quiet? && f.phase.AtTop?
    requires P.Possible(cfg, true, Abs(f), a)
    ensures Tracks(capacity, cfg, w, blank, more, f', starts + (if a.Start? then 1 else 0),
                   done + P.DoneBy(cfg, Abs(f), a))
    ensures f'.incoming.Quiet? && f'.phase.AtTop? && Abs(f') == P.Apply(cfg, Abs(f), a)
  {
    assert done + [] == done;
    match a {
      case Data(arrival, room) =>
        more, f' := DataRealised(capacity, cfg, w, blank, sts, f, starts, done, arrival, room);
      case Start =>
        more, f' := Proceed(capacity, cfg, w, blank, sts, f, starts, done, CallRun);
      case Execute(hit) =>
        more, f' := ExecuteRealised(capacity, cfg, w, blank, sts, f, starts, done, hit);
    }
  }

  /** Every exact run of the atomic pipeline is a run of the two threads with fresh loads: it ends in
      the same state between calls, with the same arrivals, order and answers, and the same
      number of calls of `run()`. */
  lemma {:induction false} RunRealised(capacity: uint64, cfg: P.Config, w: uint64, blank: Msg, acts: seq<P.Action>)
    returns (sts: seq<Step>, f: State)
    requires IsPowerOfTwo(capacity) && cfg.limit == capacity - 1 && P.Run(cfg, true, w, acts)
    ensures Tracks(capacity, cfg, w, blank, sts, f, P.Starts(acts), P.DoneOf(cfg, w, acts))
    ensures f.incoming.Quiet? && f.phase.AtTop? && Abs(f) == P.After(cfg, w, acts)
    decreases |acts|
  {
    if acts == [] {
      R.InitInv(capacity, blank);
      sts, f := [], Init(w, blank);
    } else {
      var init := ButLast(acts);
      sts, f := RunRealised(capacity, cfg, w, blank, init);
      sts, f := ActionRealised(capacity, cfg, w, blank, sts, f, P.Starts(init), P.DoneOf(cfg, w, init), Last(acts));
    }
  }

  /** The two descriptions agree: the states, arrivals and answers that exact atomic runs lead to are
      those that fresh fine-grained runs lead to when neither thread is inside a call. */
  lemma SameOutcomes(capacity: uint64, cfg: P.Config, w: uint64, blank: Msg, s: P.Sys, starts: nat, done: seq<P.Done>)
    requires IsPowerOfTwo(capacity) && cfg.limit == capacity - 1
    ensures (exists acts :: Reaches(cfg, true, w, acts, s, starts, done))
       <==> exists sts, f :: Tracks(capacity, cfg, w, blank, sts, f, starts, done)
                             && f.incoming.Quiet? && f.phase.AtTop? && Abs(f) == s
  {
    if acts :| Reaches(cfg, true, w, acts, s, starts, done) {
      var _, _ := RunRealised(capacity, cfg, w, blank, acts);
    }
    if sts, f :| Tracks(capacity, cfg, w, blank, sts, f, starts, done) && Abs(f) == s {
      var _ := RunRefines(capacity, cfg, true, w, blank, sts);
    }
  }
}
