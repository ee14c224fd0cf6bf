/**
  The consumer's event loop (src/consumer.cpp) on values: tasks run one at a time from the
  front, and posting appends at the end.
 */
module EventLoop {
  import opened Messages
  import opened Seqs

  /** `Poll` is the task that `Consumer::run` posts; `Deliver` is the one that a poll posts. */
  datatype Task = Poll | Deliver(m: Msg)

  /** What `onData` does: a callback, the "Unknown message type" output, or the dereference
      of a null pointer that a failed cast would lead to. */
  datatype Call =
    | OnOrderBookWS(book: OrderBook)
    | OnOrderBookREST(book: OrderBook)
    | UnknownType
    | NullBook

  /** Which callbacks are bound. */
  datatype Bindings = Bindings(ws: bool, rest: bool)

  datatype Loop = Loop(tasks: seq<Task>, delivered: seq<Msg>, calls: seq<Call>)

  function OnData(b: Bindings, m: Msg): seq<Call> {
    if m.typ != OrderBookType then [UnknownType]
    else if m.source == WebSocket && b.ws then
      [if m.data.Some? then OnOrderBookWS(m.data.value) else NullBook]
    else if m.source == RestApi && b.rest then
      [if m.data.Some? then OnOrderBookREST(m.data.value) else NullBook]
    else []
  }

  /** One turn of the loop. A poll takes `q`'s first message when `hit`, and posts its
      delivery, and then itself. */
  function Turn(b: Bindings, l: Loop, q: seq<Msg>, hit: bool): (Loop, seq<Msg>) {
    if l.tasks == [] then (l, q)
    else
      var rest := l.tasks[1..];
      match l.tasks[0]
      case Deliver(m) => (Loop(rest, l.delivered + [m], l.calls + OnData(b, m)), q)
      case Poll =>
        if hit && q != [] then (l.(tasks := rest + [Deliver(q[0]), Poll]), q[1..])
        else (l.(tasks := rest + [Poll]), q)
  }

  /** The messages whose delivery is posted but not yet run, in loop order. */
  function Pending(tasks: seq<Task>): seq<Msg> {
    if tasks == [] then []
    else if Last(tasks).Deliver? then Pending(ButLast(tasks)) + [Last(tasks).m]
    else Pending(ButLast(tasks))
  }

  function Polls(tasks: seq<Task>): nat {
    if tasks == [] then 0
    else Polls(ButLast(tasks)) + (if Last(tasks).Poll? then 1 else 0)
  }

  /** Between turns every posted delivery is directly followed by the poll that posted it. */
  ghost predicate Paired(tasks: seq<Task>) {
    forall i :: 0 <= i < |tasks| && tasks[i].Deliver? ==> i + 1 < |tasks| && tasks[i + 1].Poll?
  }

  /** The callbacks made by delivering `ms` in order. */
  function CallsOf(b: Bindings, ms: seq<Msg>): seq<Call> {
    if ms == [] then [] else CallsOf(b, ButLast(ms)) + OnData(b, Last(ms))
  }

  lemma {:induction false} PendingOfConcat(a: seq<Task>, b: seq<Task>)
    ensures Pending(a + b) == Pending(a) + Pending(b)
    ensures Polls(a + b) == Polls(a) + Polls(b)
    decreases |b|
  {
    if b == [] {
      assert a + b == a;
    } else {
      ConcatParts(a, b);
      PendingOfConcat(a, ButLast(b));
      if Last(b).Deliver? {
        Regroup(Pending(a), Pending(ButLast(b)), [Last(b).m]);
      }
    }
  }

  lemma PendingOfOne(t: Task)
    ensures Pending([t]) == if t.Deliver? then [t.m] else []
    ensures Polls([t]) == if t.Poll? then 1 else 0
  {
    assert ButLast([t]) == [];
  }

  lemma PendingOfFront(tasks: seq<Task>)
    requires tasks != []
    ensures Pending(tasks) == (if tasks[0].Deliver? then [tasks[0].m] else []) + Pending(tasks[1..])
    ensures Polls(tasks) == (if tasks[0].Poll? then 1 else 0) + Polls(tasks[1..])
  {
    assert tasks == [tasks[0]] + tasks[1..];
    PendingOfConcat([tasks[0]], tasks[1..]);
    PendingOfOne(tasks[0]);
  }

  /** Every task is a poll or a pending delivery. */
  lemma {:induction false} TasksCounted(tasks: seq<Task>)
    ensures |tasks| == Polls(tasks) + |Pending(tasks)|
  {
    if tasks != [] {
      TasksCounted(ButLast(tasks));
    }
  }

  /** Paired deliveries are no more than the polls. */
  lemma {:induction false} PairedCounts(tasks: seq<Task>)
    requires Paired(tasks)
    ensures |Pending(tasks)| <= Polls(tasks)
    decreases |tasks|
  {
    if tasks != [] {
      var init := ButLast(tasks);
      assert Last(tasks).Poll?;
      if init != [] && Last(init).Deliver? {
        PairedCounts(ButLast(init));
      } else {
        PairedCounts(init);
      }
    }
  }

  lemma PollDelivers(q: seq<Msg>)
    requires q != []
    ensures Pending([Deliver(q[0]), Poll]) == [q[0]] && Polls([Deliver(q[0]), Poll]) == 1
  {
    PendingOfFront([Deliver(q[0]), Poll]);
    assert [Deliver(q[0]), Poll][1..] == [Poll];
    PendingOfOne(Poll);
  }

  lemma PairedParts(tasks: seq<Task>, posted: seq<Task>)
    requires tasks != [] && Paired(tasks) && Paired(posted)
    ensures Paired(tasks[1..] + posted)
  {
    var rest := tasks[1..];
    assert forall i :: 0 <= i < |rest| ==> rest[i] == tasks[i + 1];
    assert Paired(rest);
    assert forall i :: 0 <= i < |rest + posted| && i >= |rest| ==> (rest + posted)[i] == posted[i - |rest|];
  }

  /** The polls that a turn leaves, and the line of messages. */
  ghost predicate LineKept(l: Loop, q: seq<Msg>, l': Loop, q': seq<Msg>) {
    && Polls(l'.tasks) == Polls(l.tasks)
    && l'.delivered + Pending(l'.tasks) + q' == l.delivered + Pending(l.tasks) + q
  }

  /** A poll that obtains a message moves it from the queue to the end of the pending ones. */
  lemma HitKeepsLine(l: Loop, q: seq<Msg>)
    requires l.tasks != [] && l.tasks[0] == Poll && q != []
    ensures LineKept(l, q, l.(tasks := l.tasks[1..] + [Deliver(q[0]), Poll]), q[1..])
  {
    var rest := l.tasks[1..];
    PendingOfFront(l.tasks);
    PollDelivers(q);
    PendingOfConcat(rest, [Deliver(q[0]), Poll]);
    Regroup(l.delivered, Pending(rest), [q[0]]);
    Regroup(l.delivered + Pending(rest), [q[0]], q[1..]);
    assert [q[0]] + q[1..] == q;
  }

  /** One turn keeps the pairing, the number of polls, and the line of messages formed by the
      delivered, the pending and the queued ones. */
  lemma TurnKeepsLine(b: Bindings, l: Loop, q: seq<Msg>, hit: bool)
    requires Paired(l.tasks)
    ensures
      var (l', q') := Turn(b, l, q, hit);
      && Paired(l'.tasks)
      && Polls(l'.tasks) == Polls(l.tasks)
      && l'.delivered + Pending(l'.tasks) + q' == l.delivered + Pending(l.tasks) + q
  {
    if l.tasks != [] {
      var rest := l.tasks[1..];
      if l.tasks[0].Poll? && hit && q != [] {
        PairedParts(l.tasks, [Deliver(q[0]), Poll]);
        HitKeepsLine(l, q);
      } else if l.tasks[0].Poll? {
        PairedParts(l.tasks, [Poll]);
        PendingOfFront(l.tasks);
        PendingOfOne(Poll);
        PendingOfConcat(rest, [Poll]);
      } else {
        PairedParts(l.tasks, []);
        PendingOfFront(l.tasks);
        Regroup(l.delivered, [l.tasks[0].m], Pending(rest));
        assert rest + [] == rest;
      }
    }
  }

  /** With one call of `run()` the loop is always `[poll]` or `[deliver, poll]`. */
  lemma ShapeOfOneRun(tasks: seq<Task>)
    requires Paired(tasks) && Polls(tasks) == 1
    ensures tasks == [Poll] || (Pending(tasks) != [] && tasks == [Deliver(Pending(tasks)[0]), Poll])
  {
    PairedCounts(tasks);
    TasksCounted(tasks);
    assert tasks[|tasks| - 1].Poll?;
    PendingOfFront(tasks);
    if |tasks| == 2 {
      PendingOfOne(tasks[1]);
      assert tasks[1..] == [tasks[1]];
    }
  }
}
