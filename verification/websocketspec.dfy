/**
  The WebSocket callback chain (src/websocket.cpp) on values, for any number of replicas that
  share one io_context: which operation follows which, what is posted, and in what order the
  posted data reach `on_data`.
 */
module WebSocketSpec {
  import opened Seqs

  datatype Op = Resolve | Connect | TlsHandshake | WsHandshake | Read

  /** Tasks posted on the io_context by handler `h`. */
  datatype HandlerTask = Begin(h: nat) | Data(h: nat, text: string)

  /** One handler. `outstanding` are the operations started and not completed; `started`,
      `received`, `posted`, `failures` and `runs` record what happened. */
  datatype Chain = Chain(
    outstanding: multiset<Op>,
    buffer: string,
    started: seq<Op>,
    received: seq<string>,
    posted: seq<string>,
    failures: nat,
    runs: nat
  )

  const IDLE: Chain := Chain(multiset{}, "", [], [], [], 0, 0)

  function StartOp(c: Chain, op: Op): Chain {
    c.(outstanding := c.outstanding + multiset{op}, started := c.started + [op])
  }

  /** The operation that a successful completion starts. */
  function NextOp(op: Op): Op {
    match op
    case Resolve => Connect
    case Connect => TlsHandshake
    case TlsHandshake => WsHandshake
    case WsHandshake => Read
    case Read => Read
  }

  /** The completion handler of `op`, with its error flag and, for a read, the bytes it added
      to the buffer. */
  function Complete(c: Chain, op: Op, failed: bool, bytes: string): Chain {
    var done := c.(outstanding := c.outstanding - multiset{op});
    var filled := if op == Read then done.(buffer := c.buffer + bytes) else done;
    if failed then filled.(failures := c.failures + 1)
    else if op == Read then
      StartOp(filled.(buffer := "", received := c.received + [bytes], posted := c.posted + [filled.buffer]), Read)
    else StartOp(filled, NextOp(op))
  }

  /** The data that a completion posts, if any. */
  function Posts(c: Chain, h: nat, op: Op, failed: bool, bytes: string): seq<HandlerTask> {
    if op == Read && !failed then [Data(h, c.buffer + bytes)] else []
  }

  datatype Offered = Offered(h: nat, text: string)

  /** The handlers, the tasks of their io_context, and the calls of `on_data` made so far. */
  datatype Host = Host(chains: seq<Chain>, tasks: seq<HandlerTask>, offered: seq<Offered>)

  datatype Event =
    | RunHandler(h: nat)                                             // run()
    | Completed(h: nat, op: Op, failed: bool, bytes: string)         // a started operation ends
    | RunTask                                                        // the io_context runs its front task

  function InitHost(replicas: nat): Host {
    Host(seq(replicas, _ => IDLE), [], [])
  }

  predicate Enabled(x: Host, e: Event) {
    match e
    case RunHandler(h) => h < |x.chains|
    case Completed(h, op, _, _) => h < |x.chains| && op in x.chains[h].outstanding
    case RunTask => x.tasks != [] && x.tasks[0].h < |x.chains|
  }

  function Apply(x: Host, e: Event): Host
    requires Enabled(x, e)
  {
    match e
    case RunHandler(h) =>
      x.(chains := x.chains[h := x.chains[h].(runs := x.chains[h].runs + 1)], tasks := x.tasks + [Begin(h)])
    case Completed(h, op, failed, bytes) =>
      x.(chains := x.chains[h := Complete(x.chains[h], op, failed, bytes)],
         tasks := x.tasks + Posts(x.chains[h], h, op, failed, bytes))
    case RunTask =>
      match x.tasks[0]
      case Begin(h) => x.(chains := x.chains[h := StartOp(x.chains[h], Resolve)], tasks := x.tasks[1..])
      case Data(h, text) => x.(tasks := x.tasks[1..], offered := x.offered + [Offered(h, text)])
  }

  /** The host after the events; events that cannot happen are skipped. */
  function Reach(replicas: nat, es: seq<Event>): (x: Host)
    ensures |x.chains| == replicas
  {
    if es == [] then InitHost(replicas)
    else
      var x := Reach(replicas, ButLast(es));
      if Enabled(x, Last(es)) then Apply(x, Last(es)) else x
  }

  lemma ReachOneMore(replicas: nat, es: seq<Event>, e: Event)
    ensures
      var x := Reach(replicas, es);
      Reach(replicas, es + [e]) == if Enabled(x, e) then Apply(x, e) else x
  {
    AppendParts(es, e);
  }

  // ----- what belongs to one handler -----

  /** The data that handler `h` has in the task queue. */
  function QueuedData(tasks: seq<HandlerTask>, h: nat): seq<string> {
    if tasks == [] then []
    else if Last(tasks).Data? && Last(tasks).h == h then QueuedData(ButLast(tasks), h) + [Last(tasks).text]
    else QueuedData(ButLast(tasks), h)
  }

  function QueuedBegins(tasks: seq<HandlerTask>, h: nat): nat {
    if tasks == [] then 0
    else QueuedBegins(ButLast(tasks), h) + (if Last(tasks) == Begin(h) then 1 else 0)
  }

  /** The texts with which `on_data` of handler `h` was called. */
  function OfferedBy(offered: seq<Offered>, h: nat): seq<string> {
    if offered == [] then []
    else if Last(offered).h == h then OfferedBy(ButLast(offered), h) + [Last(offered).text]
    else OfferedBy(ButLast(offered), h)
  }

  lemma {:induction false} QueuedConcat(a: seq<HandlerTask>, b: seq<HandlerTask>, h: nat)
    ensures QueuedData(a + b, h) == QueuedData(a, h) + QueuedData(b, h)
    ensures QueuedBegins(a + b, h) == QueuedBegins(a, h) + QueuedBegins(b, h)
    decreases |b|
  {
    if b == [] {
      assert a + b == a;
    } else {
      ConcatParts(a, b);
      QueuedConcat(a, ButLast(b), h);
      if Last(b).Data? {
        Regroup(QueuedData(a, h), QueuedData(ButLast(b), h), [Last(b).text]);
      }
    }
  }

  lemma QueuedOne(t: HandlerTask, h: nat)
    ensures QueuedData([t], h) == if t.Data? && t.h == h then [t.text] else []
    ensures QueuedBegins([t], h) == if t == Begin(h) then 1 else 0
  {
    assert ButLast([t]) == [];
  }

  lemma QueuedFront(tasks: seq<HandlerTask>, h: nat)
    requires tasks != []
    ensures QueuedData(tasks, h)
         == if tasks[0].Data? && tasks[0].h == h then [tasks[0].text] + QueuedData(tasks[1..], h)
            else QueuedData(tasks[1..], h)
    ensures QueuedBegins(tasks, h) == (if tasks[0] == Begin(h) then 1 else 0) + QueuedBegins(tasks[1..], h)
  {
    assert tasks == [tasks[0]] + tasks[1..];
    QueuedConcat([tasks[0]], tasks[1..], h);
    QueuedOne(tasks[0], h);
    assert [] + QueuedData(tasks[1..], h) == QueuedData(tasks[1..], h);
  }

  // ----- the chain -----

  /** The i-th operation of a chain that meets no error. */
  function Stage(i: nat): Op {
    if i == 0 then Resolve else if i == 1 then Connect else if i == 2 then TlsHandshake
    else if i == 3 then WsHandshake else Read
  }

  ghost predicate FollowsStages(started: seq<Op>) {
    forall i :: 0 <= i < |started| ==> started[i] == Stage(i)
  }

  /** What holds of one handler, given how many of its start tasks are queued. Each `run()`
      accounts for one start task, one outstanding operation or one failure. With at most one
      `run()` the operations follow the stages, reads come after the four connection stages
      have succeeded, and each read's message is posted as it came. */
  ghost predicate ChainInv(c: Chain, begins: nat) {
    && |c.outstanding| + begins + c.failures == c.runs
    && (c.runs <= 1 ==>
          && FollowsStages(c.started)
          && (c.started == [] <==> |c.outstanding| + c.failures == 0)
          && (|c.outstanding| > 0 ==> c.started != [] && c.outstanding == multiset{Last(c.started)})
          && |c.received| == (if |c.started| <= 5 then 0 else |c.started| - 5)
          && c.posted == c.received
          && (c.failures == 0 ==> c.buffer == ""))
  }

  lemma ReplaceOne(m: multiset<Op>, op: Op, next: Op)
    requires op in m
    ensures |m - multiset{op}| == |m| - 1 && |m - multiset{op} + multiset{next}| == |m|
    ensures m == multiset{op} ==> m - multiset{op} == multiset{} && m - multiset{op} + multiset{next} == multiset{next}
  {
  }

  /** What a completion makes of a chain in which `op` is the one outstanding operation. */
  lemma CompleteOneRun(c: Chain, op: Op, failed: bool, bytes: string)
    requires ChainInv(c, 0) && c.runs == 1 && op in c.outstanding
    ensures ChainInv(Complete(c, op, failed, bytes), 0)
  {
    ReplaceOne(c.outstanding, op, NextOp(op));
    assert c.outstanding == multiset{Last(c.started)} && c.failures == 0;
    assert op == Stage(|c.started| - 1);
    assert c.buffer + bytes == bytes;
  }

  lemma CompleteKeepsInv(c: Chain, begins: nat, op: Op, failed: bool, bytes: string)
    requires ChainInv(c, begins) && op in c.outstanding
    ensures ChainInv(Complete(c, op, failed, bytes), begins)
  {
    ReplaceOne(c.outstanding, op, NextOp(op));
    if c.runs <= 1 {
      CompleteOneRun(c, op, failed, bytes);
    }
  }

  lemma BeginKeepsInv(c: Chain, begins: nat)
    requires ChainInv(c, begins) && begins > 0
    ensures ChainInv(StartOp(c, Resolve), begins - 1)
  {
    if c.runs <= 1 {
      assert c.outstanding == multiset{};
    }
  }

  /** Every task is of an existing handler; what was offered and what is queued is, for every
      handler, what its chain posted, in order. */
  ghost predicate HostInv(x: Host) {
    && (forall i :: 0 <= i < |x.tasks| ==> x.tasks[i].h < |x.chains|)
    && (forall i :: 0 <= i < |x.offered| ==> x.offered[i].h < |x.chains|)
    && forall h: nat :: h < |x.chains| ==> HandlerInv(x, h)
  }

  ghost predicate HandlerInv(x: Host, h: nat)
    requires h < |x.chains|
  {
    && ChainInv(x.chains[h], QueuedBegins(x.tasks, h))
    && InLine(x, h)
  }

  ghost predicate InLine(x: Host, h: nat)
    requires h < |x.chains|
  {
    OfferedBy(x.offered, h) + QueuedData(x.tasks, h) == x.chains[h].posted
  }

  lemma RunKeepsHandler(x: Host, e: Event, h: nat)
    requires e.RunHandler? && Enabled(x, e) && h < |x.chains| && HandlerInv(x, h)
    ensures HandlerInv(Apply(x, e), h)
  {
    QueuedConcat(x.tasks, [Begin(e.h)], h);
    QueuedOne(Begin(e.h), h);
    assert QueuedData(x.tasks, h) + [] == QueuedData(x.tasks, h);
  }

  lemma PostsQueued(tasks: seq<HandlerTask>, c: Chain, g: nat, op: Op, failed: bool, bytes: string, h: nat)
    ensures
      var posts := Posts(c, g, op, failed, bytes);
      && QueuedBegins(tasks + posts, h) == QueuedBegins(tasks, h)
      && QueuedData(tasks + posts, h)
         == QueuedData(tasks, h) + (if g == h && op == Read && !failed then [c.buffer + bytes] else [])
  {
    var posts := Posts(c, g, op, failed, bytes);
    QueuedConcat(tasks, posts, h);
    if posts != [] {
      assert posts == [posts[0]];
      QueuedOne(posts[0], h);
    }
  }

  lemma CompletionKeepsHandler(x: Host, e: Event, h: nat)
    requires e.Completed? && Enabled(x, e) && h < |x.chains| && HandlerInv(x, h)
    ensures HandlerInv(Apply(x, e), h)
  {
    PostsQueued(x.tasks, x.chains[e.h], e.h, e.op, e.failed, e.bytes, h);
    CompletionKeepsLine(x, e, h);
    if h == e.h {
      CompleteKeepsInv(x.chains[h], QueuedBegins(x.tasks, h), e.op, e.failed, e.bytes);
    }
  }

  lemma CompletionKeepsLine(x: Host, e: Event, h: nat)
    requires e.Completed? && Enabled(x, e) && h < |x.chains| && InLine(x, h)
    ensures InLine(Apply(x, e), h)
  {
    PostsQueued(x.tasks, x.chains[e.h], e.h, e.op, e.failed, e.bytes, h);
    var o, q := OfferedBy(x.offered, h), QueuedData(x.tasks, h);
    if h == e.h && e.op == Read && !e.failed {
      Regroup(o, q, [x.chains[h].buffer + e.bytes]);
    } else {
      assert q + [] == q;
    }
  }

  lemma TaskKeepsLine(x: Host, h: nat)
    requires Enabled(x, RunTask) && h < |x.chains| && InLine(x, h)
    ensures InLine(Apply(x, RunTask), h)
  {
    var task := x.tasks[0];
    QueuedFront(x.tasks, h);
    if task.Data? {
      AppendParts(x.offered, Offered(task.h, task.text));
      Regroup(OfferedBy(x.offered, h), [task.text], QueuedData(x.tasks[1..], h));
    }
  }

  lemma TaskKeepsHandler(x: Host, h: nat)
    requires Enabled(x, RunTask) && h < |x.chains| && HandlerInv(x, h)
    ensures HandlerInv(Apply(x, RunTask), h)
  {
    QueuedFront(x.tasks, h);
    TaskKeepsLine(x, h);
    if x.tasks[0] == Begin(h) {
      BeginKeepsInv(x.chains[h], QueuedBegins(x.tasks, h));
    }
  }

  lemma StepKeepsInv(x: Host, e: Event)
    requires HostInv(x) && Enabled(x, e)
    ensures HostInv(Apply(x, e))
  {
    forall h: nat | h < |x.chains|
      ensures HandlerInv(Apply(x, e), h)
    {
      assert HandlerInv(x, h);
      match e {
        case RunHandler(_) => RunKeepsHandler(x, e, h);
        case Completed(_, _, _, _) => CompletionKeepsHandler(x, e, h);
        case RunTask => TaskKeepsHandler(x, h);
      }
    }
  }

  lemma {:induction false} ReachInv(replicas: nat, es: seq<Event>)
    ensures HostInv(Reach(replicas, es))
    decreases |es|
  {
    if es != [] {
      ReachInv(replicas, ButLast(es));
      if Enabled(Reach(replicas, ButLast(es)), Last(es)) {
        StepKeepsInv(Reach(replicas, ButLast(es)), Last(es));
      }
    }
  }

  // ----- what the events say, without the handlers -----

  /** The bytes of the reads of handler `h` that end well. */
  function ReadsOf(replicas: nat, es: seq<Event>, h: nat): seq<string> {
    if es == [] then []
    else
      var before := ReadsOf(replicas, ButLast(es), h);
      match Last(es)
      case Completed(g, op, failed, bytes) =>
        if g == h < replicas && op == Read && !failed && Read in Reach(replicas, ButLast(es)).chains[h].outstanding then
          before + [bytes]
        else before
      case _ => before
  }

  /** How often `run()` of handler `h` was called. */
  function RunsOf(es: seq<Event>, h: nat): nat {
    if es == [] then 0 else RunsOf(ButLast(es), h) + (if Last(es) == RunHandler(h) then 1 else 0)
  }

  lemma OneMoreEvent(replicas: nat, es: seq<Event>, e: Event, h: nat)
    ensures RunsOf(es + [e], h) == RunsOf(es, h) + (if e == RunHandler(h) then 1 else 0)
    ensures !e.Completed? ==> ReadsOf(replicas, es + [e], h) == ReadsOf(replicas, es, h)
  {
    AppendParts(es, e);
  }

  lemma ReadIsReceived(x: Host, e: Event, h: nat)
    requires Enabled(x, e) && h < |x.chains|
    ensures Apply(x, e).chains[h].received
         == x.chains[h].received + (if e.Completed? && e.h == h && e.op == Read && !e.failed then [e.bytes] else [])
    ensures Apply(x, e).chains[h].runs == x.chains[h].runs + (if e == RunHandler(h) then 1 else 0)
  {
  }

  /** A handler receives what its reads deliver, and counts its runs. */
  lemma {:induction false} ReceivedAreReads(replicas: nat, es: seq<Event>, h: nat)
    requires h < replicas
    ensures Reach(replicas, es).chains[h].received == ReadsOf(replicas, es, h)
    ensures Reach(replicas, es).chains[h].runs == RunsOf(es, h)
    decreases |es|
  {
    if es != [] {
      ReceivedAreReads(replicas, ButLast(es), h);
      if Enabled(Reach(replicas, ButLast(es)), Last(es)) {
        ReadIsReceived(Reach(replicas, ButLast(es)), Last(es), h);
      }
    }
  }

  // ----- results over every sequence of completions and errors -----

  /** One handler after one `run()`, whatever completes with whatever error: at most one
      operation is outstanding; the operations started are the first stages in order; data have
      been posted only when all four connection stages have succeeded, namely the bytes of each
      read that ended well, in order; and after an error nothing is outstanding or waiting to start. */
  lemma ChainAfterOneRun(replicas: nat, es: seq<Event>, h: nat)
    requires h < replicas && RunsOf(es, h) == 1
    ensures
      var x := Reach(replicas, es);
      var c := x.chains[h];
      && |c.outstanding| + QueuedBegins(x.tasks, h) + c.failures == 1
      && FollowsStages(c.started)
      && c.posted == ReadsOf(replicas, es, h)
      && (c.posted != [] ==> |c.started| == 5 + |c.posted|)
      && (c.failures > 0 ==> c.outstanding == multiset{} && QueuedBegins(x.tasks, h) == 0)
  {
    ReceivedAreReads(replicas, es, h);
    ReachInv(replicas, es);
    assert HandlerInv(Reach(replicas, es), h);
  }

  /** A failed handler has nothing that could complete or begin. */
  lemma FailedStays(x: Host, e: Event, h: nat)
    requires h < |x.chains| && HandlerInv(x, h) && x.chains[h].runs == 1 && x.chains[h].failures > 0
    requires Enabled(x, e) && e != RunHandler(h)
    ensures Apply(x, e).chains[h] == x.chains[h]
  {
    if e.RunTask? {
      QueuedFront(x.tasks, h);
    }
  }

  /** After an error of a handler that is run once, no event changes the handler any more. */
  lemma NothingStartsAfterError(replicas: nat, es: seq<Event>, e: Event, h: nat)
    requires h < replicas && RunsOf(es, h) == 1 && Reach(replicas, es).chains[h].failures > 0
    requires e != RunHandler(h)
    ensures Reach(replicas, es + [e]).chains[h] == Reach(replicas, es).chains[h]
  {
    ReceivedAreReads(replicas, es, h);
    ReachInv(replicas, es);
    var x := Reach(replicas, es);
    assert HandlerInv(x, h);
    ReachOneMore(replicas, es, e);
    if Enabled(x, e) {
      FailedStays(x, e, h);
    }
  }

  /** Any number of replicas on one io_context: what each has passed to `on_data` is a prefix of
      the messages it read, in read order; the rest is queued. */
  lemma OffersArePrefixOfReads(replicas: nat, es: seq<Event>, h: nat)
    requires h < replicas && RunsOf(es, h) <= 1
    ensures
      var x := Reach(replicas, es);
      && OfferedBy(x.offered, h) + QueuedData(x.tasks, h) == ReadsOf(replicas, es, h)
      && OfferedBy(x.offered, h) <= ReadsOf(replicas, es, h)
  {
    ReceivedAreReads(replicas, es, h);
    ReachInv(replicas, es);
    assert HandlerInv(Reach(replicas, es), h);
  }
}
