/**
  What the WebSocket callback chain gets done: a handler without error is never idle, and every
  message that the sockets deliver is passed to `on_data` once the posted tasks have run.
 */
module WebSocketRuns {
  import opened Seqs
  import opened WebSocketSpec

  // ----- progress -----

  /** How the one outstanding operation of a chain without error ends. */
  lemma StageEnds(c: Chain, begins: nat, failed: bool, bytes: string)
    requires ChainInv(c, begins) && c.runs == 1 && c.failures == 0 && c.started != []
    ensures
      var op := Stage(|c.started| - 1);
      && begins == 0 && c.outstanding == multiset{op}
      && var c' := Complete(c, op, failed, bytes);
         if failed then c'.failures == 1 && c'.outstanding == multiset{}
         else c'.failures == 0 && c'.outstanding == multiset{Stage(|c.started|)}
  {
    var op := Last(c.started);
    assert op == Stage(|c.started| - 1);
    ReplaceOne(c.outstanding, op, NextOp(op));
  }

  /** After one `run()` and without an error a handler waits for its start task, which is queued, or for
      exactly one operation. That one is the next stage; it may complete, in whichever way; and
      when it completes well the stage after it is the one that is outstanding. */
  lemma NeverStuck(replicas: nat, es: seq<Event>, h: nat, failed: bool, bytes: string)
    requires h < replicas && RunsOf(es, h) == 1 && Reach(replicas, es).chains[h].failures == 0
    ensures
      var x := Reach(replicas, es);
      var c := x.chains[h];
      if c.started == [] then QueuedBegins(x.tasks, h) == 1 && c.outstanding == multiset{}
      else
        var op := Stage(|c.started| - 1);
        && QueuedBegins(x.tasks, h) == 0 && c.outstanding == multiset{op}
        && Enabled(x, Completed(h, op, failed, bytes))
        && var after := Apply(x, Completed(h, op, failed, bytes)).chains[h];
           if failed then after.failures == 1 && after.outstanding == multiset{}
           else after.failures == 0 && after.outstanding == multiset{Stage(|c.started|)}
  {
    ReceivedAreReads(replicas, es, h);
    ReachInv(replicas, es);
    var x := Reach(replicas, es);
    assert HandlerInv(x, h);
    if x.chains[h].started != [] {
      StageEnds(x.chains[h], QueuedBegins(x.tasks, h), failed, bytes);
    }
  }

  /** Any posted task can run. */
  lemma TasksCanRun(replicas: nat, es: seq<Event>)
    ensures Enabled(Reach(replicas, es), RunTask) <==> Reach(replicas, es).tasks != []
  {
    ReachInv(replicas, es);
  }

  /** After the events `es` the io_context runs `n` tasks. */
  function Turns(es: seq<Event>, n: nat): seq<Event> {
    if n == 0 then es else Turns(es, n - 1) + [RunTask]
  }

  lemma {:induction false} TurnsRunTasks(replicas: nat, es: seq<Event>, n: nat, h: nat)
    requires n <= |Reach(replicas, es).tasks| && h < replicas
    ensures Reach(replicas, Turns(es, n)).tasks == Reach(replicas, es).tasks[n..]
    ensures Reach(replicas, Turns(es, n)).chains[h].posted == Reach(replicas, es).chains[h].posted
    decreases n
  {
    if n > 0 {
      TurnsRunTasks(replicas, es, n - 1, h);
      TasksCanRun(replicas, Turns(es, n - 1));
      ReachOneMore(replicas, Turns(es, n - 1), RunTask);
    }
  }

  /** Once the posted tasks have run, `on_data` of every handler has been called with exactly the
      messages it read, in read order. */
  lemma AllReadsAreOffered(replicas: nat, es: seq<Event>, h: nat)
    requires h < replicas && RunsOf(es, h) <= 1
    ensures
      var settled := Reach(replicas, Turns(es, |Reach(replicas, es).tasks|));
      settled.tasks == [] && OfferedBy(settled.offered, h) == ReadsOf(replicas, es, h)
  {
    var n := |Reach(replicas, es).tasks|;
    var settled := Reach(replicas, Turns(es, n));
    TurnsRunTasks(replicas, es, n, h);
    ReceivedAreReads(replicas, es, h);
    ReachInv(replicas, es);
    ReachInv(replicas, Turns(es, n));
    assert HandlerInv(Reach(replicas, es), h) && HandlerInv(settled, h);
    assert OfferedBy(settled.offered, h) + [] == OfferedBy(settled.offered, h);
  }

  // ----- a run for every stream -----

  /** A handler is run and its first `n` operations succeed. */
  function Connecting(h: nat, n: nat): seq<Event> {
    if n == 0 then [RunHandler(h), RunTask] else Connecting(h, n - 1) + [Completed(h, Stage(n - 1), false, "")]
  }

  /** After the events `es` the reads of a handler bring `texts`. */
  function Reading(es: seq<Event>, h: nat, texts: seq<string>): seq<Event> {
    if texts == [] then es else Reading(es, h, ButLast(texts)) + [Completed(h, Read, false, Last(texts))]
  }

  /** The one outstanding operation ends well. */
  lemma CompleteOne(replicas: nat, es: seq<Event>, h: nat, op: Op, bytes: string)
    requires h < replicas && Reach(replicas, es).chains[h].outstanding == multiset{op}
    ensures
      var e := Completed(h, op, false, bytes);
      var x, x' := Reach(replicas, es), Reach(replicas, es + [e]);
      && x'.chains[h].outstanding == multiset{NextOp(op)}
      && |x'.tasks| == |x.tasks| + (if op == Read then 1 else 0)
      && ReadsOf(replicas, es + [e], h) == ReadsOf(replicas, es, h) + (if op == Read then [bytes] else [])
      && RunsOf(es + [e], h) == RunsOf(es, h)
  {
    var e := Completed(h, op, false, bytes);
    AppendParts(es, e);
    ReplaceOne(Reach(replicas, es).chains[h].outstanding, op, NextOp(op));
    assert ReadsOf(replicas, es, h) + [] == ReadsOf(replicas, es, h);
  }

  /** After one run that has read `texts`, all of them posted, the chain waits for `op`. */
  ghost predicate Waiting(replicas: nat, es: seq<Event>, h: nat, op: Op, texts: seq<string>)
    requires h < replicas
  {
    && |Reach(replicas, es).tasks| == |texts| && Reach(replicas, es).chains[h].outstanding == multiset{op}
    && ReadsOf(replicas, es, h) == texts && RunsOf(es, h) == 1
  }

  lemma Begun(replicas: nat, h: nat)
    requires h < replicas
    ensures Waiting(replicas, [RunHandler(h), RunTask], h, Resolve, [])
  {
    var ran := [RunHandler(h)];
    assert [] + [RunHandler(h)] == ran && ran + [RunTask] == [RunHandler(h), RunTask];
    RunTogether(replicas, h);
    ReachOneMore(replicas, ran, RunTask);
    OneMoreEvent(replicas, ran, RunTask, h);
  }

  lemma RunTogether(replicas: nat, h: nat)
    requires h < replicas
    ensures Reach(replicas, [RunHandler(h)]).tasks == [Begin(h)]
    ensures Reach(replicas, [RunHandler(h)]).chains[h].outstanding == multiset{}
    ensures RunsOf([RunHandler(h)], h) == 1 && ReadsOf(replicas, [RunHandler(h)], h) == []
  {
    assert [] + [RunHandler(h)] == [RunHandler(h)];
    ReachOneMore(replicas, [], RunHandler(h));
    OneMoreEvent(replicas, [], RunHandler(h), h);
  }

  lemma StageSucceeds(replicas: nat, es: seq<Event>, h: nat, op: Op, texts: seq<string>, bytes: string)
    requires h < replicas && Waiting(replicas, es, h, op, texts)
    ensures Waiting(replicas, es + [Completed(h, op, false, bytes)], h, NextOp(op),
                    if op == Read then texts + [bytes] else texts)
  {
    CompleteOne(replicas, es, h, op, bytes);
    assert texts + [] == texts;
  }

  lemma NextStage(n: nat)
    ensures NextOp(Stage(n)) == Stage(n + 1)
  {
  }

  lemma {:induction false} Connected(replicas: nat, h: nat, n: nat)
    requires h < replicas && n <= 4
    ensures Waiting(replicas, Connecting(h, n), h, Stage(n), [])
    decreases n
  {
    if n == 0 {
      Begun(replicas, h);
    } else {
      Connected(replicas, h, n - 1);
      NextStage(n - 1);
      StageSucceeds(replicas, Connecting(h, n - 1), h, Stage(n - 1), [], "");
    }
  }

  lemma {:induction false} ReadsSucceed(replicas: nat, es: seq<Event>, h: nat, texts: seq<string>)
    requires h < replicas && Waiting(replicas, es, h, Read, [])
    ensures Waiting(replicas, Reading(es, h, texts), h, Read, texts)
    decreases |texts|
  {
    if texts != [] {
      ReadsSucceed(replicas, es, h, ButLast(texts));
      StageSucceeds(replicas, Reading(es, h, ButLast(texts)), h, Read, ButLast(texts), Last(texts));
      assert ButLast(texts) + [Last(texts)] == texts;
    }
  }

  /** For every stream of texts there is a run, of any of the handlers, in which `on_data` is called with
      exactly these texts. */
  lemma EveryStreamIsOffered(replicas: nat, h: nat, texts: seq<string>)
    requires h < replicas
    ensures
      var es := Turns(Reading(Connecting(h, 4), h, texts), |texts|);
      OfferedBy(Reach(replicas, es).offered, h) == texts
  {
    Connected(replicas, h, 4);
    ReadsSucceed(replicas, Connecting(h, 4), h, texts);
    AllReadsAreOffered(replicas, Reading(Connecting(h, 4), h, texts), h);
  }
}
