/**
  What one subscription gets done: once the producers are quiet the consumer's loop delivers all
  that was accepted, and every stream of texts has a run that brings it to the callback whole.
 */
module SubscriptionRuns {
  import opened Bits
  import opened Messages
  import opened Seqs
  import opened EventLoop
  import opened OneSubscription
  import C = CacheSpec
  import P = Pipeline
  import W = WebSocketSpec
  import WR = WebSocketRuns

  function StateAt(cfg: P.Config, symbol: string, replicas: nat, w: uint64, es: seq<Event>): P.Sys {
    P.After(cfg, w, Actions(symbol, replicas, es))
  }

  // ----- the consumer's turns -----

  /** After the events `es`, which led to `s`, the consumer's io_context runs `n` tasks, and every
      `decache` answers as a queue with fresh loads does. */
  function Draining(cfg: P.Config, es: seq<Event>, s: P.Sys, n: nat): seq<Event> {
    if n == 0 then es
    else Draining(cfg, es, s, n - 1) + [Execute(P.Drain(cfg, s, n - 1).cache.queue != [])]
  }

  /** What one more event adds to the actions. */
  lemma ActionsOfOneMore(symbol: string, replicas: nat, es: seq<Event>, e: Event)
    ensures Actions(symbol, replicas, es + [e])
         == Actions(symbol, replicas, es) + LastAction(symbol, replicas, es + [e])
  {
    AppendParts(es, e);
  }

  lemma TurnActs(symbol: string, replicas: nat, es: seq<Event>, hit: bool)
    ensures Actions(symbol, replicas, es + [Execute(hit)]) == Actions(symbol, replicas, es) + [P.Execute(hit)]
    ensures SocketEvents(es + [Execute(hit)]) == SocketEvents(es)
  {
    AppendParts(es, Execute(hit));
  }

  /** Those turns are the ones that drain the pipeline. */
  lemma {:induction false} DrainingActs(cfg: P.Config, symbol: string, replicas: nat, es: seq<Event>, s: P.Sys, n: nat)
    ensures Actions(symbol, replicas, Draining(cfg, es, s, n)) == P.Draining(cfg, Actions(symbol, replicas, es), s, n)
    decreases n
  {
    if n > 0 {
      DrainingActs(cfg, symbol, replicas, es, s, n - 1);
      TurnActs(symbol, replicas, Draining(cfg, es, s, n - 1), P.Drain(cfg, s, n - 1).cache.queue != []);
    }
  }

  lemma {:induction false} DrainingLeavesSockets(cfg: P.Config, es: seq<Event>, s: P.Sys, n: nat)
    ensures SocketEvents(Draining(cfg, es, s, n)) == SocketEvents(es)
    decreases n
  {
    if n > 0 {
      DrainingLeavesSockets(cfg, es, s, n - 1);
      AppendParts(Draining(cfg, es, s, n - 1), Execute(P.Drain(cfg, s, n - 1).cache.queue != []));
    }
  }

  /** When the sockets' io_context has run its posted tasks, every replica has passed on all it read. */
  lemma AllReadArePassed(replicas: nat, es: seq<Event>, h: nat)
    requires h < replicas && W.RunsOf(SocketEvents(es), h) <= 1 && Sockets(replicas, es).tasks == []
    ensures W.OfferedBy(Sockets(replicas, es).offered, h) == W.ReadsOf(replicas, SocketEvents(es), h)
  {
    W.OffersArePrefixOfReads(replicas, SocketEvents(es), h);
    var passed := W.OfferedBy(Sockets(replicas, es).offered, h);
    assert passed + [] == passed;
  }

  /** Everything accepted is delivered: with the hypotheses of `SocketsToCallbacks`, one `run()` of the
      consumer and quiet producers, as many turns as the measure says bring the WebSocket callback
      the books of all the texts that the furthest replica passed on, each once and in order, and
      nothing else. */
  lemma AllPassedAreDelivered(cfg: P.Config, symbol: string, replicas: nat, w: uint64,
        es: seq<Event>, texts: seq<string>, n: nat)
    returns (ahead: nat)
    requires P.Run(cfg, false, w, Actions(symbol, replicas, es)) && cfg.bound.ws
    requires C.Unrefused(C.CacheState(w, []), CacheCalls(cfg, symbol, replicas, w, es))
    requires ReplicasRead(cfg, symbol, replicas, w, es, texts)
    requires P.Starts(Actions(symbol, replicas, es)) == 1 && n >= P.Measure(StateAt(cfg, symbol, replicas, w, es))
    ensures Furthest(Sockets(replicas, es), ahead)
    ensures
      var passed := W.OfferedBy(Sockets(replicas, es).offered, ahead);
      var drained := Draining(cfg, es, StateAt(cfg, symbol, replicas, w, es), n);
      var s := StateAt(cfg, symbol, replicas, w, drained);
      && P.Run(cfg, false, w, Actions(symbol, replicas, drained))
      && s.loop.delivered == s.accepted
      && |P.WebSocketBooks(s.loop.calls)| == |passed|
      && BooksOfFirst(cfg, symbol, passed, P.WebSocketBooks(s.loop.calls))
  {
    var s := StateAt(cfg, symbol, replicas, w, es);
    var es' := Draining(cfg, es, s, n);
    DrainingActs(cfg, symbol, replicas, es, s, n);
    DrainingLeavesSockets(cfg, es, s, n);
    P.DrainingDrains(cfg, false, w, Actions(symbol, replicas, es), s, n);
    P.CallsAreOfArrivals(cfg, false, w, Actions(symbol, replicas, es));
    P.CallsAreOfArrivals(cfg, false, w, Actions(symbol, replicas, es'));
    P.RunInv(cfg, false, w, Actions(symbol, replicas, es));
    P.DrainLowersMeasure(cfg, StateAt(cfg, symbol, replicas, w, es), n);
    P.DrainsInExactly(cfg, false, w, Actions(symbol, replicas, es), n);
    ahead := SocketsToCallbacks(cfg, symbol, replicas, w, es', texts);
    P.CallbacksAreFirstAccepted(cfg, false, w, Actions(symbol, replicas, es'));
  }

  // ----- a run for every stream -----

  /** An event whose action, if any, is possible extends the run. */
  lemma RunsOn(cfg: P.Config, exact: bool, symbol: string, replicas: nat, w: uint64, es: seq<Event>, e: Event)
    requires P.Run(cfg, exact, w, Actions(symbol, replicas, es))
    requires
      var now := LastAction(symbol, replicas, es + [e]);
      now != [] ==> P.Possible(cfg, exact, StateAt(cfg, symbol, replicas, w, es), now[0])
    ensures P.Run(cfg, exact, w, Actions(symbol, replicas, es + [e]))
    ensures
      var now, s := LastAction(symbol, replicas, es + [e]), StateAt(cfg, symbol, replicas, w, es);
      StateAt(cfg, symbol, replicas, w, es + [e]) == if now == [] then s else P.Apply(cfg, s, now[0])
  {
    ActionsOfOneMore(symbol, replicas, es, e);
    P.ActRun(cfg, exact, w, Actions(symbol, replicas, es), LastAction(symbol, replicas, es + [e]));
  }

  /** What an event does to the sockets. */
  lemma SocketStep(replicas: nat, es: seq<Event>, e: Event, we: W.Event)
    requires SocketEvents(es + [e]) == SocketEvents(es) + [we]
    ensures Sockets(replicas, es + [e])
         == if W.Enabled(Sockets(replicas, es), we) then W.Apply(Sockets(replicas, es), we) else Sockets(replicas, es)
  {
    W.ReachOneMore(replicas, SocketEvents(es), we);
  }

  /** The only handler at work is `h`; its chain waits for `op`, and nothing is posted. */
  ghost predicate Waits(x: W.Host, h: nat, op: W.Op) {
    h < |x.chains| && x.chains[h].outstanding == multiset{op} && x.chains[h].buffer == "" && x.tasks == []
  }

  /** The books of `texts` have been delivered, and the consumer polls an empty queue. */
  ghost predicate Delivered(cfg: P.Config, symbol: string, w: uint64, texts: seq<string>, s: P.Sys) {
    var ms := MsgsOf(cfg, symbol, texts);
    && s.loop.tasks == [Poll] && s.loop.delivered == ms && s.accepted == ms && s.cache.queue == []
    && s.cache.watermark == if texts == [] then w
                            else match cfg.parse(Last(texts)) case Some(u) => u case None => w
  }

  /** An exact run of handler `h` has brought `texts` to the callback. */
  ghost predicate Flowed(cfg: P.Config, symbol: string, replicas: nat, w: uint64, es: seq<Event>, h: nat, op: W.Op,
                         texts: seq<string>)
  {
    && P.Run(cfg, true, w, Actions(symbol, replicas, es))
    && Waits(Sockets(replicas, es), h, op)
    && Delivered(cfg, symbol, w, texts, StateAt(cfg, symbol, replicas, w, es))
  }

  /** A message that is new to the cache passes through an idle pipeline in three actions. */
  lemma MessagePasses(cfg: P.Config, s: P.Sys, arrival: P.Arrival)
    requires cfg.limit >= 1 && s.loop.tasks == [Poll] && s.cache.queue == []
    requires arrival.source == WebSocket
    requires cfg.parse(arrival.text).Some? && s.cache.watermark < cfg.parse(arrival.text).value
    ensures
      var m := P.MsgOf(cfg, arrival);
      var s1 := P.Apply(cfg, s, P.Data(arrival, true));
      var s2 := P.Apply(cfg, s1, P.Execute(true));
      var s3 := P.Apply(cfg, s2, P.Execute(false));
      && P.Possible(cfg, true, s, P.Data(arrival, true)) && P.Possible(cfg, true, s1, P.Execute(true))
      && P.Possible(cfg, true, s2, P.Execute(false))
      && s3.loop.tasks == [Poll] && s3.loop.delivered == s.loop.delivered + [m] && s3.accepted == s.accepted + [m]
      && s3.cache == C.CacheState(cfg.parse(arrival.text).value, [])
  {
    var m := P.MsgOf(cfg, arrival);
    var s1 := P.Apply(cfg, s, P.Data(arrival, true));
    P.PossibleAnswers(cfg, true, s, arrival, true);
    assert s1.cache.queue == [m];
    P.PossibleAnswers(cfg, true, s1, arrival, true);
    var s2 := P.Apply(cfg, s1, P.Execute(true));
    assert s2.loop.tasks == [Deliver(m), Poll] && s2.cache.queue == [];
    P.PossibleAnswers(cfg, true, s2, arrival, false);
  }

  /** A text is read and waits to be passed on. */
  lemma TextIsPosted(cfg: P.Config, symbol: string, replicas: nat, w: uint64, es: seq<Event>, h: nat, text: string)
    requires P.Run(cfg, true, w, Actions(symbol, replicas, es)) && Waits(Sockets(replicas, es), h, W.Read)
    ensures
      var es' := es + [Completed(h, W.Read, false, text)];
      && P.Run(cfg, true, w, Actions(symbol, replicas, es'))
      && StateAt(cfg, symbol, replicas, w, es') == StateAt(cfg, symbol, replicas, w, es)
      && Sockets(replicas, es').tasks == [W.Data(h, text)]
      && Waits(Sockets(replicas, es').(tasks := []), h, W.Read)
  {
    var e := Completed(h, W.Read, false, text);
    AppendParts(es, e);
    SocketStep(replicas, es, e, W.Completed(h, W.Read, false, text));
    W.ReplaceOne(Sockets(replicas, es).chains[h].outstanding, W.Read, W.Read);
    assert "" + text == text;
    RunsOn(cfg, true, symbol, replicas, w, es, e);
  }

  /** A posted text is passed on to `on_data`. */
  lemma TextIsPassedOn(cfg: P.Config, symbol: string, replicas: nat, w: uint64, es: seq<Event>, h: nat, text: string)
    requires P.Run(cfg, true, w, Actions(symbol, replicas, es)) && Sockets(replicas, es).tasks == [W.Data(h, text)]
    requires Waits(Sockets(replicas, es).(tasks := []), h, W.Read)
    requires P.Possible(cfg, true, StateAt(cfg, symbol, replicas, w, es), P.Data(SocketArrival(symbol, h, text), true))
    ensures
      var es' := es + [RunTask(true)];
      && P.Run(cfg, true, w, Actions(symbol, replicas, es'))
      && StateAt(cfg, symbol, replicas, w, es')
         == P.Apply(cfg, StateAt(cfg, symbol, replicas, w, es), P.Data(SocketArrival(symbol, h, text), true))
      && Waits(Sockets(replicas, es'), h, W.Read)
  {
    AppendParts(es, RunTask(true));
    SocketStep(replicas, es, RunTask(true), W.RunTask);
    RunsOn(cfg, true, symbol, replicas, w, es, RunTask(true));
  }

  /** A possible turn of the consumer leaves the sockets alone. */
  lemma ConsumerTurn(cfg: P.Config, symbol: string, replicas: nat, w: uint64, es: seq<Event>, hit: bool)
    requires P.Run(cfg, true, w, Actions(symbol, replicas, es))
    requires P.Possible(cfg, true, StateAt(cfg, symbol, replicas, w, es), P.Execute(hit))
    ensures
      var es' := es + [Execute(hit)];
      && P.Run(cfg, true, w, Actions(symbol, replicas, es'))
      && StateAt(cfg, symbol, replicas, w, es') == P.Apply(cfg, StateAt(cfg, symbol, replicas, w, es), P.Execute(hit))
      && Sockets(replicas, es') == Sockets(replicas, es)
  {
    AppendParts(es, Execute(hit));
    RunsOn(cfg, true, symbol, replicas, w, es, Execute(hit));
  }

  /** One text from the socket to the callback. */
  function OneText(es: seq<Event>, h: nat, text: string): seq<Event> {
    es + [Completed(h, W.Read, false, text)] + [RunTask(true)] + [Execute(true)] + [Execute(false)]
  }

  lemma TextFlows(cfg: P.Config, symbol: string, replicas: nat, w: uint64, es: seq<Event>, h: nat,
                  texts: seq<string>, text: string)
    requires Flowed(cfg, symbol, replicas, w, es, h, W.Read, texts) && cfg.limit >= 1
    requires cfg.parse(text).Some?
    requires StateAt(cfg, symbol, replicas, w, es).cache.watermark < cfg.parse(text).value
    ensures Flowed(cfg, symbol, replicas, w, OneText(es, h, text), h, W.Read, texts + [text])
  {
    MessagePasses(cfg, StateAt(cfg, symbol, replicas, w, es), SocketArrival(symbol, h, text));
    TextIsPosted(cfg, symbol, replicas, w, es, h, text);
    var es1 := es + [Completed(h, W.Read, false, text)];
    TextIsPassedOn(cfg, symbol, replicas, w, es1, h, text);
    ConsumerTurn(cfg, symbol, replicas, w, es1 + [RunTask(true)], true);
    ConsumerTurn(cfg, symbol, replicas, w, es1 + [RunTask(true)] + [Execute(true)], false);
    MsgsOfAppend(cfg, symbol, texts, h, text);
  }

  /** The consumer is started, handler `h` is run, and its first `n` operations succeed. */
  function Opening(h: nat, n: nat): seq<Event> {
    if n == 0 then [StartConsumer] + [RunHandler(h)] + [RunTask(false)]
    else Opening(h, n - 1) + [Completed(h, W.Stage(n - 1), false, "")]
  }

  lemma StartActs(symbol: string, replicas: nat)
    ensures Actions(symbol, replicas, [StartConsumer]) == [P.Start] && SocketEvents([StartConsumer]) == []
  {
    assert ButLast([StartConsumer]) == [];
  }

  lemma ConsumerStarted(cfg: P.Config, symbol: string, replicas: nat, w: uint64)
    ensures P.Run(cfg, true, w, Actions(symbol, replicas, [StartConsumer]))
    ensures Delivered(cfg, symbol, w, [], StateAt(cfg, symbol, replicas, w, [StartConsumer]))
    ensures SocketEvents([StartConsumer]) == []
  {
    StartActs(symbol, replicas);
    assert [P.Start] == [] + [P.Start];
    P.ExtendRun(cfg, true, w, [], P.Start);
    assert MsgsOf(cfg, symbol, []) == [];
    assert P.After(cfg, w, [P.Start]).loop.tasks == [Poll];
  }

  lemma HandlerRun(cfg: P.Config, symbol: string, replicas: nat, w: uint64, h: nat)
    requires h < replicas
    ensures
      var es := [StartConsumer] + [RunHandler(h)];
      && P.Run(cfg, true, w, Actions(symbol, replicas, es))
      && Delivered(cfg, symbol, w, [], StateAt(cfg, symbol, replicas, w, es))
      && Sockets(replicas, es).tasks == [W.Begin(h)]
      && Sockets(replicas, es).chains[h].outstanding == multiset{} && Sockets(replicas, es).chains[h].buffer == ""
  {
    var es := [StartConsumer];
    ConsumerStarted(cfg, symbol, replicas, w);
    AppendParts(es, RunHandler(h));
    SocketStep(replicas, es, RunHandler(h), W.RunHandler(h));
    RunsOn(cfg, true, symbol, replicas, w, es, RunHandler(h));
  }

  lemma HandlerBegun(cfg: P.Config, symbol: string, replicas: nat, w: uint64, h: nat)
    requires h < replicas
    ensures Flowed(cfg, symbol, replicas, w, Opening(h, 0), h, W.Resolve, [])
  {
    var ran := [StartConsumer] + [RunHandler(h)];
    HandlerRun(cfg, symbol, replicas, w, h);
    AppendParts(ran, RunTask(false));
    SocketStep(replicas, ran, RunTask(false), W.RunTask);
    RunsOn(cfg, true, symbol, replicas, w, ran, RunTask(false));
  }

  lemma StageFlows(cfg: P.Config, symbol: string, replicas: nat, w: uint64, es: seq<Event>, h: nat, op: W.Op)
    requires Flowed(cfg, symbol, replicas, w, es, h, op, []) && op != W.Read
    ensures Flowed(cfg, symbol, replicas, w, es + [Completed(h, op, false, "")], h, W.NextOp(op), [])
  {
    var e := Completed(h, op, false, "");
    AppendParts(es, e);
    SocketStep(replicas, es, e, W.Completed(h, op, false, ""));
    W.ReplaceOne(Sockets(replicas, es).chains[h].outstanding, op, W.NextOp(op));
    RunsOn(cfg, true, symbol, replicas, w, es, e);
  }

  lemma {:induction false} Opened(cfg: P.Config, symbol: string, replicas: nat, w: uint64, h: nat, n: nat)
    requires h < replicas && n <= 4
    ensures Flowed(cfg, symbol, replicas, w, Opening(h, n), h, W.Stage(n), [])
    decreases n
  {
    if n == 0 {
      HandlerBegun(cfg, symbol, replicas, w, h);
    } else {
      Opened(cfg, symbol, replicas, w, h, n - 1);
      WR.NextStage(n - 1);
      StageFlows(cfg, symbol, replicas, w, Opening(h, n - 1), h, W.Stage(n - 1));
    }
  }

  function Streaming(h: nat, texts: seq<string>): seq<Event> {
    if texts == [] then Opening(h, 4) else OneText(Streaming(h, ButLast(texts)), h, Last(texts))
  }

  /** The texts have numbers, which increase and are above `w`. */
  ghost predicate IsStream(cfg: P.Config, w: uint64, texts: seq<string>) {
    && (forall i :: 0 <= i < |texts| ==> cfg.parse(texts[i]).Some? && w < cfg.parse(texts[i]).value)
    && (forall i, j :: 0 <= i < j < |texts| ==> cfg.parse(texts[i]).value < cfg.parse(texts[j]).value)
  }

  lemma {:induction false} StreamFlows(cfg: P.Config, symbol: string, replicas: nat, w: uint64, h: nat,
                                       texts: seq<string>)
    requires h < replicas && cfg.limit >= 1 && IsStream(cfg, w, texts)
    ensures Flowed(cfg, symbol, replicas, w, Streaming(h, texts), h, W.Read, texts)
    decreases |texts|
  {
    if texts == [] {
      Opened(cfg, symbol, replicas, w, h, 4);
    } else {
      var init := ButLast(texts);
      StreamFlows(cfg, symbol, replicas, w, h, init);
      assert init != [] ==> Last(init) == texts[|texts| - 2];
      assert Last(texts) == texts[|texts| - 1] && init + [Last(texts)] == texts;
      TextFlows(cfg, symbol, replicas, w, Streaming(h, init), h, init, Last(texts));
    }
  }

  lemma {:induction false} AllFromSockets(ms: seq<Msg>)
    requires forall m :: m in ms ==> m.source == WebSocket
    ensures C.WebSocketOnly(ms) == ms
    decreases |ms|
  {
    if ms != [] {
      Rejoined(ms);
      AllFromSockets(ButLast(ms));
    }
  }

  /** Every stream of texts gets through: for a queue of at least one item and any handler there is an exact
      run, from the first call of `run()` on, that ends with the WebSocket callback having been
      given exactly the book of each text, in order. */
  lemma EveryStreamGetsThrough(cfg: P.Config, symbol: string, replicas: nat, w: uint64, h: nat, texts: seq<string>)
    requires h < replicas && cfg.limit >= 1 && cfg.bound.ws && IsStream(cfg, w, texts)
    ensures P.Run(cfg, true, w, Actions(symbol, replicas, Streaming(h, texts)))
    ensures
      var books := P.WebSocketBooks(StateAt(cfg, symbol, replicas, w, Streaming(h, texts)).loop.calls);
      && |books| == |texts|
      && forall i :: 0 <= i < |books| ==> books[i] == OrderBook(symbol, texts[i], cfg.parse(texts[i]))
  {
    StreamFlows(cfg, symbol, replicas, w, h, texts);
    AllFromSockets(MsgsOf(cfg, symbol, texts));
    P.CallbacksAreFirstAccepted(cfg, true, w, Actions(symbol, replicas, Streaming(h, texts)));
  }
}
