/**
  One subscription end to end: the WebSocket replicas of one symbol and its REST traffic on one
  io_context, so that `on_data` calls never overlap, then the cache, the consumer's loop
  and the callbacks.
 */
module OneSubscription {
  import opened Bits
  import opened Messages
  import Options
  import opened Seqs
  import C = CacheSpec
  import P = Pipeline
  import W = WebSocketSpec

  datatype Event =
    | RunHandler(h: nat)
    | Completed(h: nat, op: W.Op, failed: bool, bytes: string)
    | RunTask(room: bool)           // the producer's io_context runs its front task
    | RestText(text: string, room: bool)
    | StartConsumer
    | Execute(hit: bool)            // the consumer's io_context runs its front task

  /** What happens to the handlers and their io_context. */
  function SocketEvents(es: seq<Event>): seq<W.Event> {
    if es == [] then []
    else
      var init := SocketEvents(ButLast(es));
      match Last(es)
      case RunHandler(h) => init + [W.RunHandler(h)]
      case Completed(h, op, failed, bytes) => init + [W.Completed(h, op, failed, bytes)]
      case RunTask(_) => init + [W.RunTask]
      case _ => init
  }

  function Sockets(replicas: nat, es: seq<Event>): W.Host {
    W.Reach(replicas, SocketEvents(es))
  }

  function SocketArrival(symbol: string, h: nat, text: string): P.Arrival {
    P.Arrival(h, WebSocket, symbol, text)
  }

  /** What happens to the pipeline at the last event of `es`. */
  function LastAction(symbol: string, replicas: nat, es: seq<Event>): (now: seq<P.Action>)
    requires es != []
    ensures |now| <= 1
  {
    match Last(es)
    case RunTask(room) =>
      var x := Sockets(replicas, ButLast(es));
      if W.Enabled(x, W.RunTask) && x.tasks[0].Data? then
        [P.Data(SocketArrival(symbol, x.tasks[0].h, x.tasks[0].text), room)]
      else []
    case RestText(text, room) => [P.Data(P.Arrival(replicas, RestApi, symbol, text), room)]
    case StartConsumer => [P.Start]
    case Execute(hit) => [P.Execute(hit)]
    case _ => []
  }

  function Actions(symbol: string, replicas: nat, es: seq<Event>): seq<P.Action> {
    if es == [] then []
    else Actions(symbol, replicas, ButLast(es)) + LastAction(symbol, replicas, es)
  }

  function CacheCalls(cfg: P.Config, symbol: string, replicas: nat, w: uint64, es: seq<Event>): seq<C.Event> {
    P.Events(cfg, w, Actions(symbol, replicas, es))
  }

  /** The messages made from the texts of a stream. */
  function MsgsOf(cfg: P.Config, symbol: string, texts: seq<string>): (ms: seq<Msg>)
    ensures |ms| == |texts|
  {
    seq(|texts|, i requires 0 <= i < |texts| => P.MsgOf(cfg, SocketArrival(symbol, 0, texts[i])))
  }

  lemma MsgsOfAppend(cfg: P.Config, symbol: string, texts: seq<string>, h: nat, text: string)
    ensures MsgsOf(cfg, symbol, texts + [text])
         == MsgsOf(cfg, symbol, texts) + [P.MsgOf(cfg, SocketArrival(symbol, h, text))]
  {
  }

  lemma OneMoreOffered(cfg: P.Config, symbol: string, offered: seq<W.Offered>, g: nat, text: string, h: nat)
    ensures
      var before := MsgsOf(cfg, symbol, W.OfferedBy(offered, h));
      MsgsOf(cfg, symbol, W.OfferedBy(offered + [W.Offered(g, text)], h))
      == if g == h then before + [P.MsgOf(cfg, SocketArrival(symbol, g, text))] else before
  {
    AppendParts(offered, W.Offered(g, text));
    MsgsOfAppend(cfg, symbol, W.OfferedBy(offered, h), g, text);
  }

  /** The cache call of a WebSocket text is an offer by its handler of the message made from it. */
  lemma SocketTextOffers(cfg: P.Config, symbol: string, s: P.Sys, calls: seq<C.Event>,
        g: nat, text: string, room: bool, h: nat)
    ensures
      var arrival := SocketArrival(symbol, g, text);
      C.FromReplica(calls + P.EventsOf(cfg, s, P.Data(arrival, room)), h)
      == if g == h then C.FromReplica(calls, h) + [P.MsgOf(cfg, arrival)] else C.FromReplica(calls, h)
  {
    CreatedMessages(cfg.parse, WebSocket, OrderBookType, symbol, text);
    AppendParts(calls, C.Offer(g, P.MsgOf(cfg, SocketArrival(symbol, g, text)), room));
  }

  /** No other action offers a WebSocket message. */
  lemma OthersOfferNothing(cfg: P.Config, s: P.Sys, calls: seq<C.Event>, a: P.Action, h: nat)
    requires a.Data? ==> a.arrival.source == RestApi
    ensures C.FromReplica(calls + P.EventsOf(cfg, s, a), h) == C.FromReplica(calls, h)
  {
    var made := P.EventsOf(cfg, s, a);
    if made == [] {
      assert calls + made == calls;
    } else {
      assert calls + made == calls + [made[0]];
      AppendParts(calls, made[0]);
    }
  }

  lemma CallsOfLast(cfg: P.Config, symbol: string, replicas: nat, w: uint64, es: seq<Event>)
    requires es != []
    ensures
      var before, now := Actions(symbol, replicas, ButLast(es)), LastAction(symbol, replicas, es);
      CacheCalls(cfg, symbol, replicas, w, es)
      == CacheCalls(cfg, symbol, replicas, w, ButLast(es))
         + (if now == [] then [] else P.EventsOf(cfg, P.After(cfg, w, before), now[0]))
  {
    var before, now := Actions(symbol, replicas, ButLast(es)), LastAction(symbol, replicas, es);
    if now == [] {
      assert before + now == before;
    } else {
      assert before + now == before + [now[0]];
      AppendParts(before, now[0]);
    }
  }

  /** What the last event adds to the offers of `h` reaches the cache. */
  lemma LastReachesCache(cfg: P.Config, symbol: string, replicas: nat, es: seq<Event>,
        s: P.Sys, calls: seq<C.Event>, h: nat)
    requires es != []
    requires C.FromReplica(calls, h) == MsgsOf(cfg, symbol, W.OfferedBy(Sockets(replicas, ButLast(es)).offered, h))
    ensures
      var now := LastAction(symbol, replicas, es);
      C.FromReplica(calls + (if now == [] then [] else P.EventsOf(cfg, s, now[0])), h)
      == MsgsOf(cfg, symbol, W.OfferedBy(Sockets(replicas, es).offered, h))
  {
    var now, x := LastAction(symbol, replicas, es), Sockets(replicas, ButLast(es));
    SocketsAtLast(replicas, es);
    if now == [] {
      assert calls + [] == calls;
    } else if Last(es).RunTask? {
      SocketTextOffers(cfg, symbol, s, calls, x.tasks[0].h, x.tasks[0].text, Last(es).room, h);
      OneMoreOffered(cfg, symbol, x.offered, x.tasks[0].h, x.tasks[0].text, h);
    } else {
      OthersOfferNothing(cfg, s, calls, now[0], h);
    }
  }

  /** The WebSocket messages that reach `encache` from handler `h` are those made from the texts
      that its io_context passed to `on_data`, in order. */
  lemma {:induction false} OffersReachCache(cfg: P.Config, symbol: string, replicas: nat, w: uint64,
        es: seq<Event>, h: nat)
    ensures C.FromReplica(CacheCalls(cfg, symbol, replicas, w, es), h)
         == MsgsOf(cfg, symbol, W.OfferedBy(Sockets(replicas, es).offered, h))
    decreases |es|
  {
    if es != [] {
      var init := ButLast(es);
      OffersReachCache(cfg, symbol, replicas, w, init, h);
      CallsOfLast(cfg, symbol, replicas, w, es);
      LastReachesCache(cfg, symbol, replicas, es, P.After(cfg, w, Actions(symbol, replicas, init)),
                       CacheCalls(cfg, symbol, replicas, w, init), h);
    }
  }

  /** How the last event changes what was offered: only a data task does. */
  lemma SocketsAtLast(replicas: nat, es: seq<Event>)
    requires es != []
    ensures
      var x := Sockets(replicas, ButLast(es));
      Sockets(replicas, es).offered
      == if Last(es).RunTask? && W.Enabled(x, W.RunTask) && x.tasks[0].Data?
         then x.offered + [W.Offered(x.tasks[0].h, x.tasks[0].text)] else x.offered
  {
    var init := SocketEvents(ButLast(es));
    match Last(es) {
      case RunHandler(h) => W.ReachOneMore(replicas, init, W.RunHandler(h));
      case Completed(h, op, failed, bytes) => W.ReachOneMore(replicas, init, W.Completed(h, op, failed, bytes));
      case RunTask(_) => W.ReachOneMore(replicas, init, W.RunTask);
      case _ =>
    }
  }

  /** What each event does to the pipeline. */
  lemma EventActs(cfg: P.Config, symbol: string, replicas: nat, w: uint64, es: seq<Event>, e: Event)
    ensures
      var s, x := P.After(cfg, w, Actions(symbol, replicas, es)), Sockets(replicas, es);
      var s' := P.After(cfg, w, Actions(symbol, replicas, es + [e]));
      && (e.RunHandler? || e.Completed? ==> s' == s)
      && (e.StartConsumer? ==> s' == P.Apply(cfg, s, P.Start))
      && (e.Execute? ==> s' == P.Apply(cfg, s, P.Execute(e.hit)))
      && (e.RestText? ==> s' == P.Apply(cfg, s, P.Data(P.Arrival(replicas, RestApi, symbol, e.text), e.room)))
      && (e.RunTask? ==>
            s' == if x.tasks != [] && x.tasks[0].Data? then
                    P.Apply(cfg, s, P.Data(P.Arrival(x.tasks[0].h, WebSocket, symbol, x.tasks[0].text), e.room))
                  else s)
  {
    var before, now := Actions(symbol, replicas, es), LastAction(symbol, replicas, es + [e]);
    AppendParts(es, e);
    W.ReachInv(replicas, SocketEvents(es));
    if now == [] {
      assert before + now == before;
    } else {
      assert before + now == before + [now[0]];
      AppendParts(before, now[0]);
    }
  }

  // ----- the REST traffic -----

  /** The texts that the REST handlers passed on. */
  function RestTexts(es: seq<Event>): seq<string> {
    if es == [] then []
    else if Last(es).RestText? then RestTexts(ButLast(es)) + [Last(es).text]
    else RestTexts(ButLast(es))
  }

  /** The REST messages among those offered to the cache, in order. */
  function RestOffered(calls: seq<C.Event>): seq<Msg> {
    if calls == [] then []
    else if Last(calls).Offer? && Last(calls).m.source == RestApi then RestOffered(ButLast(calls)) + [Last(calls).m]
    else RestOffered(ButLast(calls))
  }

  function RestMsgs(cfg: P.Config, symbol: string, texts: seq<string>): seq<Msg> {
    seq(|texts|, i requires 0 <= i < |texts| =>
      Msg(OrderBookType, RestApi, Options.Some(OrderBook(symbol, texts[i], cfg.parse(texts[i])))))
  }

  /** What one action adds to the REST messages offered. */
  lemma ActionOffersRest(cfg: P.Config, s: P.Sys, calls: seq<C.Event>, a: P.Action)
    ensures RestOffered(calls + P.EventsOf(cfg, s, a))
         == if a.Data? && a.arrival.source == RestApi then
              RestOffered(calls) + [Msg(OrderBookType, RestApi,
                Options.Some(OrderBook(a.arrival.symbol, a.arrival.text, cfg.parse(a.arrival.text))))]
            else RestOffered(calls)
  {
    var made := P.EventsOf(cfg, s, a);
    if made == [] {
      assert calls + made == calls;
    } else {
      assert calls + made == calls + [made[0]];
      AppendParts(calls, made[0]);
    }
  }

  lemma RestMsgsAppend(cfg: P.Config, symbol: string, texts: seq<string>, text: string)
    ensures RestMsgs(cfg, symbol, texts + [text])
         == RestMsgs(cfg, symbol, texts)
            + [Msg(OrderBookType, RestApi, Options.Some(OrderBook(symbol, text, cfg.parse(text))))]
  {
  }

  /** What the last event adds to the REST messages reaches the cache. */
  lemma LastRestReachesCache(cfg: P.Config, symbol: string, replicas: nat, es: seq<Event>,
        s: P.Sys, calls: seq<C.Event>)
    requires es != [] && RestOffered(calls) == RestMsgs(cfg, symbol, RestTexts(ButLast(es)))
    ensures
      var now := LastAction(symbol, replicas, es);
      RestOffered(calls + (if now == [] then [] else P.EventsOf(cfg, s, now[0])))
      == RestMsgs(cfg, symbol, RestTexts(es))
  {
    var now := LastAction(symbol, replicas, es);
    if now == [] {
      assert calls + [] == calls;
    } else {
      ActionOffersRest(cfg, s, calls, now[0]);
      if Last(es).RestText? {
        RestMsgsAppend(cfg, symbol, RestTexts(ButLast(es)), Last(es).text);
      }
    }
  }

  /** The REST messages offered to the cache are those of the REST texts, in order, none lost on the way
      to `encache` and none made up. */
  lemma {:induction false} RestTextsReachCache(cfg: P.Config, symbol: string, replicas: nat, w: uint64, es: seq<Event>)
    ensures RestOffered(CacheCalls(cfg, symbol, replicas, w, es)) == RestMsgs(cfg, symbol, RestTexts(es))
    decreases |es|
  {
    if es != [] {
      var init := ButLast(es);
      RestTextsReachCache(cfg, symbol, replicas, w, init);
      CallsOfLast(cfg, symbol, replicas, w, es);
      LastRestReachesCache(cfg, symbol, replicas, es, P.After(cfg, w, Actions(symbol, replicas, init)),
                           CacheCalls(cfg, symbol, replicas, w, init));
    }
  }

  // ----- the WebSocket traffic -----

  lemma {:induction false} NothingFromOthers(offered: seq<W.Offered>, h: nat)
    requires forall i :: 0 <= i < |offered| ==> offered[i].h != h
    ensures W.OfferedBy(offered, h) == []
    decreases |offered|
  {
    if offered != [] {
      assert offered[|offered| - 1].h != h;
      NothingFromOthers(ButLast(offered), h);
    }
  }

  /** The exchange sends one stream of texts with increasing numbers above the starting
      watermark; each replica, run at most once, has read some first part of it. */
  ghost predicate ReplicasRead(cfg: P.Config, symbol: string, replicas: nat, w: uint64,
        es: seq<Event>, texts: seq<string>)
  {
    && C.NumbersIncrease(MsgsOf(cfg, symbol, texts))
    && C.NumbersAbove(w, MsgsOf(cfg, symbol, texts))
    && forall h: nat :: h < replicas ==>
         W.RunsOf(SocketEvents(es), h) <= 1 && W.ReadsOf(replicas, SocketEvents(es), h) <= texts
  }

  lemma PassedAreFirst(cfg: P.Config, symbol: string, replicas: nat, w: uint64,
        es: seq<Event>, texts: seq<string>, h: nat)
    requires ReplicasRead(cfg, symbol, replicas, w, es, texts)
    ensures W.OfferedBy(Sockets(replicas, es).offered, h) <= texts
  {
    W.ReachInv(replicas, SocketEvents(es));
    if h < replicas {
      W.OffersArePrefixOfReads(replicas, SocketEvents(es), h);
    } else {
      NothingFromOthers(Sockets(replicas, es).offered, h);
    }
  }

  lemma OffersArePrefixes(cfg: P.Config, symbol: string, replicas: nat, w: uint64,
        es: seq<Event>, texts: seq<string>, h: nat)
    requires ReplicasRead(cfg, symbol, replicas, w, es, texts)
    ensures C.FromReplica(CacheCalls(cfg, symbol, replicas, w, es), h) <= MsgsOf(cfg, symbol, texts)
  {
    OffersReachCache(cfg, symbol, replicas, w, es, h);
    PassedAreFirst(cfg, symbol, replicas, w, es, texts, h);
  }

  /** The book that a callback is due for a text. */
  function BookOf(cfg: P.Config, symbol: string, text: string): OrderBook {
    OrderBook(symbol, text, cfg.parse(text))
  }

  /** `books` are those of the first texts, in order. */
  ghost predicate BooksOfFirst(cfg: P.Config, symbol: string, texts: seq<string>, books: seq<OrderBook>) {
    |books| <= |texts| && forall i :: 0 <= i < |books| ==> books[i] == BookOf(cfg, symbol, texts[i])
  }

  /** `ahead` has passed on the most texts of all handlers. */
  ghost predicate Furthest(x: W.Host, ahead: nat) {
    forall h :: |W.OfferedBy(x.offered, h)| <= |W.OfferedBy(x.offered, ahead)|
  }

  /** From the sockets to the callbacks, for any number of replicas, any interleaving of their
      completions and errors with REST texts, with the consumer's loop and with spurious
      refusals of `decache`, and no WebSocket message refused: the accepted WebSocket messages are
      those of the texts that the furthest replica passed on, and the WebSocket callback has been
      given the order books of a first part of these texts, each once and in order. */
  lemma SocketsToCallbacks(cfg: P.Config, symbol: string, replicas: nat, w: uint64, es: seq<Event>, texts: seq<string>)
    returns (ahead: nat)
    requires P.Run(cfg, false, w, Actions(symbol, replicas, es)) && cfg.bound.ws
    requires C.Unrefused(C.CacheState(w, []), CacheCalls(cfg, symbol, replicas, w, es))
    requires ReplicasRead(cfg, symbol, replicas, w, es, texts)
    ensures Furthest(Sockets(replicas, es), ahead)
    ensures
      var s := P.After(cfg, w, Actions(symbol, replicas, es));
      var passed := W.OfferedBy(Sockets(replicas, es).offered, ahead);
      && passed <= texts
      && C.WebSocketOnly(s.accepted) == MsgsOf(cfg, symbol, passed)
      && BooksOfFirst(cfg, symbol, passed, P.WebSocketBooks(s.loop.calls))
  {
    var calls := CacheCalls(cfg, symbol, replicas, w, es);
    forall h
      ensures C.FromReplica(calls, h) <= MsgsOf(cfg, symbol, texts)
    {
      OffersArePrefixes(cfg, symbol, replicas, w, es, texts, h);
    }
    P.EndToEndMerge(cfg, false, w, Actions(symbol, replicas, es), MsgsOf(cfg, symbol, texts));
    ahead := C.LongestIsGreatest(calls);
    forall h
      ensures |W.OfferedBy(Sockets(replicas, es).offered, h)| == |C.FromReplica(calls, h)|
    {
      OffersReachCache(cfg, symbol, replicas, w, es, h);
    }
    PassedAreFirst(cfg, symbol, replicas, w, es, texts, ahead);
  }

  /** Every text that a replica, run at most once, has read is one of the stream. Replicas may
      start late, stop early and miss any part. */
  ghost predicate ReplicasSample(cfg: P.Config, symbol: string, replicas: nat, es: seq<Event>, texts: seq<string>) {
    && C.NumbersIncrease(MsgsOf(cfg, symbol, texts))
    && forall h: nat :: h < replicas ==>
         && W.RunsOf(SocketEvents(es), h) <= 1
         && forall text :: text in W.ReadsOf(replicas, SocketEvents(es), h) ==> text in texts
  }

  lemma MsgsOfSubset(cfg: P.Config, symbol: string, some: seq<string>, all: seq<string>, m: Msg)
    requires m in MsgsOf(cfg, symbol, some) && forall text :: text in some ==> text in all
    ensures m in MsgsOf(cfg, symbol, all)
  {
    var k :| 0 <= k < |some| && MsgsOf(cfg, symbol, some)[k] == m;
    assert some[k] in all;
    var l :| 0 <= l < |all| && all[l] == some[k];
    assert MsgsOf(cfg, symbol, all)[l] == m;
  }

  lemma OfferedTextsAreSampled(cfg: P.Config, symbol: string, replicas: nat, es: seq<Event>, texts: seq<string>, h: nat)
    requires ReplicasSample(cfg, symbol, replicas, es, texts)
    ensures forall text :: text in W.OfferedBy(Sockets(replicas, es).offered, h) ==> text in texts
  {
    W.ReachInv(replicas, SocketEvents(es));
    if h < replicas {
      var received := W.ReadsOf(replicas, SocketEvents(es), h);
      W.OffersArePrefixOfReads(replicas, SocketEvents(es), h);
      assert forall text :: text in W.OfferedBy(Sockets(replicas, es).offered, h) ==> text in received;
    } else {
      NothingFromOthers(Sockets(replicas, es).offered, h);
    }
  }

  lemma OffersAreSampled(cfg: P.Config, symbol: string, replicas: nat, w: uint64,
        es: seq<Event>, texts: seq<string>, i: nat)
    requires ReplicasSample(cfg, symbol, replicas, es, texts) && i < |CacheCalls(cfg, symbol, replicas, w, es)|
    requires CacheCalls(cfg, symbol, replicas, w, es)[i].Offer?
    requires CacheCalls(cfg, symbol, replicas, w, es)[i].m.source == WebSocket
    ensures CacheCalls(cfg, symbol, replicas, w, es)[i].m in MsgsOf(cfg, symbol, texts)
  {
    var call := CacheCalls(cfg, symbol, replicas, w, es)[i];
    C.OfferIsFromReplica(CacheCalls(cfg, symbol, replicas, w, es), i);
    OffersReachCache(cfg, symbol, replicas, w, es, call.from);
    OfferedTextsAreSampled(cfg, symbol, replicas, es, texts, call.from);
    MsgsOfSubset(cfg, symbol, W.OfferedBy(Sockets(replicas, es).offered, call.from), texts, call.m);
  }

  /** From the sockets to the callbacks whatever is missed, repeated or refused: the accepted
      WebSocket messages are the stream with elements left out, each at most once and in stream
      order, and the callback has been given the order books of the first of them. */
  lemma SampledSocketsToCallbacks(cfg: P.Config, symbol: string, replicas: nat, w: uint64,
        es: seq<Event>, texts: seq<string>)
    requires P.Run(cfg, false, w, Actions(symbol, replicas, es)) && cfg.bound.ws
    requires ReplicasSample(cfg, symbol, replicas, es, texts)
    ensures
      var s := P.After(cfg, w, Actions(symbol, replicas, es));
      && C.Subsequence(C.WebSocketOnly(s.accepted), MsgsOf(cfg, symbol, texts))
      && C.WebSocketOnly(s.loop.delivered) <= C.WebSocketOnly(s.accepted)
      && P.AllWellFormed(C.WebSocketOnly(s.loop.delivered))
      && P.WebSocketBooks(s.loop.calls) == P.BooksOf(C.WebSocketOnly(s.loop.delivered))
  {
    var calls := CacheCalls(cfg, symbol, replicas, w, es);
    forall i | 0 <= i < |calls| && calls[i].Offer? && calls[i].m.source == WebSocket
      ensures calls[i].m in MsgsOf(cfg, symbol, texts)
    {
      OffersAreSampled(cfg, symbol, replicas, w, es, texts, i);
    }
    P.EndToEndLossy(cfg, false, w, Actions(symbol, replicas, es), MsgsOf(cfg, symbol, texts));
    P.CallbacksAreFirstAccepted(cfg, false, w, Actions(symbol, replicas, es));
  }
}
