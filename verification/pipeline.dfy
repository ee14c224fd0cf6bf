/**
  The whole pipeline with `encache`, `decache` and `size` as atomic calls: messages arriving
  at connection handlers, the cache, the consumer's event loop and the callbacks. The queue
  may refuse although it has room or an item, as a ring buffer with a stale view does; runs
  in which it never does so are `exact`.
 */
module Pipeline {
  import opened Bits
  import opened Messages
  import Options
  import opened Seqs
  import opened CacheSpec
  import opened EventLoop

  /** `limit` is capacity - 1; `parse` gives the `U` field of a text; `bound` the callbacks. */
  datatype Config = Config(limit: nat, parse: Parser, bound: Bindings)

  /** A text that reached `on_data` of handler number `from`. */
  datatype Arrival = Arrival(from: nat, source: Source, symbol: string, text: string)

  datatype Sys = Sys(cache: CacheState, loop: Loop, accepted: seq<Msg>)

  datatype Action =
    | Data(arrival: Arrival, room: bool) // on_data: parse, validity gate, encache
    | Start                              // Consumer::run is called
    | Execute(hit: bool)                 // the consumer's io_context runs one task

  function MsgOf(cfg: Config, a: Arrival): Msg {
    CreateMsg(cfg.parse, a.source, OrderBookType, a.symbol, a.text)
  }

  function Init(watermark: uint64): Sys {
    Sys(CacheState(watermark, []), Loop([], [], []), [])
  }

  /** The cache call that an action makes, if any. */
  function EventsOf(cfg: Config, s: Sys, a: Action): seq<Event> {
    match a
    case Data(arrival, room) =>
      var m := MsgOf(cfg, arrival);
      if Valid(m) then [Offer(arrival.from, m, room)] else []
    case Start => []
    case Execute(hit) => if s.loop.tasks != [] && s.loop.tasks[0].Poll? then [Take(hit)] else []
  }

  ghost predicate Possible(cfg: Config, exact: bool, s: Sys, a: Action) {
    forall e :: e in EventsOf(cfg, s, a) ==> Answers(cfg.limit, exact, s.cache.queue, e)
  }

  function Apply(cfg: Config, s: Sys, a: Action): Sys {
    match a
    case Data(arrival, room) =>
      var m := MsgOf(cfg, arrival);
      if !Valid(m) then s
      else
        var (cache, outcome) := Encache(s.cache, m, room);
        s.(cache := cache, accepted := if outcome == Accepted then s.accepted + [m] else s.accepted)
    case Start => s.(loop := s.loop.(tasks := s.loop.tasks + [Poll]))
    case Execute(hit) =>
      var (loop, queue) := Turn(cfg.bound, s.loop, s.cache.queue, hit);
      s.(loop := loop, cache := s.cache.(queue := queue))
  }

  function After(cfg: Config, w: uint64, acts: seq<Action>): Sys {
    if acts == [] then Init(w) else Apply(cfg, After(cfg, w, ButLast(acts)), Last(acts))
  }

  ghost predicate Run(cfg: Config, exact: bool, w: uint64, acts: seq<Action>) {
    acts == []
    || (Run(cfg, exact, w, ButLast(acts)) && Possible(cfg, exact, After(cfg, w, ButLast(acts)), Last(acts)))
  }

  /** The cache calls of a whole run. */
  function Events(cfg: Config, w: uint64, acts: seq<Action>): seq<Event> {
    if acts == [] then []
    else Events(cfg, w, ButLast(acts)) + EventsOf(cfg, After(cfg, w, ButLast(acts)), Last(acts))
  }

  /** An arrival that `on_data` is done with; `refused` when it was new and the queue refused it. */
  datatype Done = Done(arrival: Arrival, refused: bool)

  function DoneBy(cfg: Config, s: Sys, a: Action): seq<Done> {
    match a
    case Data(arrival, room) =>
      var m := MsgOf(cfg, arrival);
      [Done(arrival, Valid(m) && Encache(s.cache, m, room).1 == Full)]
    case _ => []
  }

  /** The arrivals of a run, in order. */
  function DoneOf(cfg: Config, w: uint64, acts: seq<Action>): seq<Done> {
    if acts == [] then []
    else DoneOf(cfg, w, ButLast(acts)) + DoneBy(cfg, After(cfg, w, ButLast(acts)), Last(acts))
  }

  /** How often `Consumer::run` was called from outside. */
  function Starts(acts: seq<Action>): nat {
    if acts == [] then 0
    else Starts(ButLast(acts)) + (if Last(acts).Start? then 1 else 0)
  }

  /** From `s` the actions `now`, at most one, lead to `s'`. */
  ghost predicate Follows(cfg: Config, exact: bool, s: Sys, now: seq<Action>, s': Sys) {
    if now == [] then s' == s
    else |now| == 1 && Possible(cfg, exact, s, now[0]) && s' == Apply(cfg, s, now[0])
  }

  lemma ExtendRun(cfg: Config, exact: bool, w: uint64, acts: seq<Action>, a: Action)
    requires Run(cfg, exact, w, acts) && Possible(cfg, exact, After(cfg, w, acts), a)
    ensures Run(cfg, exact, w, acts + [a])
    ensures After(cfg, w, acts + [a]) == Apply(cfg, After(cfg, w, acts), a)
    ensures Starts(acts + [a]) == Starts(acts) + (if a.Start? then 1 else 0)
    ensures DoneOf(cfg, w, acts + [a]) == DoneOf(cfg, w, acts) + DoneBy(cfg, After(cfg, w, acts), a)
  {
    AppendParts(acts, a);
  }

  /** The arrivals that at most one action is done with. */
  function DoneNow(cfg: Config, s: Sys, now: seq<Action>): seq<Done>
    requires |now| <= 1
  {
    if now == [] then [] else DoneBy(cfg, s, now[0])
  }

  /** A run is extended by what follows it. */
  lemma FollowRun(cfg: Config, exact: bool, w: uint64, acts: seq<Action>, now: seq<Action>, s': Sys)
    requires Run(cfg, exact, w, acts) && Follows(cfg, exact, After(cfg, w, acts), now, s')
    ensures Run(cfg, exact, w, acts + now) && After(cfg, w, acts + now) == s'
    ensures Starts(acts + now) == Starts(acts) + Starts(now)
    ensures DoneOf(cfg, w, acts + now) == DoneOf(cfg, w, acts) + DoneNow(cfg, After(cfg, w, acts), now)
  {
    if now == [] {
      assert acts + now == acts && DoneOf(cfg, w, acts) + [] == DoneOf(cfg, w, acts);
    } else {
      ExtendRun(cfg, exact, w, acts, now[0]);
      assert now == [now[0]];
      StartsOfOne(now[0]);
    }
  }

  /** At most one possible action extends a run. */
  lemma ActRun(cfg: Config, exact: bool, w: uint64, acts: seq<Action>, now: seq<Action>)
    requires Run(cfg, exact, w, acts) && |now| <= 1
    requires now != [] ==> Possible(cfg, exact, After(cfg, w, acts), now[0])
    ensures Run(cfg, exact, w, acts + now)
    ensures After(cfg, w, acts + now)
         == if now == [] then After(cfg, w, acts) else Apply(cfg, After(cfg, w, acts), now[0])
  {
    var s := After(cfg, w, acts);
    FollowRun(cfg, exact, w, acts, now, if now == [] then s else Apply(cfg, s, now[0]));
  }

  lemma StartsOfOne(a: Action)
    ensures Starts([a]) == if a.Start? then 1 else 0
  {
    AppendParts([], a);
    assert [] + [a] == [a];
  }

  lemma OneCall(cfg: Config, exact: bool, s: Sys, a: Action, e: Event)
    requires EventsOf(cfg, s, a) == [e]
    ensures Possible(cfg, exact, s, a) <==> Answers(cfg.limit, exact, s.cache.queue, e)
  {
    assert e in EventsOf(cfg, s, a);
  }

  /** What the queue may answer. With fresh loads it says exactly whether it has room, respectively an
      item; otherwise it may refuse as well. `run()` can always be called. */
  lemma PossibleAnswers(cfg: Config, exact: bool, s: Sys, arrival: Arrival, answer: bool)
    ensures Possible(cfg, exact, s, Start)
    ensures Possible(cfg, exact, s, Data(arrival, answer)) <==>
      Valid(MsgOf(cfg, arrival)) ==>
        if exact then answer <==> |s.cache.queue| < cfg.limit
        else answer ==> |s.cache.queue| < cfg.limit
    ensures Possible(cfg, exact, s, Execute(answer)) <==>
      s.loop.tasks != [] && s.loop.tasks[0].Poll? ==>
        if exact then answer <==> s.cache.queue != [] else answer ==> s.cache.queue != []
  {
    if Valid(MsgOf(cfg, arrival)) {
      OneCall(cfg, exact, s, Data(arrival, answer), Offer(arrival.from, MsgOf(cfg, arrival), answer));
    }
    if s.loop.tasks != [] && s.loop.tasks[0].Poll? {
      OneCall(cfg, exact, s, Execute(answer), Take(answer));
    }
  }

  // ----- the invariant -----

  ghost predicate AllWellFormed(ms: seq<Msg>) {
    forall i :: 0 <= i < |ms| ==> WellFormed(ms[i])
  }

  ghost predicate Inv(cfg: Config, starts: nat, s: Sys) {
    && s.accepted == s.loop.delivered + Pending(s.loop.tasks) + s.cache.queue
    && |s.cache.queue| <= cfg.limit
    && Paired(s.loop.tasks) && Polls(s.loop.tasks) == starts
    && AllWellFormed(s.accepted)
    && s.loop.calls == CallsOf(cfg.bound, s.loop.delivered)
  }

  lemma DataKeepsInv(cfg: Config, exact: bool, starts: nat, s: Sys, arrival: Arrival, room: bool)
    requires Inv(cfg, starts, s) && Possible(cfg, exact, s, Data(arrival, room))
    ensures Inv(cfg, starts, Apply(cfg, s, Data(arrival, room)))
  {
    var m := MsgOf(cfg, arrival);
    if Valid(m) {
      CreatedMessages(cfg.parse, arrival.source, OrderBookType, arrival.symbol, arrival.text);
      assert Offer(arrival.from, m, room) in EventsOf(cfg, s, Data(arrival, room));
      Regroup(s.loop.delivered + Pending(s.loop.tasks), s.cache.queue, [m]);
    }
  }

  lemma ExecuteKeepsInv(cfg: Config, starts: nat, s: Sys, hit: bool)
    requires Inv(cfg, starts, s)
    ensures Inv(cfg, starts, Apply(cfg, s, Execute(hit)))
  {
    TurnKeepsLine(cfg.bound, s.loop, s.cache.queue, hit);
    if s.loop.tasks != [] && s.loop.tasks[0].Deliver? {
      AppendParts(s.loop.delivered, s.loop.tasks[0].m);
    }
  }

  lemma StartKeepsInv(cfg: Config, starts: nat, s: Sys)
    requires Inv(cfg, starts, s)
    ensures Inv(cfg, starts + 1, Apply(cfg, s, Start))
  {
    PendingOfConcat(s.loop.tasks, [Poll]);
    PendingOfOne(Poll);
  }

  lemma StepKeepsInv(cfg: Config, exact: bool, starts: nat, s: Sys, a: Action)
    requires Inv(cfg, starts, s) && Possible(cfg, exact, s, a)
    ensures Inv(cfg, if a.Start? then starts + 1 else starts, Apply(cfg, s, a))
  {
    match a {
      case Data(arrival, room) => DataKeepsInv(cfg, exact, starts, s, arrival, room);
      case Start => StartKeepsInv(cfg, starts, s);
      case Execute(hit) => ExecuteKeepsInv(cfg, starts, s, hit);
    }
  }

  lemma {:induction false} RunInv(cfg: Config, exact: bool, w: uint64, acts: seq<Action>)
    requires Run(cfg, exact, w, acts)
    ensures Inv(cfg, Starts(acts), After(cfg, w, acts))
    decreases |acts|
  {
    if acts != [] {
      RunInv(cfg, exact, w, ButLast(acts));
      StepKeepsInv(cfg, exact, Starts(ButLast(acts)), After(cfg, w, ButLast(acts)), Last(acts));
    }
  }

  // ----- results over all runs -----

  /** The message that `encache` is offered for a text: an order book of the handler's symbol, with that
      text and the number in it. */
  lemma OneArrivalAccepted(cfg: Config, s: Sys, a: Action)
    ensures Apply(cfg, s, a).accepted == s.accepted
         || (&& a.Data? && a.arrival.source != NoSource
             && var book := OrderBook(a.arrival.symbol, a.arrival.text, cfg.parse(a.arrival.text));
                Apply(cfg, s, a).accepted == s.accepted + [Msg(OrderBookType, a.arrival.source, Options.Some(book))])
  {
  }

  /** Every accepted message is that of an arrival: an order book with its source, its symbol, its text and
      the number in that text. */
  lemma {:induction false} AcceptedAreArrivals(cfg: Config, w: uint64, acts: seq<Action>, i: nat) returns (k: nat)
    requires i < |After(cfg, w, acts).accepted|
    ensures k < |acts| && acts[k].Data?
    ensures
      var m, arrival := After(cfg, w, acts).accepted[i], acts[k].arrival;
      && m.typ == OrderBookType && m.source == arrival.source
      && m.data == Options.Some(OrderBook(arrival.symbol, arrival.text, cfg.parse(arrival.text)))
    decreases |acts|
  {
    var before := After(cfg, w, ButLast(acts));
    OneArrivalAccepted(cfg, before, Last(acts));
    if i < |before.accepted| {
      k := AcceptedAreArrivals(cfg, w, ButLast(acts), i);
    } else {
      k := |acts| - 1;
    }
  }

  /** Conservation: in every reachable state the messages for which `encache` returned true
      are, in order, the delivered ones, the pending deliveries and the queue. */
  lemma Conservation(cfg: Config, exact: bool, w: uint64, acts: seq<Action>)
    requires Run(cfg, exact, w, acts)
    ensures
      var s := After(cfg, w, acts);
      s.accepted == s.loop.delivered + Pending(s.loop.tasks) + s.cache.queue
  {
    RunInv(cfg, exact, w, acts);
  }

  /** After k calls of `run()` there are exactly k polls between turns, every pending delivery is
      followed by its poll, and at most limit + k messages are accepted but not delivered. */
  lemma InFlightBound(cfg: Config, exact: bool, w: uint64, acts: seq<Action>)
    requires Run(cfg, exact, w, acts)
    ensures
      var s := After(cfg, w, acts);
      && Polls(s.loop.tasks) == Starts(acts)
      && Paired(s.loop.tasks)
      && |s.accepted| - |s.loop.delivered| <= cfg.limit + Starts(acts)
  {
    RunInv(cfg, exact, w, acts);
    PairedCounts(After(cfg, w, acts).loop.tasks);
  }

  /** The loop after one call of `run()`. */
  lemma OneRunState(cfg: Config, s: Sys)
    requires Inv(cfg, 1, s)
    ensures || (s.loop.tasks == [Poll] && s.accepted == s.loop.delivered + s.cache.queue)
            || (&& |s.loop.delivered| < |s.accepted|
                && s.loop.tasks == [Deliver(s.accepted[|s.loop.delivered|]), Poll])
  {
    ShapeOfOneRun(s.loop.tasks);
    if s.loop.tasks == [Poll] {
      PendingOfOne(Poll);
      assert s.loop.delivered + [] == s.loop.delivered;
    }
  }

  /** With one call of `run()` the loop is `[poll]` or `[deliver, poll]`, the delivery is of the
      first undelivered message, and at most `capacity` messages are in flight. */
  lemma OneRunShape(cfg: Config, exact: bool, w: uint64, acts: seq<Action>)
    requires Run(cfg, exact, w, acts) && Starts(acts) == 1
    ensures
      var s := After(cfg, w, acts);
      && |s.accepted| - |s.loop.delivered| <= cfg.limit + 1
      && (|| (s.loop.tasks == [Poll] && s.accepted == s.loop.delivered + s.cache.queue)
          || (&& |s.loop.delivered| < |s.accepted|
              && s.loop.tasks == [Deliver(s.accepted[|s.loop.delivered|]), Poll]))
  {
    RunInv(cfg, exact, w, acts);
    InFlightBound(cfg, exact, w, acts);
    OneRunState(cfg, After(cfg, w, acts));
  }

  lemma {:induction false} CallsOfWellFormed(b: Bindings, ms: seq<Msg>)
    requires AllWellFormed(ms)
    ensures UnknownType !in CallsOf(b, ms) && NullBook !in CallsOf(b, ms)
  {
    if ms != [] {
      CallsOfWellFormed(b, ButLast(ms));
      assert WellFormed(ms[|ms| - 1]);
    }
  }

  lemma WellFormedParts(a: seq<Msg>, b: seq<Msg>)
    requires AllWellFormed(a + b)
    ensures AllWellFormed(a) && AllWellFormed(b)
  {
    assert forall i :: 0 <= i < |a| ==> a[i] == (a + b)[i];
    assert forall i :: 0 <= i < |b| ==> b[i] == (a + b)[|a| + i];
  }

  /** Every queued or pending message is a non-null order book from REST or WebSocket, so no
      cast yields null and the "Unknown message type" branch is never taken. */
  lemma NoUnknownMessage(cfg: Config, exact: bool, w: uint64, acts: seq<Action>)
    requires Run(cfg, exact, w, acts)
    ensures
      var s := After(cfg, w, acts);
      && AllWellFormed(s.cache.queue) && AllWellFormed(Pending(s.loop.tasks))
      && UnknownType !in s.loop.calls && NullBook !in s.loop.calls
  {
    RunInv(cfg, exact, w, acts);
    var s := After(cfg, w, acts);
    WellFormedParts(s.loop.delivered + Pending(s.loop.tasks), s.cache.queue);
    WellFormedParts(s.loop.delivered, Pending(s.loop.tasks));
    CallsOfWellFormed(cfg.bound, s.loop.delivered);
  }

  /** The callback that a well-formed message is due. */
  function CallFor(m: Msg): Call
    requires m.data.Some?
  {
    if m.source == WebSocket then OnOrderBookWS(m.data.value) else OnOrderBookREST(m.data.value)
  }

  lemma {:induction false} OneCallEach(ms: seq<Msg>)
    requires AllWellFormed(ms)
    ensures |CallsOf(Bindings(true, true), ms)| == |ms|
    ensures forall i :: 0 <= i < |ms| ==> CallsOf(Bindings(true, true), ms)[i] == CallFor(ms[i])
  {
    if ms != [] {
      OneCallEach(ButLast(ms));
      assert WellFormed(ms[|ms| - 1]);
    }
  }

  /** With both callbacks bound, as `Client::setup` leaves them, the i-th callback is made for the
      i-th accepted message and is the one for its source. */
  lemma CallbacksFollowAcceptance(cfg: Config, exact: bool, w: uint64, acts: seq<Action>)
    requires Run(cfg, exact, w, acts) && cfg.bound == Bindings(true, true)
    ensures
      var s := After(cfg, w, acts);
      && |s.loop.calls| == |s.loop.delivered| <= |s.accepted|
      && forall i :: 0 <= i < |s.loop.calls| ==>
           s.accepted[i].data.Some? && s.loop.calls[i] == CallFor(s.accepted[i])
  {
    RunInv(cfg, exact, w, acts);
    var s := After(cfg, w, acts);
    assert forall i :: 0 <= i < |s.loop.delivered| ==> s.loop.delivered[i] == s.accepted[i];
    assert forall i :: 0 <= i < |s.accepted| ==> WellFormed(s.accepted[i]);
    OneCallEach(s.loop.delivered);
  }

  /** The order books passed to the WebSocket callback. */
  function WebSocketBooks(calls: seq<Call>): seq<OrderBook> {
    if calls == [] then []
    else if Last(calls).OnOrderBookWS? then WebSocketBooks(ButLast(calls)) + [Last(calls).book]
    else WebSocketBooks(ButLast(calls))
  }

  function BooksOf(ms: seq<Msg>): seq<OrderBook>
    requires forall i :: 0 <= i < |ms| ==> ms[i].data.Some?
  {
    seq(|ms|, i requires 0 <= i < |ms| => ms[i].data.value)
  }

  lemma {:induction false} WebSocketOnlyKeepsForm(ms: seq<Msg>)
    requires AllWellFormed(ms)
    ensures AllWellFormed(WebSocketOnly(ms))
  {
    if ms != [] {
      WebSocketOnlyKeepsForm(ButLast(ms));
      assert WellFormed(ms[|ms| - 1]);
    }
  }

  lemma {:induction false} WebSocketCalls(b: Bindings, ms: seq<Msg>)
    requires b.ws && AllWellFormed(ms)
    ensures AllWellFormed(WebSocketOnly(ms))
    ensures WebSocketBooks(CallsOf(b, ms)) == BooksOf(WebSocketOnly(ms))
  {
    WebSocketOnlyKeepsForm(ms);
    if ms != [] {
      var init, last := ButLast(ms), Last(ms);
      WebSocketCalls(b, init);
      assert WellFormed(ms[|ms| - 1]);
      var call := OnData(b, last);
      if call == [] {
        assert CallsOf(b, ms) == CallsOf(b, init);
      } else {
        assert CallsOf(b, ms) == CallsOf(b, init) + [call[0]];
        AppendParts(CallsOf(b, init), call[0]);
      }
    }
  }

  /** `s` is what the cache calls `es` made of a cache that started as `start`. */
  ghost predicate Explains(cfg: Config, exact: bool, start: CacheState, es: seq<Event>, s: Sys) {
    && s.cache == CacheSpec.After(start, es)
    && s.accepted == AcceptedMsgs(start, es)
    && CacheSpec.Run(cfg.limit, exact, start, es)
  }

  lemma CallExplained(cfg: Config, exact: bool, start: CacheState, es: seq<Event>, s: Sys, a: Action, e: Event)
    requires Explains(cfg, exact, start, es, s) && Possible(cfg, exact, s, a) && EventsOf(cfg, s, a) == [e]
    ensures Explains(cfg, exact, start, es + [e], Apply(cfg, s, a))
  {
    assert e in EventsOf(cfg, s, a);
    ExtendCalls(cfg.limit, exact, start, es, e);
  }

  lemma ActionExplained(cfg: Config, exact: bool, start: CacheState, es: seq<Event>, s: Sys, a: Action)
    requires Explains(cfg, exact, start, es, s) && Possible(cfg, exact, s, a)
    ensures Explains(cfg, exact, start, es + EventsOf(cfg, s, a), Apply(cfg, s, a))
  {
    var now := EventsOf(cfg, s, a);
    if now == [] {
      assert es + now == es;
    } else {
      assert now == [now[0]];
      CallExplained(cfg, exact, start, es, s, a, now[0]);
    }
  }

  /** The cache part of a run is the run of its cache calls. */
  lemma {:induction false} CacheFollowsEvents(cfg: Config, exact: bool, w: uint64, acts: seq<Action>)
    requires Run(cfg, exact, w, acts)
    ensures Explains(cfg, exact, CacheState(w, []), Events(cfg, w, acts), After(cfg, w, acts))
    decreases |acts|
  {
    if acts != [] {
      var init := ButLast(acts);
      CacheFollowsEvents(cfg, exact, w, init);
      ActionExplained(cfg, exact, CacheState(w, []), Events(cfg, w, init), After(cfg, w, init), Last(acts));
    }
  }

  /** The WebSocket messages that handler `h` is done with, in order. */
  function OffersFrom(cfg: Config, done: seq<Done>, h: nat): seq<Msg> {
    if done == [] then []
    else if Last(done).arrival.from == h && Last(done).arrival.source == WebSocket then
      OffersFrom(cfg, ButLast(done), h) + [MsgOf(cfg, Last(done).arrival)]
    else OffersFrom(cfg, ButLast(done), h)
  }

  /** A message that handler `h` offered is that of one of its WebSocket arrivals. */
  lemma {:induction false} OfferedArrival(cfg: Config, done: seq<Done>, h: nat, m: Msg) returns (k: nat)
    requires m in OffersFrom(cfg, done, h)
    ensures k < |done| && done[k].arrival.source == WebSocket && MsgOf(cfg, done[k].arrival) == m
    decreases |done|
  {
    if m in OffersFrom(cfg, ButLast(done), h) {
      k := OfferedArrival(cfg, ButLast(done), h, m);
    } else {
      k := |done| - 1;
    }
  }

  /** No new WebSocket message was refused. */
  predicate NoneRefused(done: seq<Done>) {
    done == [] || (NoneRefused(ButLast(done)) && (Last(done).arrival.source == WebSocket ==> !Last(done).refused))
  }

  /** Cache calls and arrivals tell the same story. */
  ghost predicate SameOffers(cfg: Config, start: CacheState, es: seq<Event>, done: seq<Done>) {
    && (forall h :: FromReplica(es, h) == OffersFrom(cfg, done, h))
    && (Unrefused(start, es) <==> NoneRefused(done))
  }

  lemma ArrivalOffers(cfg: Config, start: CacheState, es: seq<Event>, done: seq<Done>, s: Sys,
                      arrival: Arrival, room: bool)
    requires SameOffers(cfg, start, es, done) && s.cache == CacheSpec.After(start, es)
    ensures SameOffers(cfg, start, es + EventsOf(cfg, s, Data(arrival, room)),
                       done + DoneBy(cfg, s, Data(arrival, room)))
  {
    var m, d := MsgOf(cfg, arrival), DoneBy(cfg, s, Data(arrival, room))[0];
    CreatedMessages(cfg.parse, arrival.source, OrderBookType, arrival.symbol, arrival.text);
    AppendParts(done, d);
    assert done + DoneBy(cfg, s, Data(arrival, room)) == done + [d];
    if Valid(m) {
      var e := Offer(arrival.from, m, room);
      AppendParts(es, e);
      forall h
        ensures FromReplica(es + [e], h) == OffersFrom(cfg, done + [d], h)
      {
        assert FromReplica(es, h) == OffersFrom(cfg, done, h);
      }
    } else {
      assert es + [] == es;
      forall h
        ensures FromReplica(es, h) == OffersFrom(cfg, done + [d], h)
      {
        assert FromReplica(es, h) == OffersFrom(cfg, done, h);
      }
    }
  }

  lemma OtherActionOffers(cfg: Config, start: CacheState, es: seq<Event>, done: seq<Done>, s: Sys, a: Action)
    requires SameOffers(cfg, start, es, done) && !a.Data?
    ensures SameOffers(cfg, start, es + EventsOf(cfg, s, a), done + DoneBy(cfg, s, a))
  {
    var now := EventsOf(cfg, s, a);
    assert done + DoneBy(cfg, s, a) == done;
    if now == [] {
      assert es + now == es;
    } else {
      assert es + now == es + [now[0]];
      AppendParts(es, now[0]);
      forall h
        ensures FromReplica(es + [now[0]], h) == OffersFrom(cfg, done, h)
      {
        assert FromReplica(es, h) == OffersFrom(cfg, done, h);
      }
    }
  }

  /** The cache calls of a run are those of its arrivals. */
  lemma {:induction false} CallsAreOfArrivals(cfg: Config, exact: bool, w: uint64, acts: seq<Action>)
    requires Run(cfg, exact, w, acts)
    ensures SameOffers(cfg, CacheState(w, []), Events(cfg, w, acts), DoneOf(cfg, w, acts))
    decreases |acts|
  {
    if acts != [] {
      var init, last := ButLast(acts), Last(acts);
      var start, es, done := CacheState(w, []), Events(cfg, w, init), DoneOf(cfg, w, init);
      CallsAreOfArrivals(cfg, exact, w, init);
      CacheFollowsEvents(cfg, exact, w, init);
      match last {
        case Data(arrival, room) => ArrivalOffers(cfg, start, es, done, After(cfg, w, init), arrival, room);
        case _ => OtherActionOffers(cfg, start, es, done, After(cfg, w, init), last);
      }
    }
  }

  /** The numbers in the WebSocket callback's books are there and strictly increasing. */
  ghost predicate BooksIncrease(books: seq<OrderBook>) {
    && (forall i :: 0 <= i < |books| ==> books[i].u.Some?)
    && (forall i, j :: 0 <= i < j < |books| ==> books[i].u.value < books[j].u.value)
  }

  /** The delivered WebSocket messages are the first of the accepted ones. */
  lemma DeliveredAreFirst(cfg: Config, starts: nat, s: Sys)
    requires Inv(cfg, starts, s)
    ensures WebSocketOnly(s.loop.delivered) <= WebSocketOnly(s.accepted)
    ensures AllWellFormed(s.loop.delivered) && AllWellFormed(WebSocketOnly(s.accepted))
  {
    var rest := Pending(s.loop.tasks) + s.cache.queue;
    assert s.accepted == s.loop.delivered + rest;
    WebSocketOnlyConcat(s.loop.delivered, rest);
    WebSocketOnlyKeepsForm(s.accepted);
    WellFormedParts(s.loop.delivered, rest);
  }

  /** The books passed to the WebSocket callback are those of the first accepted messages. */
  lemma CallbacksAreFirstAccepted(cfg: Config, exact: bool, w: uint64, acts: seq<Action>)
    requires Run(cfg, exact, w, acts) && cfg.bound.ws
    ensures
      var s := After(cfg, w, acts);
      && WebSocketOnly(s.loop.delivered) <= WebSocketOnly(s.accepted)
      && AllWellFormed(WebSocketOnly(s.loop.delivered))
      && WebSocketBooks(s.loop.calls) == BooksOf(WebSocketOnly(s.loop.delivered))
  {
    RunInv(cfg, exact, w, acts);
    DeliveredAreFirst(cfg, Starts(acts), After(cfg, w, acts));
    WebSocketCalls(cfg.bound, After(cfg, w, acts).loop.delivered);
  }

  /** End-to-end order: whatever the REST traffic, the interleaving of replicas, the starting
      watermark and the refusals, the `U` values passed to the WebSocket callback are strictly
      increasing and above the starting watermark, so none is delivered twice. */
  lemma EndToEndOrder(cfg: Config, exact: bool, w: uint64, acts: seq<Action>)
    requires Run(cfg, exact, w, acts) && cfg.bound.ws
    ensures
      var books := WebSocketBooks(After(cfg, w, acts).loop.calls);
      BooksIncrease(books) && forall i :: 0 <= i < |books| ==> w < books[i].u.value
  {
    var s := After(cfg, w, acts);
    CallbacksAreFirstAccepted(cfg, exact, w, acts);
    CacheFollowsEvents(cfg, exact, w, acts);
    AcceptedNumbersIncrease(CacheState(w, []), Events(cfg, w, acts));
    var all, done := WebSocketOnly(s.accepted), WebSocketOnly(s.loop.delivered);
    assert forall i :: 0 <= i < |done| ==> done[i] == all[i];
  }

  /** End-to-end replica merge: when the handlers offer prefixes of one stream and no WebSocket
      message is refused, the accepted WebSocket messages are the longest prefix offered, and
      the callback has been given the books of a prefix of the stream, each once and in order. */
  lemma EndToEndMerge(cfg: Config, exact: bool, w: uint64, acts: seq<Action>, stream: seq<Msg>)
    requires Run(cfg, exact, w, acts) && cfg.bound.ws
    requires NumbersIncrease(stream) && NumbersAbove(w, stream)
    requires ReplicasOf(CacheState(w, []), Events(cfg, w, acts), stream)
    ensures
      var s, n := After(cfg, w, acts), Longest(Events(cfg, w, acts));
      && n <= |stream|
      && WebSocketOnly(s.accepted) == stream[..n]
      && WebSocketBooks(s.loop.calls) <= BooksOf(stream)
      && |WebSocketBooks(s.loop.calls)| <= n
  {
    CacheFollowsEvents(cfg, exact, w, acts);
    MergeReplicas(CacheState(w, []), Events(cfg, w, acts), stream);
    CallbacksAreFirstAccepted(cfg, exact, w, acts);
  }

  /** End-to-end with losses: when every WebSocket message offered is one of the stream, what is
      accepted is the stream with elements left out, and so are the messages already delivered. */
  lemma EndToEndLossy(cfg: Config, exact: bool, w: uint64, acts: seq<Action>, stream: seq<Msg>)
    requires Run(cfg, exact, w, acts) && NumbersIncrease(stream)
    requires forall i :: 0 <= i < |Events(cfg, w, acts)| ==>
      var e := Events(cfg, w, acts)[i];
      e.Offer? && e.m.source == WebSocket ==> e.m in stream
    ensures Subsequence(WebSocketOnly(After(cfg, w, acts).accepted), stream)
    ensures WebSocketOnly(After(cfg, w, acts).loop.delivered) <= WebSocketOnly(After(cfg, w, acts).accepted)
  {
    CacheFollowsEvents(cfg, exact, w, acts);
    LossyReplicas(CacheState(w, []), Events(cfg, w, acts), stream);
    RunInv(cfg, exact, w, acts);
    DeliveredAreFirst(cfg, Starts(acts), After(cfg, w, acts));
  }

  // ----- draining -----

  /** `n` turns of the loop while the producer is quiet and every dequeue is exact. */
  function Drain(cfg: Config, s: Sys, n: nat): Sys {
    if n == 0 then s
    else
      var before := Drain(cfg, s, n - 1);
      Apply(cfg, before, Execute(before.cache.queue != []))
  }

  /** The actions `acts`, which led to `s`, and those turns. */
  function Draining(cfg: Config, acts: seq<Action>, s: Sys, n: nat): seq<Action> {
    if n == 0 then acts
    else Draining(cfg, acts, s, n - 1) + [Execute(Drain(cfg, s, n - 1).cache.queue != [])]
  }

  /** A turn with an exact answer is possible, and no arrival is done with. */
  lemma OneMoreTurn(cfg: Config, exact: bool, w: uint64, acts: seq<Action>, s: Sys)
    requires Run(cfg, exact, w, acts) && After(cfg, w, acts) == s
    ensures
      var turn := Execute(s.cache.queue != []);
      && Run(cfg, exact, w, acts + [turn]) && After(cfg, w, acts + [turn]) == Apply(cfg, s, turn)
      && DoneOf(cfg, w, acts + [turn]) == DoneOf(cfg, w, acts)
  {
    ExtendRun(cfg, exact, w, acts, Execute(s.cache.queue != []));
    assert DoneOf(cfg, w, acts) + [] == DoneOf(cfg, w, acts);
  }

  /** The run `acts'` has come to `s'`, done with the same arrivals as `acts`. */
  ghost predicate Extends(cfg: Config, exact: bool, w: uint64, acts: seq<Action>, acts': seq<Action>, s': Sys) {
    Run(cfg, exact, w, acts') && After(cfg, w, acts') == s' && DoneOf(cfg, w, acts') == DoneOf(cfg, w, acts)
  }

  lemma ExtendsOneTurn(cfg: Config, exact: bool, w: uint64, acts: seq<Action>, acts': seq<Action>, s': Sys)
    requires Extends(cfg, exact, w, acts, acts', s')
    ensures Extends(cfg, exact, w, acts, acts' + [Execute(s'.cache.queue != [])],
                    Apply(cfg, s', Execute(s'.cache.queue != [])))
  {
    OneMoreTurn(cfg, exact, w, acts', s');
  }

  /** These turns are possible in every run, and lead to what `Drain` says. */
  lemma {:induction false} DrainingDrains(cfg: Config, exact: bool, w: uint64, acts: seq<Action>, s: Sys, n: nat)
    requires Extends(cfg, exact, w, acts, acts, s)
    ensures Extends(cfg, exact, w, acts, Draining(cfg, acts, s, n), Drain(cfg, s, n))
    decreases n
  {
    if n > 0 {
      DrainingDrains(cfg, exact, w, acts, s, n - 1);
      ExtendsOneTurn(cfg, exact, w, acts, Draining(cfg, acts, s, n - 1), Drain(cfg, s, n - 1));
    }
  }

  function Measure(s: Sys): nat {
    2 * |s.cache.queue| + |Pending(s.loop.tasks)|
  }

  /** One turn lowers the measure by exactly one until it is zero, and accepts nothing. */
  lemma TurnLowersMeasure(cfg: Config, s: Sys)
    requires Inv(cfg, 1, s)
    ensures
      var s' := Apply(cfg, s, Execute(s.cache.queue != []));
      && Inv(cfg, 1, s')
      && s'.accepted == s.accepted
      && Measure(s') == if Measure(s) == 0 then 0 else Measure(s) - 1
  {
    var hit := s.cache.queue != [];
    var s' := Apply(cfg, s, Execute(hit));
    ExecuteKeepsInv(cfg, 1, s, hit);
    ShapeOfOneRun(s.loop.tasks);
    PendingOfOne(Poll);
    if s.loop.tasks == [Poll] {
      if hit {
        assert s'.loop.tasks == [Deliver(s.cache.queue[0]), Poll];
        PollDelivers(s.cache.queue);
      } else {
        assert s'.loop.tasks == [Poll];
      }
    } else {
      PendingOfFront(s.loop.tasks);
      assert s'.loop.tasks == [Poll];
    }
  }

  lemma {:induction false} DrainLowersMeasure(cfg: Config, s: Sys, n: nat)
    requires Inv(cfg, 1, s)
    ensures Inv(cfg, 1, Drain(cfg, s, n))
    ensures Drain(cfg, s, n).accepted == s.accepted
    ensures Measure(Drain(cfg, s, n)) == if n <= Measure(s) then Measure(s) - n else 0
  {
    if n > 0 {
      DrainLowersMeasure(cfg, s, n - 1);
      TurnLowersMeasure(cfg, Drain(cfg, s, n - 1));
    }
  }

  /** With one `run()` and a quiet producer, everything accepted has been delivered after
      exactly 2 * (queue length) + (pending deliveries) turns, and not before. */
  lemma DrainsInExactly(cfg: Config, exact: bool, w: uint64, acts: seq<Action>, n: nat)
    requires Run(cfg, exact, w, acts) && Starts(acts) == 1
    ensures
      var s := After(cfg, w, acts);
      Drain(cfg, s, n).loop.delivered == s.accepted <==> n >= Measure(s)
  {
    var s := After(cfg, w, acts);
    RunInv(cfg, exact, w, acts);
    DrainLowersMeasure(cfg, s, n);
    var d := Drain(cfg, s, n);
    assert |s.accepted| == |d.loop.delivered| + |Pending(d.loop.tasks)| + |d.cache.queue|;
    if n >= Measure(s) {
      assert d.loop.delivered == s.accepted;
    }
  }
}
