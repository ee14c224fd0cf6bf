/**
  `Cache` (src/cache.cpp) as a filter in front of the queue, on values: what any sequence of
  `encache` and `decache` calls does to the watermark and the queue.
 */
module CacheSpec {
  import opened Bits
  import opened Messages
  import opened Seqs
  import opened Watermark

  datatype CacheState = CacheState(watermark: uint64, queue: seq<Msg>)

  /** `Duplicate` and `Full` are the two ways to return false; `Thrown` is the exception of
      converting a missing or non-numeric `U`. */
  datatype Outcome = Accepted | Duplicate | Full | Thrown

  /** `encache` dereferences the data, so its callers must pass a message that has some. */
  type LiveMsg = m: Msg | m.data.Some? witness Msg(NoType, NoSource, Options.Some(OrderBook("", "", Options.None)))

  predicate IsNumbered(m: Msg) {
    m.source == WebSocket && m.data.Some? && m.data.value.u.Some?
  }

  function U(m: Msg): uint64
    requires IsNumbered(m)
  {
    m.data.value.u.value
  }

  /** The watermark moves before the queue is asked for room. */
  function Encache(s: CacheState, m: LiveMsg, room: bool): (CacheState, Outcome) {
    if m.source == WebSocket && m.data.value.u.None? then (s, Thrown)
    else if m.source == WebSocket && U(m) <= s.watermark then (s, Duplicate)
    else
      var w := if m.source == WebSocket then U(m) else s.watermark;
      if room then (CacheState(w, s.queue + [m]), Accepted) else (CacheState(w, s.queue), Full)
  }

  /** One call. `room` and `hit` are what the queue answers; see `Answers`. `from` tells
      which connection handler the message came from. */
  datatype Event =
    | Offer(from: nat, m: LiveMsg, room: bool)
    | Take(hit: bool)

  /** What a queue of at most `limit` items may answer: true only when there is room,
      respectively an item, and when `exact` also whenever there is. */
  ghost predicate Answers(limit: int, exact: bool, q: seq<Msg>, e: Event) {
    match e
    case Offer(_, _, room) => (room ==> |q| < limit) && (exact && |q| < limit ==> room)
    case Take(hit) => (hit ==> q != []) && (exact && q != [] ==> hit)
  }

  function Step(s: CacheState, e: Event): CacheState {
    match e
    case Offer(_, m, room) => Encache(s, m, room).0
    case Take(hit) => if hit && s.queue != [] then s.(queue := s.queue[1..]) else s
  }

  function After(s: CacheState, es: seq<Event>): CacheState {
    if es == [] then s else Step(After(s, ButLast(es)), Last(es))
  }

  ghost predicate Run(limit: int, exact: bool, s: CacheState, es: seq<Event>) {
    es == [] || (Run(limit, exact, s, ButLast(es)) && Answers(limit, exact, After(s, ButLast(es)).queue, Last(es)))
  }

  /** One more call at the end of a sequence of calls. */
  lemma ExtendCalls(limit: int, exact: bool, s: CacheState, es: seq<Event>, e: Event)
    requires Run(limit, exact, s, es) && Answers(limit, exact, After(s, es).queue, e)
    ensures Run(limit, exact, s, es + [e])
    ensures After(s, es + [e]) == Step(After(s, es), e)
    ensures AcceptedMsgs(s, es + [e])
         == if Accepts(After(s, es), e) then AcceptedMsgs(s, es) + [e.m] else AcceptedMsgs(s, es)
  {
    AppendParts(es, e);
  }

  predicate Accepts(s: CacheState, e: Event) {
    e.Offer? && Encache(s, e.m, e.room).1 == Accepted
  }

  /** A WebSocket message that is not a duplicate meets a queue that returns false. */
  predicate RefusesNew(s: CacheState, e: Event) {
    e.Offer? && e.m.source == WebSocket && Encache(s, e.m, e.room).1 == Full
  }

  /** No WebSocket message was lost to the queue; duplicates may have met a full one. */
  predicate Unrefused(s: CacheState, es: seq<Event>) {
    es == [] || (Unrefused(s, ButLast(es)) && !RefusesNew(After(s, ButLast(es)), Last(es)))
  }

  /** The messages for which `encache` returned true. */
  function AcceptedMsgs(s: CacheState, es: seq<Event>): seq<Msg> {
    if es == [] then []
    else if Accepts(After(s, ButLast(es)), Last(es)) then AcceptedMsgs(s, ButLast(es)) + [Last(es).m]
    else AcceptedMsgs(s, ButLast(es))
  }

  /** The messages handed out by `decache`. */
  function Taken(s: CacheState, es: seq<Event>): seq<Msg> {
    if es == [] then []
    else
      var mid := After(s, ButLast(es));
      if Last(es).Take? && Last(es).hit && mid.queue != [] then Taken(s, ButLast(es)) + [mid.queue[0]]
      else Taken(s, ButLast(es))
  }

  /** The sequence numbers of the WebSocket messages offered, accepted or not. */
  function OfferedNumbers(es: seq<Event>): seq<uint64> {
    if es == [] then []
    else if Last(es).Offer? && IsNumbered(Last(es).m) then OfferedNumbers(ButLast(es)) + [U(Last(es).m)]
    else OfferedNumbers(ButLast(es))
  }

  function WebSocketOnly(ms: seq<Msg>): seq<Msg> {
    if ms == [] then []
    else if Last(ms).source == WebSocket then WebSocketOnly(ButLast(ms)) + [Last(ms)]
    else WebSocketOnly(ButLast(ms))
  }

  lemma WebSocketOnlyAppend(ms: seq<Msg>, m: Msg)
    ensures WebSocketOnly(ms + [m]) == if m.source == WebSocket then WebSocketOnly(ms) + [m] else WebSocketOnly(ms)
  {
    AppendParts(ms, m);
  }

  lemma {:induction false} WebSocketOnlyConcat(a: seq<Msg>, b: seq<Msg>)
    ensures WebSocketOnly(a + b) == WebSocketOnly(a) + WebSocketOnly(b)
    decreases |b|
  {
    if b == [] {
      assert a + b == a;
    } else {
      ConcatParts(a, b);
      WebSocketOnlyConcat(a, ButLast(b));
      Regroup(WebSocketOnly(a), WebSocketOnly(ButLast(b)), [Last(b)]);
    }
  }

  // ----- exact characterisation -----

  /** Whatever the queue answers, the watermark is driven by the offered numbers alone: a
      message lost to a full queue has used up its number. */
  lemma {:induction false} WatermarkIsFinal(s: CacheState, es: seq<Event>)
    ensures After(s, es).watermark == Final(s.watermark, OfferedNumbers(es))
    decreases |es|
  {
    if es != [] {
      WatermarkIsFinal(s, ButLast(es));
      var init := OfferedNumbers(ButLast(es));
      if Last(es).Offer? && IsNumbered(Last(es).m) {
        AppendParts(init, U(Last(es).m));
      }
    }
  }

  /** After any sequence of calls the watermark is the maximum of its start value and all
      offered WebSocket numbers. */
  lemma {:induction false} WatermarkIsMaximum(s: CacheState, es: seq<Event>)
    ensures IsMaximum(After(s, es).watermark, s.watermark, OfferedNumbers(es))
  {
    WatermarkIsFinal(s, es);
    FinalIsMaximum(s.watermark, OfferedNumbers(es));
  }

  lemma {:induction false} OfferedNumbersAre(es: seq<Event>, u: uint64)
    ensures u in OfferedNumbers(es) <==>
      exists i :: 0 <= i < |es| && es[i].Offer? && IsNumbered(es[i].m) && U(es[i].m) == u
    decreases |es|
  {
    if es != [] {
      var init, last := ButLast(es), Last(es);
      OfferedNumbersAre(init, u);
      if last.Offer? && IsNumbered(last.m) && U(last.m) == u {
        assert es[|es| - 1] == last;
      }
      if u in OfferedNumbers(init) {
        var i :| 0 <= i < |init| && init[i].Offer? && IsNumbered(init[i].m) && U(init[i].m) == u;
        assert es[i] == init[i];
      }
      if i :| 0 <= i < |es| && es[i].Offer? && IsNumbered(es[i].m) && U(es[i].m) == u && i < |init| {
        assert init[i] == es[i];
      }
    }
  }

  /** `encache` returned true at call i exactly when the queue had room and, for a WebSocket
      message, its number is there and exceeds the start value and every number offered before,
      including those that were refused. For a REST message room alone decides. */
  lemma AcceptedExactly(limit: int, s: CacheState, es: seq<Event>, i: nat)
    requires Run(limit, true, s, es) && i < |es| && es[i].Offer?
    ensures Accepts(After(s, es[..i]), es[i]) <==>
      && |After(s, es[..i]).queue| < limit
      && (es[i].m.source == WebSocket ==>
            && IsNumbered(es[i].m) && s.watermark < U(es[i].m)
            && forall j :: 0 <= j < i && es[j].Offer? && IsNumbered(es[j].m) ==> U(es[j].m) < U(es[i].m))
  {
    var before := es[..i];
    RunPrefix(limit, true, s, es, i);
    if IsNumbered(es[i].m) {
      WatermarkIsMaximum(s, before);
      var w, u := After(s, before).watermark, U(es[i].m);
      OfferedNumbersAre(before, w);
      forall j | 0 <= j < i && es[j].Offer? && IsNumbered(es[j].m)
        ensures U(es[j].m) <= w
      {
        assert before[j] == es[j];
        OfferedNumbersAre(before, U(es[j].m));
      }
    }
  }

  /** A WebSocket message was lost to the queue at call i exactly when its number was there and new, as
      for acceptance, and the queue did not answer that it had room. */
  lemma RefusedExactly(s: CacheState, es: seq<Event>, i: nat)
    requires i < |es| && es[i].Offer?
    ensures RefusesNew(After(s, es[..i]), es[i]) <==>
      && !es[i].room && IsNumbered(es[i].m) && s.watermark < U(es[i].m)
      && forall j :: 0 <= j < i && es[j].Offer? && IsNumbered(es[j].m) ==> U(es[j].m) < U(es[i].m)
  {
    var before := es[..i];
    if IsNumbered(es[i].m) {
      WatermarkIsMaximum(s, before);
      OfferedNumbersAre(before, After(s, before).watermark);
      forall j | 0 <= j < i && es[j].Offer? && IsNumbered(es[j].m)
        ensures U(es[j].m) <= After(s, before).watermark
      {
        assert before[j] == es[j];
        OfferedNumbersAre(before, U(es[j].m));
      }
    }
  }

  /** No message was lost exactly when none was at any of the calls. */
  lemma {:induction false} UnrefusedExactly(s: CacheState, es: seq<Event>)
    ensures Unrefused(s, es) <==> forall i :: 0 <= i < |es| ==> !RefusesNew(After(s, es[..i]), es[i])
    decreases |es|
  {
    if es != [] {
      var init := ButLast(es);
      UnrefusedExactly(s, init);
      assert es[..|es| - 1] == init;
      assert forall i :: 0 <= i < |init| ==> init[..i] == es[..i];
    }
  }

  /** One watermark serves all symbols. A numbered message that is new for its own symbol and
      finds room is accepted exactly when no other symbol has offered as great a number before. */
  lemma SharedWatermark(limit: int, s: CacheState, es: seq<Event>, i: nat)
    requires Run(limit, true, s, es) && i < |es| && es[i].Offer? && IsNumbered(es[i].m)
    requires |After(s, es[..i]).queue| < limit && s.watermark < U(es[i].m)
    requires forall j :: 0 <= j < i && es[j].Offer? && IsNumbered(es[j].m) && SameSymbol(es[j].m, es[i].m) ==>
      U(es[j].m) < U(es[i].m)
    ensures Accepts(After(s, es[..i]), es[i]) <==>
      forall j :: 0 <= j < i && es[j].Offer? && IsNumbered(es[j].m) && !SameSymbol(es[j].m, es[i].m) ==>
        U(es[j].m) < U(es[i].m)
  {
    AcceptedExactly(limit, s, es, i);
  }

  predicate SameSymbol(a: LiveMsg, b: LiveMsg) {
    a.data.value.symbol == b.data.value.symbol
  }

  /** Two subscribed symbols: the only message of the second one is dropped as a duplicate. */
  lemma OtherSymbolDropped() returns (es: seq<Event>)
    ensures Run(1023, true, CacheState(0, []), es) && |es| == 2 && es[0].Offer? && es[1].Offer?
    ensures !SameSymbol(es[0].m, es[1].m)
    ensures !Accepts(After(CacheState(0, []), es[..1]), es[1])
  {
    var btc := Msg(OrderBookType, WebSocket, Options.Some(OrderBook("btcusdt", "", Options.Some(9))));
    var eth := Msg(OrderBookType, WebSocket, Options.Some(OrderBook("ethusdt", "", Options.Some(5))));
    var e0, e1 := Offer(0, btc, true), Offer(1, eth, true);
    es := [e0, e1];
    assert btc.data.value.symbol[0] != eth.data.value.symbol[0];
    assert ButLast(es) == [e0] && ButLast([e0]) == [] && es[..1] == [e0];
    var s := CacheState(0, []);
    assert After(s, [e0]) == CacheState(9, [btc]);
    assert Run(1023, true, s, []);
    assert Run(1023, true, s, [e0]);
  }

  /** A number that has been offered is used up, also when its message was refused: no later
      message with that number, or a smaller one, is ever accepted, from whichever replica. */
  lemma OfferedOnceAndForAll(s: CacheState, es: seq<Event>, j: nat, i: nat)
    requires j < i < |es| && es[j].Offer? && es[i].Offer?
    requires IsNumbered(es[j].m) && IsNumbered(es[i].m) && U(es[i].m) <= U(es[j].m)
    ensures !Accepts(After(s, es[..i]), es[i])
  {
    assert es[..i][j] == es[j];
    OfferedNumbersAre(es[..i], U(es[j].m));
    WatermarkIsMaximum(s, es[..i]);
  }

  /** In every state with a full queue, and for every new message: it is refused, a `decache` makes
      room, and the copy that another replica offers then is refused as a duplicate. */
  lemma LostToFullQueue(limit: nat, s: CacheState, m: LiveMsg) returns (es: seq<Event>)
    requires limit >= 1 && |s.queue| == limit && IsNumbered(m) && s.watermark < U(m)
    ensures es == [Offer(0, m, false), Take(true), Offer(1, m, true)]
    ensures Run(limit, true, s, es) && |After(s, es[..2]).queue| < limit
    ensures AcceptedMsgs(s, es) == [] && After(s, es).queue == s.queue[1..]
  {
    var e0, e1, e2 := Offer(0, m, false), Take(true), Offer(1, m, true);
    es := [e0, e1, e2];
    assert [] + [e0] == [e0] && [e0] + [e1] == [e0, e1] && [e0, e1] + [e2] == es && es[..2] == [e0, e1];
    ExtendCalls(limit, true, s, [], e0);
    ExtendCalls(limit, true, s, [e0], e1);
    ExtendCalls(limit, true, s, [e0, e1], e2);
  }

  /** REST messages are not deduplicated: in every state with room for two, the same REST message
      offered twice is queued twice. */
  lemma RestMessageTwice(limit: int, s: CacheState, m: LiveMsg) returns (es: seq<Event>)
    requires |s.queue| + 2 <= limit && m.source == RestApi
    ensures es == [Offer(0, m, true), Offer(0, m, true)] && Run(limit, true, s, es)
    ensures AcceptedMsgs(s, es) == [m, m] && After(s, es).queue == s.queue + [m, m]
  {
    var e := Offer(0, m, true);
    es := [e, e];
    assert [] + [e] == [e];
    ExtendCalls(limit, true, s, [], e);
    assert After(s, [e]) == CacheState(s.watermark, s.queue + [m]);
    assert [e] + [e] == es && [m] + [m] == [m, m];
    ExtendCalls(limit, true, s, [e], e);
    assert s.queue + [m] + [m] == s.queue + [m, m];
  }

  lemma {:induction false} RunPrefix(limit: int, exact: bool, s: CacheState, es: seq<Event>, i: nat)
    requires Run(limit, exact, s, es) && i < |es|
    ensures Answers(limit, exact, After(s, es[..i]).queue, es[i])
    decreases |es|
  {
    if i == |es| - 1 {
      assert es[..i] == ButLast(es);
    } else {
      RunPrefix(limit, exact, s, ButLast(es), i);
      assert ButLast(es)[..i] == es[..i];
    }
  }

  /** Accepted messages leave in the order in which they were accepted, and the queue bound holds. */
  lemma {:induction false} QueueConservation(limit: int, exact: bool, s: CacheState, es: seq<Event>)
    requires Run(limit, exact, s, es) && |s.queue| <= limit
    ensures s.queue + AcceptedMsgs(s, es) == Taken(s, es) + After(s, es).queue
    ensures |After(s, es).queue| <= limit
    decreases |es|
  {
    if es != [] {
      var init := ButLast(es);
      QueueConservation(limit, exact, s, init);
      var q, a := After(s, init).queue, AcceptedMsgs(s, init);
      if Accepts(After(s, init), Last(es)) {
        assert s.queue + AcceptedMsgs(s, es) == (s.queue + a) + [Last(es).m];
        assert Taken(s, es) + After(s, es).queue == (Taken(s, init) + q) + [Last(es).m];
      } else {
        assert AcceptedMsgs(s, es) == a;
        assert Taken(s, es) + After(s, es).queue == Taken(s, init) + q;
      }
    }
  }

  // ----- order, loss and replicas -----

  ghost predicate NumbersIncrease(ms: seq<Msg>) {
    && (forall i :: 0 <= i < |ms| ==> IsNumbered(ms[i]))
    && (forall i, j :: 0 <= i < j < |ms| ==> U(ms[i]) < U(ms[j]))
  }

  ghost predicate NumbersAbove(w: uint64, ms: seq<Msg>) {
    forall i :: 0 <= i < |ms| ==> IsNumbered(ms[i]) && w < U(ms[i])
  }

  ghost predicate NumbersUpTo(w: uint64, ms: seq<Msg>) {
    forall i :: 0 <= i < |ms| ==> IsNumbered(ms[i]) && U(ms[i]) <= w
  }

  /** `ms` is increasing, above the start watermark and not above the present one. */
  ghost predicate WithinWatermarks(start: uint64, ms: seq<Msg>, w: uint64) {
    NumbersIncrease(ms) && NumbersAbove(start, ms) && NumbersUpTo(w, ms) && start <= w
  }

  lemma AppendAboveWatermark(start: uint64, ms: seq<Msg>, w: uint64, m: Msg)
    requires WithinWatermarks(start, ms, w) && IsNumbered(m) && w < U(m)
    ensures WithinWatermarks(start, ms + [m], U(m))
  {
  }

  /** One call keeps the accepted WebSocket messages `ms` within the watermarks. */
  lemma CallKeepsOrder(start: uint64, ms: seq<Msg>, mid: CacheState, e: Event)
    requires WithinWatermarks(start, ms, mid.watermark)
    ensures WithinWatermarks(start, if Accepts(mid, e) && e.m.source == WebSocket then ms + [e.m] else ms,
                             Step(mid, e).watermark)
  {
    if Accepts(mid, e) && e.m.source == WebSocket {
      AppendAboveWatermark(start, ms, mid.watermark, e.m);
    } else {
      assert mid.watermark <= Step(mid, e).watermark;
    }
  }

  /** The accepted WebSocket messages have strictly increasing numbers, all above the start
      watermark and up to the present one, however many offers were duplicates or lost. */
  lemma {:induction false} AcceptedNumbersIncrease(s: CacheState, es: seq<Event>)
    ensures WithinWatermarks(s.watermark, WebSocketOnly(AcceptedMsgs(s, es)), After(s, es).watermark)
    decreases |es|
  {
    if es != [] {
      var init := ButLast(es);
      AcceptedNumbersIncrease(s, init);
      CallKeepsOrder(s.watermark, WebSocketOnly(AcceptedMsgs(s, init)), After(s, init), Last(es));
      AcceptedByLast(s, es);
    }
  }

  function Numbers(ms: seq<Msg>): seq<uint64>
    requires forall i :: 0 <= i < |ms| ==> IsNumbered(ms[i])
  {
    seq(|ms|, i requires 0 <= i < |ms| => U(ms[i]))
  }

  predicate OffersNumber(e: Event) {
    e.Offer? && IsNumbered(e.m)
  }

  /** One unrefused call passes its number on exactly when the filter does. */
  lemma CallFilters(w: uint64, us: seq<uint64>, ms: seq<Msg>, mid: CacheState, e: Event)
    requires mid.watermark == Final(w, us) && !RefusesNew(mid, e)
    requires NumbersIncrease(ms) && Numbers(ms) == Filter(w, us)
    ensures Numbers(if Accepts(mid, e) && e.m.source == WebSocket then ms + [e.m] else ms)
         == Filter(w, if OffersNumber(e) then us + [U(e.m)] else us)
  {
    if OffersNumber(e) {
      AppendParts(us, U(e.m));
      if Accepts(mid, e) && e.m.source == WebSocket {
        assert Numbers(ms + [e.m]) == Numbers(ms) + [U(e.m)];
      }
    }
  }

  /** When no WebSocket message is refused, the accepted numbers are the filter of the offered
      ones, that is, their strict left-to-right maxima above the start watermark. */
  lemma {:induction false} AcceptedIsFilter(s: CacheState, es: seq<Event>)
    requires Unrefused(s, es)
    ensures NumbersIncrease(WebSocketOnly(AcceptedMsgs(s, es)))
    ensures Numbers(WebSocketOnly(AcceptedMsgs(s, es))) == Filter(s.watermark, OfferedNumbers(es))
    decreases |es|
  {
    AcceptedNumbersIncrease(s, es);
    if es != [] {
      var init, last := ButLast(es), Last(es);
      AcceptedIsFilter(s, init);
      WatermarkIsFinal(s, init);
      CallFilters(s.watermark, OfferedNumbers(init), WebSocketOnly(AcceptedMsgs(s, init)), After(s, init), last);
      AcceptedByLast(s, es);
    }
  }

  lemma AcceptedByLast(s: CacheState, es: seq<Event>)
    requires es != []
    ensures
      var before, mid, last := WebSocketOnly(AcceptedMsgs(s, ButLast(es))), After(s, ButLast(es)), Last(es);
      WebSocketOnly(AcceptedMsgs(s, es))
      == if Accepts(mid, last) && last.m.source == WebSocket then before + [last.m] else before
  {
    if Accepts(After(s, ButLast(es)), Last(es)) {
      WebSocketOnlyAppend(AcceptedMsgs(s, ButLast(es)), Last(es).m);
    }
  }

  /** `a` results from `b` by leaving out elements. */
  predicate Subsequence(a: seq<Msg>, b: seq<Msg>) {
    if a == [] then true
    else if b == [] then false
    else (Last(a) == Last(b) && Subsequence(ButLast(a), ButLast(b))) || Subsequence(a, ButLast(b))
  }

  /** What a subsequence is: its elements stand in `b` at increasing positions. */
  lemma {:induction false} SubsequencePositions(a: seq<Msg>, b: seq<Msg>) returns (at: seq<nat>)
    requires Subsequence(a, b)
    ensures |at| == |a| && (forall i :: 0 <= i < |a| ==> at[i] < |b| && b[at[i]] == a[i])
    ensures forall i, j :: 0 <= i < j < |a| ==> at[i] < at[j]
    decreases |b|
  {
    if a == [] {
      at := [];
    } else if Subsequence(a, ButLast(b)) {
      at := SubsequencePositions(a, ButLast(b));
    } else {
      at := SubsequencePositions(ButLast(a), ButLast(b));
      at := at + [|b| - 1];
    }
  }

  lemma {:induction false} IncreasingSubset(a: seq<Msg>, stream: seq<Msg>)
    requires NumbersIncrease(a) && NumbersIncrease(stream)
    requires forall i :: 0 <= i < |a| ==> a[i] in stream
    ensures Subsequence(a, stream)
    decreases |stream|
  {
    if a != [] {
      assert a[|a| - 1] in stream;
      var shorter := if Last(a) == Last(stream) then ButLast(a) else a;
      forall i | 0 <= i < |shorter|
        ensures shorter[i] in ButLast(stream)
      {
        BeforeLast(a, stream, i);
      }
      IncreasingSubset(shorter, ButLast(stream));
    }
  }

  /** Only the last of `a` can be the last of the stream. */
  lemma BeforeLast(a: seq<Msg>, stream: seq<Msg>, i: nat)
    requires NumbersIncrease(a) && NumbersIncrease(stream)
    requires i < |a| && a[i] in stream && Last(a) in stream
    requires i < |a| - 1 || Last(a) != Last(stream)
    ensures a[i] in ButLast(stream)
  {
    var k :| 0 <= k < |stream| && stream[k] == a[i];
    var l :| 0 <= l < |stream| && stream[l] == Last(a);
    assert i < |a| - 1 ==> U(stream[k]) < U(stream[l]);
    assert k < |stream| - 1;
    assert ButLast(stream)[k] == a[i];
  }

  lemma {:induction false} AcceptedWereOffered(s: CacheState, es: seq<Event>, m: Msg)
    requires m in WebSocketOnly(AcceptedMsgs(s, es))
    ensures exists i :: 0 <= i < |es| && es[i].Offer? && es[i].m == m && m.source == WebSocket
    decreases |es|
  {
    if es != [] {
      var init := ButLast(es);
      if Accepts(After(s, init), Last(es)) {
        WebSocketOnlyAppend(AcceptedMsgs(s, init), Last(es).m);
      }
      if m in WebSocketOnly(AcceptedMsgs(s, init)) {
        AcceptedWereOffered(s, init, m);
        var i :| 0 <= i < |init| && init[i].Offer? && init[i].m == m && m.source == WebSocket;
        assert es[i] == init[i];
      } else {
        assert es[|es| - 1].m == m;
      }
    }
  }

  /** Replicas that lose, repeat or reorder messages of one increasing stream, in any
      interleaving and with any losses to a full queue: what gets through is the stream with
      elements left out, in stream order and without repetition. */
  lemma LossyReplicas(s: CacheState, es: seq<Event>, stream: seq<Msg>)
    requires NumbersIncrease(stream)
    requires forall i :: 0 <= i < |es| && es[i].Offer? && es[i].m.source == WebSocket ==> es[i].m in stream
    ensures Subsequence(WebSocketOnly(AcceptedMsgs(s, es)), stream)
  {
    var a := WebSocketOnly(AcceptedMsgs(s, es));
    AcceptedNumbersIncrease(s, es);
    forall i | 0 <= i < |a|
      ensures a[i] in stream
    {
      AcceptedWereOffered(s, es, a[i]);
    }
    IncreasingSubset(a, stream);
  }

  /** The WebSocket messages that handler `r` offered, in order. */
  function FromReplica(es: seq<Event>, r: nat): seq<Msg> {
    if es == [] then []
    else if Last(es).Offer? && Last(es).from == r && Last(es).m.source == WebSocket then
      FromReplica(ButLast(es), r) + [Last(es).m]
    else FromReplica(ButLast(es), r)
  }

  lemma {:induction false} OfferIsFromReplica(es: seq<Event>, i: nat)
    requires i < |es| && es[i].Offer? && es[i].m.source == WebSocket
    ensures es[i].m in FromReplica(es, es[i].from)
    decreases |es|
  {
    if i < |es| - 1 {
      OfferIsFromReplica(ButLast(es), i);
    }
  }

  function Longest(es: seq<Event>): nat {
    if es == [] then 0
    else
      var before := Longest(ButLast(es));
      if Last(es).Offer? && |FromReplica(es, Last(es).from)| > before then |FromReplica(es, Last(es).from)|
      else before
  }

  /** `Longest` is the greatest number of messages that any one replica has offered. */
  lemma {:induction false} LongestIsGreatest(es: seq<Event>) returns (ahead: nat)
    ensures forall r :: |FromReplica(es, r)| <= Longest(es)
    ensures |FromReplica(es, ahead)| == Longest(es)
    decreases |es|
  {
    if es == [] {
      ahead := 0;
    } else {
      var init := ButLast(es);
      ahead := LongestIsGreatest(init);
      forall r
        ensures |FromReplica(es, r)| <= Longest(es)
      {
        assert |FromReplica(init, r)| <= Longest(init);
      }
      if Longest(es) != Longest(init) {
        ahead := Last(es).from;
      }
    }
  }

  /** Every handler has offered the first messages of `stream`, in order, and none was refused. */
  ghost predicate ReplicasOf(s: CacheState, es: seq<Event>, stream: seq<Msg>) {
    (forall r :: FromReplica(es, r) <= stream) && Unrefused(s, es)
  }

  /** The queued WebSocket messages are the longest offered prefix of the stream. */
  ghost predicate Merged(s: CacheState, es: seq<Event>, stream: seq<Msg>)
    requires NumbersIncrease(stream)
  {
    && Longest(es) <= |stream|
    && WebSocketOnly(AcceptedMsgs(s, es)) == stream[..Longest(es)]
    && After(s, es).watermark == if Longest(es) == 0 then s.watermark else U(stream[Longest(es) - 1])
  }

  /** The last offer is the next message of the stream for its replica. */
  lemma OfferIsNext(s: CacheState, es: seq<Event>, stream: seq<Msg>) returns (k: nat)
    requires es != [] && Last(es).Offer? && Last(es).m.source == WebSocket && ReplicasOf(s, es, stream)
    ensures k < |stream| && Last(es).m == stream[k]
    ensures k <= Longest(ButLast(es))
    ensures Longest(es) == if k == Longest(ButLast(es)) then k + 1 else Longest(ButLast(es))
  {
    var init, last := ButLast(es), Last(es);
    var _ := LongestIsGreatest(init);
    k := |FromReplica(init, last.from)|;
    assert FromReplica(es, last.from) == FromReplica(init, last.from) + [last.m];
    assert FromReplica(es, last.from) <= stream;
  }

  /** An offer by a replica that is ahead of all others is accepted, and others are duplicates. */
  lemma MergeOffer(s: CacheState, es: seq<Event>, stream: seq<Msg>)
    requires es != [] && Last(es).Offer? && Last(es).m.source == WebSocket
    requires NumbersIncrease(stream) && NumbersAbove(s.watermark, stream) && ReplicasOf(s, es, stream)
    requires Merged(s, ButLast(es), stream)
    ensures Merged(s, es, stream)
  {
    var k := OfferIsNext(s, es, stream);
    var mid := After(s, ButLast(es));
    if k == Longest(ButLast(es)) {
      assert mid.watermark < U(stream[k]);
      WebSocketOnlyAppend(AcceptedMsgs(s, ButLast(es)), Last(es).m);
      assert stream[..k + 1] == stream[..k] + [stream[k]];
    } else {
      assert U(stream[k]) <= mid.watermark;
    }
  }

  /** REST messages and `decache` do not matter. */
  lemma MergeOther(s: CacheState, es: seq<Event>, stream: seq<Msg>)
    requires es != [] && (Last(es).Offer? ==> Last(es).m.source != WebSocket)
    requires NumbersIncrease(stream) && Merged(s, ButLast(es), stream)
    ensures Merged(s, es, stream)
  {
    var init, last := ButLast(es), Last(es);
    if last.Offer? {
      var _ := LongestIsGreatest(init);
      WebSocketOnlyAppend(AcceptedMsgs(s, init), last.m);
      assert FromReplica(es, last.from) == FromReplica(init, last.from);
    }
  }

  /** Replica merge: any number of replicas, each offering a prefix of one stream of
      increasing numbers above the start watermark, in any interleaving with each other, with
      REST messages and with `decache`, and no refusal. The WebSocket messages queued are the
      longest prefix offered so far: each once and in order. */
  lemma {:induction false} MergeReplicas(s: CacheState, es: seq<Event>, stream: seq<Msg>)
    requires NumbersIncrease(stream) && NumbersAbove(s.watermark, stream)
    requires ReplicasOf(s, es, stream)
    ensures Merged(s, es, stream)
    decreases |es|
  {
    if es != [] {
      var init, last := ButLast(es), Last(es);
      ReplicasBefore(s, es, stream);
      MergeReplicas(s, init, stream);
      if last.Offer? && last.m.source == WebSocket {
        MergeOffer(s, es, stream);
      } else {
        MergeOther(s, es, stream);
      }
    }
  }

  lemma ReplicasBefore(s: CacheState, es: seq<Event>, stream: seq<Msg>)
    requires es != [] && ReplicasOf(s, es, stream)
    ensures ReplicasOf(s, ButLast(es), stream)
  {
    forall r
      ensures FromReplica(ButLast(es), r) <= stream
    {
      assert FromReplica(es, r) <= stream;
      assert FromReplica(ButLast(es), r) <= FromReplica(es, r);
    }
  }
}
