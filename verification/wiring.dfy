/**
  Who is connected to what: `ConnectionHandler` (include/connection.h), `ConnectionManager`
  (src/connection.cpp) and `Client` (src/client.cpp).
 */
module Wiring {
  import opened Bits
  import opened Messages
  import Options
  import opened Caches
  import opened EventLoop
  import opened Consumers
  import CacheSpec

  datatype Address = Address(host: string, port: string, endpoint: string)

  class ConnectionHandler {
    const isWebSocket: bool
    const symbol: string
    const ioc: nat              // which io_context it runs on
    var address: Address
    var interval: int
    var cache: Cache?
    var runs: nat               // how often run() was called

    constructor (isWebSocket: bool, symbol: string, ioc: nat)
      ensures this.isWebSocket == isWebSocket && this.symbol == symbol && this.ioc == ioc
      ensures address == Address("", "", "") && interval == 5 && cache == null && runs == 0
    {
      this.isWebSocket, this.symbol, this.ioc := isWebSocket, symbol, ioc;
      address, interval, cache, runs := Address("", "", ""), 5, null, 0;
    }

    method SetEndpoint(address: Address)
      modifies this`address
      ensures this.address == address
    {
      this.address := address;
    }

    method SetPollingInterval(seconds: int)
      modifies this`interval
      ensures interval == seconds
    {
      interval := seconds;
    }

    method BindCache(buffer: Cache)
      modifies this`cache
      ensures cache == buffer
    {
      cache := buffer;
    }

    method Run()
      modifies this`runs
      ensures runs == old(runs) + 1
    {
      runs := runs + 1;
    }

    function Parse(parse: Parser, text: string): Msg {
      CreateMsg(parse, if isWebSocket then WebSocket else RestApi, OrderBookType, symbol, text)
    }

    /** The validity gate in front of `encache`; every message that a handler parses passes it.
        `threw` tells that the exception of `encache` left the handler. */
    method OnData(parse: Parser, text: string) returns (threw: bool)
      requires cache != null && cache.Valid()
      modifies cache`watermark, cache.queue`tail, cache.queue.buffer
      ensures cache.Valid()
      ensures threw <==> isWebSocket && parse(text).None?
      ensures
        var source := if isWebSocket then WebSocket else RestApi;
        var msg := Msg(OrderBookType, source, Options.Some(OrderBook(symbol, text, parse(text))));
        var isNew := !isWebSocket || (parse(text).Some? && old(cache.watermark) < parse(text).value);
        && cache.State() == CacheSpec.Encache(old(cache.State()), msg, old(cache.HasRoom())).0
        && cache.State().queue == if old(cache.HasRoom()) && isNew then old(cache.State().queue) + [msg]
                                  else old(cache.State().queue)
    {
      var msg := Parse(parse, text);
      CreatedMessages(parse, msg.source, OrderBookType, symbol, text);
      threw := false;
      if Valid(msg) {
        var r := cache.Encache(msg);
        threw := r == Threw;
      }
    }
  }

  /** How often a loop from 0 up to `replicas` runs. */
  function Count(replicas: int): (n: nat)
    ensures n >= replicas && (n == replicas || n == 0)
  {
    if replicas > 0 then replicas else 0
  }

  class ConnectionManager {
    const symbol: string
    const ioc: nat
    const period: int
    var handlers: seq<ConnectionHandler>
    var buffer: Cache?

    /** No handler is listed twice. */
    ghost predicate Distinct()
      reads this
    {
      forall i, j :: 0 <= i < j < |handlers| ==> handlers[i] != handlers[j]
    }

    /** The handlers are `rest` REST handlers followed by WebSocket handlers, each with its
        address, on this manager's io_context. */
    ghost predicate Lists(rest: nat, restAddress: Address, wsAddress: Address)
      reads this, handlers
    {
      forall k :: 0 <= k < |handlers| ==>
        && handlers[k].isWebSocket == (k >= rest)
        && handlers[k].symbol == symbol && handlers[k].ioc == ioc
        && handlers[k].address == (if k >= rest then wsAddress else restAddress)
        && handlers[k].interval == (if k >= rest then 5 else period)
    }

    /** Every handler has the manager's cache. */
    ghost predicate Bound()
      reads this, handlers
    {
      forall k :: 0 <= k < |handlers| ==> handlers[k].cache == buffer
    }

    ghost predicate AllRun(n: nat)
      reads this, handlers
    {
      forall k :: 0 <= k < |handlers| ==> handlers[k].runs == n
    }

    constructor (symbol: string, ioc: nat, restAddress: Address, wsAddress: Address,
                 replicasRest: int, replicasWs: int, period: int)
      ensures this.symbol == symbol && this.ioc == ioc && this.period == period && buffer == null
      ensures |handlers| == Count(replicasRest) + Count(replicasWs)
      ensures Distinct() && Bound() && AllRun(0) && Lists(Count(replicasRest), restAddress, wsAddress)
      ensures forall k :: 0 <= k < |handlers| ==> fresh(handlers[k])
    {
      this.symbol, this.ioc, this.period := symbol, ioc, period;
      handlers, buffer := [], null;
      new;
      var i := 0;
      while i < replicasRest
        invariant 0 <= i <= Count(replicasRest) && |handlers| == i
        invariant buffer == null && Distinct() && Bound() && AllRun(0)
        invariant Lists(Count(replicasRest), restAddress, wsAddress)
        invariant forall k :: 0 <= k < |handlers| ==> fresh(handlers[k])
        modifies this
      {
        CreateConnection(restAddress, false);
        i := i + 1;
      }
      i := 0;
      while i < replicasWs
        invariant 0 <= i <= Count(replicasWs) && |handlers| == Count(replicasRest) + i
        invariant buffer == null && Distinct() && Bound() && AllRun(0)
        invariant Lists(Count(replicasRest), restAddress, wsAddress)
        invariant forall k :: 0 <= k < |handlers| ==> fresh(handlers[k])
        modifies this
      {
        CreateConnection(wsAddress, true);
        i := i + 1;
      }
    }

    /** Appends one new handler, not yet bound to a cache. */
    method CreateConnection(address: Address, isWebSocket: bool)
      modifies this`handlers
      ensures |handlers| == |old(handlers)| + 1 && handlers[..|old(handlers)|] == old(handlers)
      ensures
        var h := handlers[|old(handlers)|];
        && fresh(h) && h.isWebSocket == isWebSocket && h.symbol == symbol && h.ioc == ioc
        && h.address == address && h.interval == (if isWebSocket then 5 else period)
        && h.cache == null && h.runs == 0
    {
      var h := new ConnectionHandler(isWebSocket, symbol, ioc);
      h.SetEndpoint(address);
      if !isWebSocket {
        h.SetPollingInterval(period);
      }
      handlers := handlers + [h];
    }

    method BindCache(buffer: Cache)
      modifies this`buffer, handlers`cache
      ensures this.buffer == buffer && Bound()
    {
      this.buffer := buffer;
      for i := 0 to |handlers|
        invariant this.buffer == buffer
        invariant forall k :: 0 <= k < i ==> handlers[k].cache == buffer
      {
        handlers[i].BindCache(buffer);
      }
    }

    /** Every handler is run once. */
    method Run()
      requires Distinct()
      modifies handlers`runs
      ensures forall h :: h in handlers ==> h.runs == old(h.runs) + 1
    {
      for i := 0 to |handlers|
        invariant forall k :: 0 <= k < |handlers| ==>
          handlers[k].runs == old(handlers[k].runs) + (if k < i then 1 else 0)
      {
        handlers[i].Run();
      }
    }

    method GetCacheSize() returns (size: int)
      requires buffer != null ==> buffer.Valid()
      ensures size == if buffer == null then -1 else |buffer.State().queue|
    {
      if buffer == null {
        return -1;
      }
      size := buffer.Size();
    }
  }

  datatype Setup = Setup(
    hostRest: string, portRest: string, hostWs: string, portWs: string,
    replicasRest: int, replicasWs: int, period: int)

  datatype Subscription = Subscription(symbol: string, channel: string, limit: string)

  function RestAddress(s: Setup, sub: Subscription): Address {
    Address(s.hostRest, s.portRest,
            "/fapi/v1/" + sub.channel + "?symbol=" + sub.symbol + "&limit=" + sub.limit)
  }

  function WsAddress(s: Setup, sub: Subscription): Address {
    Address(s.hostWs, s.portWs, "/ws/" + sub.symbol + "@" + sub.channel + sub.limit)
  }

  /** The endpoints that the repository's README.md shows. */
  lemma DocumentedRestEndpoint(s: Setup)
    ensures RestAddress(s, Subscription("ethusdt", "depth", "20")).endpoint == "/fapi/v1/depth?symbol=ethusdt&limit=20"
  {
  }

  lemma DocumentedWsEndpoint(s: Setup)
    ensures WsAddress(s, Subscription("ethusdt", "depth", "20")).endpoint == "/ws/ethusdt@depth20"
  {
  }

  /** How many handlers one manager has. */
  function PerManager(s: Setup): nat {
    Count(s.replicasRest) + Count(s.replicasWs)
  }

  ghost function HandlerCount(ms: seq<ConnectionManager>): nat
    reads ms
  {
    if ms == [] then 0 else HandlerCount(ms[..|ms| - 1]) + |ms[|ms| - 1].handlers|
  }

  lemma {:induction false} EqualManagers(ms: seq<ConnectionManager>, n: nat)
    requires forall i :: 0 <= i < |ms| ==> |ms[i].handlers| == n
    ensures HandlerCount(ms) == |ms| * n
    decreases |ms|
  {
    if ms != [] {
      var init := ms[..|ms| - 1];
      EqualManagers(init, n);
      assert |ms| * n == |init| * n + n;
    }
  }

  class Client {
    const setup: Setup
    const subscriptions: seq<Subscription>
    const cache: Cache
    var instruments: nat
    var managers: seq<ConnectionManager>
    var consumer: Consumer?
    var threads: seq<nat>       // for each thread, the io_context it runs

    /** The manager of subscription `i`, made and bound by `setup`. */
    ghost predicate Wired(m: ConnectionManager, i: nat)
      reads m, m.handlers
      requires i < |subscriptions|
    {
      && m.symbol == subscriptions[i].symbol && m.ioc == i && m.period == setup.period
      && m.buffer == cache && |m.handlers| == PerManager(setup)
      && m.Distinct() && m.Bound() && m.AllRun(0)
      && m.Lists(Count(setup.replicasRest), RestAddress(setup, subscriptions[i]), WsAddress(setup, subscriptions[i]))
    }

    ghost predicate Separate(ms: seq<ConnectionManager>)
      reads ms
    {
      forall i, j :: 0 <= i < j < |ms| ==> ms[i] != ms[j] && forall h :: h in ms[i].handlers ==> h !in ms[j].handlers
    }

    constructor (setup: Setup, subscriptions: seq<Subscription>, uninitialised: uint64)
      ensures this.setup == setup && this.subscriptions == subscriptions
      ensures fresh(cache) && cache.Valid() && cache.queue.capacity == 1024
      ensures cache.State() == CacheSpec.CacheState(uninitialised, [])
      ensures managers == [] && consumer == null && threads == [] && instruments == 0
    {
      DefaultCapacity();
      var made := Cache.Make(1024, uninitialised);
      this.setup, this.subscriptions, this.cache := setup, subscriptions, made;
      instruments, managers, consumer, threads := 0, [], null, [];
    }

    /** One turn of the loop in `setup`. */
    method MakeManager(i: nat) returns (m: ConnectionManager)
      requires i < |subscriptions|
      ensures fresh(m) && (forall k :: 0 <= k < |m.handlers| ==> fresh(m.handlers[k]))
      ensures Wired(m, i)
    {
      var sub := subscriptions[i];
      m := new ConnectionManager(sub.symbol, i, RestAddress(setup, sub), WsAddress(setup, sub),
                                 setup.replicasRest, setup.replicasWs, setup.period);
      m.BindCache(cache);
    }

    /** The loop of `setup`: one new manager per subscription is pushed. */
    method PushManagers() returns (ghost made: seq<ConnectionManager>)
      modifies this`managers
      ensures managers == old(managers) + made && |made| == |subscriptions|
      ensures forall k :: 0 <= k < |made| ==> fresh(made[k]) && Wired(made[k], k)
      ensures Separate(made)
    {
      made := [];
      for i := 0 to |subscriptions|
        invariant |made| == i && managers == old(managers) + made
        invariant forall k :: 0 <= k < i ==> fresh(made[k]) && Wired(made[k], k)
        invariant Separate(made)
      {
        var m := MakeManager(i);
        managers := managers + [m];
        made := made + [m];
      }
    }

    /** One new manager per subscription, on its own io_context, every handler and the new
        consumer on the client's one cache, and both callbacks bound. */
    method SetUp() returns (ghost made: seq<ConnectionManager>)
      modifies this`instruments, this`managers, this`consumer
      ensures instruments == |subscriptions| == |made| && managers == old(managers) + made
      ensures forall k :: 0 <= k < |made| ==> fresh(made[k]) && Wired(made[k], k)
      ensures Separate(made) && HandlerCount(made) == |subscriptions| * PerManager(setup)
      ensures consumer != null && fresh(consumer) && consumer.cache == cache
      ensures consumer.Callbacks() == EventLoop.Bindings(true, true) && consumer.State() == Loop([], [], [])
    {
      instruments := |subscriptions|;
      made := PushManagers();
      EqualManagers(made, PerManager(setup));
      consumer := MakeConsumer();
    }

    method MakeConsumer() returns (made: Consumer)
      ensures fresh(made) && made.cache == cache
      ensures made.Callbacks() == EventLoop.Bindings(true, true) && made.State() == Loop([], [], [])
    {
      made := new Consumer();
      made.BindCache(cache);
      made.BindCallbackOnOrderBook(true);
      made.BindCallbackOnOrderBook(false);
    }

    ghost function AllHandlers(): set<ConnectionHandler>
      reads this, managers
    {
      set m, h | m in managers && h in m.handlers :: h
    }

    /** Every handler is run once, the consumer's first poll is posted, and one thread runs
        each io_context; the calling thread goes on to run the consumer's. */
    method Run()
      requires managers != [] && consumer != null && consumer.cache != null
      requires Separate(managers) && forall i :: 0 <= i < |managers| ==> managers[i].Distinct()
      modifies this`threads, consumer`tasks, AllHandlers()`runs
      ensures forall h :: h in AllHandlers() ==> h.runs == old(h.runs) + 1
      ensures consumer.tasks == old(consumer.tasks) + [Poll]
      ensures threads == old(threads) + seq(instruments, i => i)
    {
      RunManagers();
      consumer.Run();
      for i := 0 to instruments
        invariant threads == old(threads) + seq(i, k => k)
        modifies this`threads
      {
        threads := threads + [i];
      }
    }

    method RunManagers()
      requires Separate(managers) && forall i :: 0 <= i < |managers| ==> managers[i].Distinct()
      modifies AllHandlers()`runs
      ensures forall h :: h in AllHandlers() ==> h.runs == old(h.runs) + 1
    {
      ghost var all := AllHandlers();
      for i := 0 to |managers|
        invariant forall k, h :: 0 <= k < |managers| && h in managers[k].handlers ==>
          h.runs == old(h.runs) + (if k < i then 1 else 0)
      {
        assert managers[i] in managers;
        assert forall h :: h in managers[i].handlers ==> h in all;
        managers[i].Run();
      }
    }
  }

  lemma DefaultCapacity()
    ensures IsPowerOfTwo(1024)
  {
    Pow2Of8();
    assert Pow2(10) == 4 * Pow2(8);
  }
}
