/** `Consumer` (include/consumer.h, src/consumer.cpp) and the task queue of its io_context. */
module Consumers {
  import opened Messages
  import opened CacheSpec
  import opened Caches
  import opened EventLoop

  class Consumer {
    var cache: Cache?
    var wsCallback: bool
    var restCallback: bool
    var tasks: seq<Task>
    ghost var delivered: seq<Msg>
    var calls: seq<Call>

    ghost function State(): Loop
      reads this
    {
      Loop(tasks, delivered, calls)
    }

    ghost function Callbacks(): Bindings
      reads this
    {
      Bindings(wsCallback, restCallback)
    }

    constructor ()
      ensures cache == null && Callbacks() == Bindings(false, false) && State() == Loop([], [], [])
    {
      cache := null;
      wsCallback, restCallback := false, false;
      tasks, delivered, calls := [], [], [];
    }

    method BindCache(buffer: Cache)
      modifies this`cache
      ensures cache == buffer
    {
      cache := buffer;
    }

    method BindCallbackOnOrderBook(isWs: bool)
      modifies this`wsCallback, this`restCallback
      ensures Callbacks() == if isWs then Bindings(true, old(restCallback)) else Bindings(old(wsCallback), true)
    {
      if isWs {
        wsCallback := true;
      } else {
        restCallback := true;
      }
    }

    method Run()
      requires cache != null
      modifies this`tasks
      ensures tasks == old(tasks) + [Poll]
    {
      tasks := tasks + [Poll];
    }

    method OnData(msg: Msg)
      modifies this`calls, this`delivered
      ensures calls == old(calls) + EventLoop.OnData(Callbacks(), msg)
      ensures delivered == old(delivered) + [msg]
    {
      delivered := delivered + [msg];
      if msg.typ == OrderBookType {
        if msg.source == WebSocket {
          if wsCallback {
            calls := calls + [if msg.data.Some? then OnOrderBookWS(msg.data.value) else NullBook];
          }
        }
        if msg.source == RestApi {
          if restCallback {
            calls := calls + [if msg.data.Some? then OnOrderBookREST(msg.data.value) else NullBook];
          }
        }
      } else {
        calls := calls + [UnknownType];
      }
    }

    /** The posted lambda of `run`: dequeue, perhaps post a delivery, post itself again. */
    method PollTask(placeholder: Msg)
      requires cache != null && cache.Valid()
      modifies this`tasks, cache.queue`head
      ensures cache == old(cache) && cache.Valid()
      ensures
        var q := old(cache.State().queue);
        && tasks == old(tasks) + (if q == [] then [Poll] else [Deliver(q[0]), Poll])
        && cache.State() == CacheSpec.Step(old(cache.State()), Take(q != []))
    {
      var ok, msg := cache.Decache(placeholder);
      if ok {
        tasks := tasks + [Deliver(msg)];
      }
      Run();
    }

    /** The io_context runs the task at the front. */
    method RunFront(placeholder: Msg)
      requires cache != null && cache.Valid() && tasks != []
      modifies this`tasks, this`calls, this`delivered, cache.queue`head
      ensures cache == old(cache) && cache.Valid() && Callbacks() == old(Callbacks())
      ensures
        var q := old(cache.State().queue);
        && State() == Turn(Callbacks(), old(State()), q, q != []).0
        && cache.State() == CacheState(old(cache.State().watermark), Turn(Callbacks(), old(State()), q, q != []).1)
    {
      var task := tasks[0];
      tasks := tasks[1..];
      match task {
        case Poll => PollTask(placeholder);
        case Deliver(m) => OnData(m);
      }
    }
  }
}
