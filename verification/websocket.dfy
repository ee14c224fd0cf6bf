/** `WebSocketHandler` (include/websocket.h, src/websocket.cpp): one callback per stage. */
module WebSockets {
  import opened WebSocketSpec

  /** The part of an io_context that matters here: posted tasks, in FIFO order. */
  class IoContext {
    var tasks: seq<HandlerTask>

    constructor ()
      ensures tasks == []
    {
      tasks := [];
    }

    method Post(task: HandlerTask)
      modifies this
      ensures tasks == old(tasks) + [task]
    {
      tasks := tasks + [task];
    }
  }

  /** `outstanding` stands for the operations that Boost has been asked for and has not
      completed. The ghost fields record the history. */
  class WebSocketHandler {
    const id: nat
    const io: IoContext
    var outstanding: multiset<Op>
    var buffer: string
    ghost var started: seq<Op>
    ghost var received: seq<string>
    ghost var posted: seq<string>
    ghost var failures: nat
    ghost var runs: nat

    ghost function State(): Chain
      reads this
    {
      Chain(outstanding, buffer, started, received, posted, failures, runs)
    }

    constructor (id: nat, io: IoContext)
      ensures this.id == id && this.io == io && State() == IDLE
    {
      this.id, this.io := id, io;
      outstanding, buffer := multiset{}, "";
      started, received, posted, failures, runs := [], [], [], 0, 0;
    }

    method Start(op: Op)
      modifies this
      ensures State() == StartOp(old(State()), op)
    {
      outstanding := outstanding + multiset{op};
      started := started + [op];
    }

    method Run()
      modifies this, io
      ensures State() == old(State()).(runs := old(runs) + 1)
      ensures io.tasks == old(io.tasks) + [HandlerTask.Begin(id)]
    {
      runs := runs + 1;
      io.Post(HandlerTask.Begin(id));
    }

    /** The lambda that `run` posts. */
    method Begin()
      modifies this
      ensures State() == StartOp(old(State()), Resolve)
    {
      Start(Resolve);
    }

    /** Boost is done with `op` and calls back. */
    method Finish(op: Op, failed: bool)
      requires op in outstanding
      modifies this
      ensures State() == old(State()).(outstanding := old(outstanding) - multiset{op},
                                       failures := old(failures) + (if failed then 1 else 0))
    {
      outstanding := outstanding - multiset{op};
      failures := failures + (if failed then 1 else 0);
    }

    method OnResolve(failed: bool)
      requires Resolve in outstanding
      modifies this
      ensures State() == Complete(old(State()), Resolve, failed, "")
    {
      Finish(Resolve, failed);
      if failed {
        return;
      }
      Start(Connect);
    }

    method OnConnect(failed: bool)
      requires Connect in outstanding
      modifies this
      ensures State() == Complete(old(State()), Connect, failed, "")
    {
      Finish(Connect, failed);
      if failed {
        return;
      }
      Start(TlsHandshake);
    }

    method OnSslHandshake(failed: bool)
      requires TlsHandshake in outstanding
      modifies this
      ensures State() == Complete(old(State()), TlsHandshake, failed, "")
    {
      Finish(TlsHandshake, failed);
      if failed {
        return;
      }
      Start(WsHandshake);
    }

    method OnHandshake(failed: bool)
      requires WsHandshake in outstanding
      modifies this
      ensures State() == Complete(old(State()), WsHandshake, failed, "")
    {
      Finish(WsHandshake, failed);
      if failed {
        return;
      }
      DoRead();
    }

    method DoRead()
      modifies this
      ensures State() == StartOp(old(State()), Read)
    {
      Start(Read);
    }

    /** `bytes` is what the read added to the buffer, also when it failed. */
    method OnRead(failed: bool, bytes: string)
      requires Read in outstanding
      modifies this, io
      ensures State() == Complete(old(State()), Read, failed, bytes)
      ensures io.tasks == old(io.tasks) + Posts(old(State()), id, Read, failed, bytes)
    {
      buffer := buffer + bytes;
      Finish(Read, failed);
      if failed {
        return;
      }
      var text := buffer;
      buffer := "";
      received, posted := received + [bytes], posted + [text];
      io.Post(Data(id, text));
      Start(Read);
    }
  }
}
