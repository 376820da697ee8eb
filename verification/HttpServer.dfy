/** The handlers of the HTTP server as they update their objects (connection.cpp,
    connection_manager.cpp, server.cpp), proved against the steps of Lifecycle. */
module HttpServer {
  import opened Text
  import opened HttpRequest
  import opened HttpReply
  import opened Lifecycle

  class Connection {
    var open: bool                  // socket_
    var ops: seq<Operation>         // operations started and not yet handled
    const request: Request
    const parser: RequestParser
    var reply: Reply
    ghost var at: Option<Site>
    ghost const first: Machine
    ghost var received: string

    ghost function Value(): Conn
      reads this, request, parser
    {
      Conn(open, ops, Machine(parser.state, request.Value()), reply, at, first, received)
    }

    constructor (major: int, minor: int)
      ensures Value() == IdleConn(major, minor)
      ensures fresh(request) && fresh(parser)
    {
      open, ops, reply := true, [], NEW_REPLY;
      request := new Request(major, minor);
      parser := new RequestParser();
      at, first, received := None, Fresh(major, minor), "";
    }

    method Start(error: Code)
      modifies this`ops
      ensures Value() == BeginRead(old(Value()), error)
    {
      DoRead(error);
    }

    method Stop()
      modifies this`open, this`ops
      ensures Value() == Close(old(Value()))
    {
      open := false;
      ops := AbortAll(ops);
    }

    /** `async_read_some`, whatever else is outstanding; `error` is what it reports on a
        closed socket. */
    method DoRead(error: Code)
      modifies this`ops
      ensures Value() == BeginRead(old(Value()), error)
    {
      ops := ops + [Reading(Started(open, error))];
    }

    /** `async_write` of the reply's buffers. */
    method DoWrite(error: Code)
      modifies this`ops
      ensures Value() == BeginWrite(old(Value()), error)
    {
      ops := ops + [Writing(Started(open, error))];
    }

    /** The read handler after a successful read of `data`. */
    method HandleData(site: Site, data: string, error: Code)
      requires Value().machine.Ok()
      modifies this, request, parser
      ensures Value() == AfterRead(site, old(Value()), data, error)
    {
      var result, _ := parser.Parse(request, data);
      received := received + data;
      if result == Good {
        reply := HandleRequest(site, request.uri, reply);
        at := Some(site);
        DoWrite(error);
      } else if result == Bad {
        reply := StockReply(BadRequest);
        at := Some(site);
        DoWrite(error);
      } else {
        DoRead(error);
      }
    }

    /** The handler of operation `k`. */
    method RunHandler(site: Site, manager: ConnectionManager, k: nat, error: Code)
      requires Ready(Value(), k)
      modifies this, request, parser, manager
      ensures Value() == Settled(site, old(Value()), k, error)
      ensures manager.connections == if AsksToStop(old(ops[k])) then old(manager.connections) - {this}
                                     else old(manager.connections)
    {
      var op := ops[k];
      var code := op.state.code;
      ops := ops[..k] + ops[k + 1..];
      if op.Reading? {
        if code.Success? {
          HandleData(site, op.state.data, error);
        } else if !code.Aborted? {
          manager.Stop(this);
        }
      } else if !code.Aborted? {
        manager.Stop(this);
      }
    }
  }

  class ConnectionManager {
    var connections: set<Connection>

    constructor ()
      ensures connections == {}
    {
      connections := {};
    }

    method Start(c: Connection, error: Code)
      modifies this, c
      ensures connections == old(connections) + {c}
      ensures c.Value() == BeginRead(old(c.Value()), error)
    {
      connections := connections + {c};
      c.Start(error);
    }

    method Stop(c: Connection)
      modifies this, c
      ensures connections == old(connections) - {c}
      ensures c.Value() == Close(old(c.Value()))
    {
      connections := connections - {c};
      c.Stop();
    }

    method StopAll()
      modifies this, connections
      ensures connections == {}
      ensures forall c | c in old(connections) :: c.Value() == old(Close(c.Value()))
    {
      var todo := connections;
      while todo != {}
        invariant todo <= connections == old(connections)
        invariant forall c | c in connections :: c.Value() == if c in todo then old(c.Value()) else old(Close(c.Value()))
        decreases todo
      {
        var c :| c in todo;
        c.Stop();
        todo := todo - {c};
      }
      connections := {};
    }
  }

  class HttpServer {
    var acceptorOpen: bool            // acceptor_.is_open()
    var accept: Accept                // the asynchronous accept
    var signal: Signal                // the asynchronous wait for a signal
    const manager: ConnectionManager
    ghost var conns: map<Connection, Conn>    // every connection ever started, with its value

    /** `conns` is up to date; connections share nothing; the set holds started ones only. */
    ghost predicate Valid()
      reads this, manager, conns.Keys, set c | c in conns :: c.request, set c | c in conns :: c.parser
    {
      && manager.connections <= conns.Keys
      && (forall c | c in conns :: c.Value() == conns[c])
      && (forall c, d | c in conns && d in conns && c != d :: c.request != d.request && c.parser != d.parser)
    }

    /** The state of the transition system, with the connection objects as identities. */
    ghost function View(): Server<Connection>
      reads this, manager
    {
      Server(acceptorOpen, accept, signal, manager.connections, conns)
    }

    constructor ()
      ensures Valid() && View() == Init()
    {
      manager := new ConnectionManager();
      acceptorOpen, accept, signal := true, Accepting, Waiting;
      conns := map[];
    }

    /** `do_accept` */
    method DoAccept()
      modifies this`accept
      ensures accept == Accepting
    {
      accept := Accepting;
    }

    /** The accept handler: a new connection, if one was accepted before the server stopped. */
    method AcceptHandler(major: int, minor: int) returns (c: Connection?)
      requires Valid() && accept.AcceptDone?
      modifies this`accept, this`conns, manager
      ensures Valid()
      ensures c == null <==> !(old(acceptorOpen) && old(accept).code.Success?)
      ensures c == null ==> View() == old(View()).(accept := if old(acceptorOpen) then Accepting else NoAccept)
      ensures c != null ==> fresh(c) && View() == TakeAccepted(old(View()), c, major, minor)
    {
      c := null;
      if !acceptorOpen {
        accept := NoAccept;
        return;
      }
      if accept.code.Success? {
        c := StartConnection(major, minor);
      }
      DoAccept();
    }

    /** Make a connection for the accepted socket and hand it to the manager. */
    method StartConnection(major: int, minor: int) returns (c: Connection)
      requires Valid()
      modifies this`conns, manager
      ensures Valid() && fresh(c)
      ensures manager.connections == old(manager.connections) + {c}
      ensures conns == old(conns)[c := NewConn(major, minor)]
    {
      c := new Connection(major, minor);
      manager.Start(c, Failed);
      conns := conns[c := NewConn(major, minor)];
    }

    /** The stop handler. */
    method StopHandler()
      requires Valid() && signal.Arrived?
      modifies this`acceptorOpen, this`accept, this`signal, this`conns, manager
      modifies manager.connections
      ensures Valid()
      ensures View() == Lifecycle.Stop(old(View()))
    {
      signal := Stopped;
      acceptorOpen := false;
      if accept.Accepting? {
        accept := AcceptDone(Aborted);
      }
      StopConnections();
    }

    /** `stop_all`, as the server sees it. */
    method StopConnections()
      requires Valid()
      modifies this`conns, manager, manager.connections
      ensures Valid() && manager.connections == {}
      ensures conns == CloseAll(old(conns), old(manager.connections))
    {
      ghost var members := manager.connections;
      manager.StopAll();
      forall c | c in conns && c !in members ensures c.Value() == conns[c] {
        assert c.Value() == old(c.Value());
      }
      conns := CloseAll(conns, members);
    }

    /** The handler of a connection's completed operation. */
    method IoHandler(site: Site, c: Connection, k: nat, error: Code)
      requires Valid() && Enabled(View(), RunIo(c, k, error, site))
      modifies this`conns, c, c.request, c.parser, manager
      ensures Valid()
      ensures View() == Next(old(View()), RunIo(c, k, error, site))
    {
      ghost var next := Settled(site, conns[c], k, error);
      c.RunHandler(site, manager, k, error);
      assert c.Value() == next;
      forall d | d in conns && d != c ensures d.Value() == conns[d] {
        assert d.Value() == old(d.Value());
      }
      conns := conns[c := next];
    }
  }
}
