/** The HTTP server as a transition system: acceptor, stop signal, connection set, and the
    pending operations of each connection. Steps are completions, reported by the operating
    system in any order, and the handlers that run for them, one at a time. Files and
    provider answers may change between any two steps: every handler meets its own `Site`.

    Assumed of the asynchronous I/O library: every started operation completes once; closing
    a socket aborts its pending operations unless a result is queued already; an operation
    started on a closed socket completes with an error; only reads deliver bytes. */
module Lifecycle {
  import opened Text
  import opened HttpRequest
  import opened HttpReply
  import opened HttpTheorems

  datatype Code = Success | Aborted | Failed

  /** An operation that was started: still in flight, or with its result queued. */
  datatype Completion = InFlight | Queued(code: Code, data: string)

  datatype Operation = Reading(state: Completion) | Writing(state: Completion)

  /** One connection. `ops` are the operations started and not yet handled, `at` is what its
      surroundings were when its reply was chosen, `first` the new parser and request it
      started with, and `received` everything its reads have delivered. */
  datatype Conn = Conn(open: bool, ops: seq<Operation>, machine: Machine, reply: Reply, at: Option<Site>,
                       first: Machine, received: string)

  /** A reply nobody has filled yet. */
  const NEW_REPLY := Reply(Ok, [], "")

  /** A connection before its start. */
  function IdleConn(major: int, minor: int): Conn {
    Conn(true, [], Fresh(major, minor), NEW_REPLY, None, Fresh(major, minor), "")
  }

  function NewConn(major: int, minor: int): Conn {
    BeginRead(IdleConn(major, minor), Failed)
  }

  /** Starting an operation; `error` is what the library reports if the socket is closed. */
  function Started(open: bool, error: Code): Completion {
    if open then InFlight else Queued(error, "")
  }

  /** `async_read_some`, in addition to whatever is outstanding. */
  function BeginRead(c: Conn, error: Code): Conn {
    c.(ops := c.ops + [Reading(Started(c.open, error))])
  }

  /** `async_write`, in addition to whatever is outstanding. */
  function BeginWrite(c: Conn, error: Code): Conn {
    c.(ops := c.ops + [Writing(Started(c.open, error))])
  }

  function Abort(op: Operation): Operation {
    match op
    case Reading(InFlight) => Reading(Queued(Aborted, ""))
    case Writing(InFlight) => Writing(Queued(Aborted, ""))
    case _ => op
  }

  function AbortAll(ops: seq<Operation>): (r: seq<Operation>)
    ensures |r| == |ops|
    ensures forall i | 0 <= i < |ops| :: r[i] == Abort(ops[i])
  {
    if ops == [] then [] else [Abort(ops[0])] + AbortAll(ops[1..])
  }

  /** `connection::stop` */
  function Close(c: Conn): Conn {
    c.(open := false, ops := AbortAll(c.ops))
  }

  /** The outstanding operations without number `k`. */
  function Without(ops: seq<Operation>, k: nat): seq<Operation>
    requires k < |ops|
  {
    ops[..k] + ops[k + 1..]
  }

  /** The handler of operation `k` can run. */
  predicate Ready(c: Conn, k: nat) {
    k < |c.ops| && c.ops[k].state.Queued? && c.machine.Ok()
  }

  /** The read handler, before it talks to the manager. */
  function AfterRead(site: Site, c: Conn, data: string, error: Code): Conn
    requires c.machine.Ok()
  {
    var r := Run(c.machine, data);
    var c' := c.(machine := r.machine, received := c.received + data);
    match r.verdict
    case Good => BeginWrite(c'.(reply := Handled(site, r.machine.message.uri, c.reply), at := Some(site)), error)
    case Bad => BeginWrite(c'.(reply := StockReply(BadRequest), at := Some(site)), error)
    case Indeterminate => BeginRead(c', error)
  }

  /** The connection after the handler of operation `k`, without the manager's part. */
  function AfterHandler(site: Site, c: Conn, k: nat, error: Code): Conn
    requires Ready(c, k)
  {
    var op := c.ops[k];
    var c' := c.(ops := Without(c.ops, k));
    if op.Reading? && op.state.code.Success? then AfterRead(site, c', op.state.data, error) else c'
  }

  /** Whether the handler of an operation asks the manager to stop the connection. */
  predicate AsksToStop(op: Operation)
    requires op.state.Queued?
  {
    match op.state.code
    case Success => op.Writing?
    case Failed => true
    case Aborted => false
  }

  datatype Accept = NoAccept | Accepting | AcceptDone(code: Code)

  datatype Signal = Waiting | Arrived | Stopped

  datatype Server<Id> = Server(acceptorOpen: bool, accept: Accept, signal: Signal, members: set<Id>, conns: map<Id, Conn>)

  datatype Event<Id> =
    | SignalArrives
    | RunStop
    | AcceptCompletes(code: Code)
    | RunAccept(id: Id, major: int, minor: int)
    | IoCompletes(id: Id, k: nat, code: Code, data: string)
    | RunIo(id: Id, k: nat, error: Code, site: Site)

  function Init<Id>(): Server<Id> {
    Server(true, Accepting, Waiting, {}, map[])
  }

  predicate Enabled<Id>(s: Server<Id>, e: Event<Id>) {
    match e
    case SignalArrives => s.signal.Waiting?
    case RunStop => s.signal.Arrived?
    case AcceptCompletes(code) => s.accept.Accepting? && !code.Aborted?
    case RunAccept(id, _, _) => s.accept.AcceptDone? && id !in s.conns
    case IoCompletes(id, k, code, data) =>
      && id in s.conns && k < |s.conns[id].ops| && s.conns[id].ops[k].state.InFlight? && !code.Aborted?
      && (s.conns[id].ops[k].Writing? ==> data == "")
    case RunIo(id, k, error, _) => id in s.conns && Ready(s.conns[id], k) && !error.Success?
  }

  /** `connection_manager::stop_all` */
  function CloseAll<Id>(conns: map<Id, Conn>, members: set<Id>): map<Id, Conn> {
    map id | id in conns :: if id in members then Close(conns[id]) else conns[id]
  }

  /** The stop handler: close the acceptor and stop all connections. */
  function Stop<Id>(s: Server<Id>): Server<Id> {
    s.(acceptorOpen := false, accept := if s.accept.Accepting? then AcceptDone(Aborted) else s.accept,
       signal := Stopped, members := {}, conns := CloseAll(s.conns, s.members))
  }

  /** The accept handler; `id` is the new connection if one was accepted. */
  function TakeAccepted<Id>(s: Server<Id>, id: Id, major: int, minor: int): Server<Id>
    requires s.accept.AcceptDone?
  {
    if !s.acceptorOpen then s.(accept := NoAccept)
    else if s.accept.code.Success? then
      s.(accept := Accepting, members := s.members + {id}, conns := s.conns[id := NewConn(major, minor)])
    else s.(accept := Accepting)
  }

  /** The operating system reports the result of a connection's operation. */
  function Complete(op: Operation, code: Code, data: string): Operation {
    match op
    case Reading(_) => Reading(Queued(code, data))
    case Writing(_) => Writing(Queued(code, data))
  }

  /** The same for operation `k` of a connection. */
  function CompleteOne(c: Conn, k: nat, code: Code, data: string): Conn
    requires k < |c.ops|
  {
    c.(ops := c.ops[k := Complete(c.ops[k], code, data)])
  }

  /** A connection after the handler of operation `k`, including the manager's part. */
  function Settled(site: Site, c: Conn, k: nat, error: Code): Conn
    requires Ready(c, k)
  {
    if AsksToStop(c.ops[k]) then Close(AfterHandler(site, c, k, error)) else AfterHandler(site, c, k, error)
  }

  /** The server after connection `id` has become `c`, leaving the set if it asked to. */
  function Settle<Id>(s: Server<Id>, id: Id, c: Conn, leaves: bool): Server<Id> {
    s.(members := if leaves then s.members - {id} else s.members, conns := s.conns[id := c])
  }

  function Next<Id>(s: Server<Id>, e: Event<Id>): Server<Id>
    requires Enabled(s, e)
  {
    match e
    case SignalArrives => s.(signal := Arrived)
    case RunStop => Stop(s)
    case AcceptCompletes(code) => s.(accept := AcceptDone(code))
    case RunAccept(id, major, minor) => TakeAccepted(s, id, major, minor)
    case IoCompletes(id, k, code, data) => s.(conns := s.conns[id := CompleteOne(s.conns[id], k, code, data)])
    case RunIo(id, k, error, site) =>
      Settle(s, id, Settled(site, s.conns[id], k, error), AsksToStop(s.conns[id].ops[k]))
  }

  // ---------- runs ----------

  predicate Possible<Id>(s: Server<Id>, events: seq<Event<Id>>)
    decreases |events|
  {
    events == [] || (Enabled(s, events[0]) && Possible(Next(s, events[0]), events[1..]))
  }

  /** The state a run ends in. */
  function Final<Id>(s: Server<Id>, events: seq<Event<Id>>): Server<Id>
    requires Possible(s, events)
    decreases |events|
  {
    if events == [] then s else Final(Next(s, events[0]), events[1..])
  }

  // ---------- the invariant ----------

  /** The reply that a new connection's bytes call for at a site, if they are decisive. */
  function Decision(site: Site, first: Machine, received: string): Option<Reply>
    requires first.Ok()
  {
    var r := Run(first, received);
    match r.verdict
    case Good => Some(Handled(site, r.machine.message.uri, NEW_REPLY))
    case Bad => Some(StockReply(BadRequest))
    case Indeterminate => None
  }

  /** A connection reads as long as its bytes are undecided and writes afterwards; an aborted
      completion belongs to a closed socket, a pending one to an open socket. */
  predicate OpInv(c: Conn, op: Operation) {
    && (op.Reading? <==> c.at.None?)
    && (op.state.InFlight? ==> c.open)
    && (op.state.Queued? && op.state.code.Aborted? ==> !c.open)
  }

  /** Parser and reply are what all bytes received call for, at the site of the decision. */
  predicate Decided(c: Conn) {
    && c.machine.Ok() && c.first.Ok() && IsNew(c.first)
    && c.machine == Run(c.first, c.received).machine
    && (c.at.None? ==> c.reply == NEW_REPLY && Run(c.first, c.received).verdict == Indeterminate)
    && (c.at.Some? ==> Decision(c.at.value, c.first, c.received) == Some(c.reply))
  }

  /** Never more than one operation is outstanding, and one exactly as long as it matters. */
  predicate OpsInv(c: Conn) {
    && |c.ops| <= 1
    && (c.open ==> |c.ops| == 1)
    && (|c.ops| == 1 ==> OpInv(c, c.ops[0]))
  }

  predicate ConnInv(c: Conn) {
    Decided(c) && OpsInv(c)
  }

  predicate IsNew(m: Machine) {
    m == Fresh(m.message.major, m.message.minor)
  }

  /** What holds in every reachable state. */
  predicate Inv<Id>(s: Server<Id>) {
    // the set holds exactly the connections whose socket is not closed
    && s.members <= s.conns.Keys
    && (forall id | id in s.conns :: id in s.members <==> s.conns[id].open)
    && (forall id | id in s.conns :: ConnInv(s.conns[id]))
    // while the acceptor is open an accept is outstanding; the stop handler ends both
    && (s.acceptorOpen <==> !s.signal.Stopped?)
    && (s.acceptorOpen ==> !s.accept.NoAccept?)
    && (!s.acceptorOpen ==> !s.accept.Accepting? && s.members == {})
  }

  lemma InitInv<Id>()
    ensures Inv(Init<Id>())
  {
  }

  lemma NewConnInv(major: int, minor: int)
    ensures ConnInv(NewConn(major, minor))
  {
  }

  lemma CloseInv(c: Conn)
    requires ConnInv(c)
    ensures ConnInv(Close(c))
  {
  }

  /** The read handler keeps machine and reply in step with the bytes received, however the
      network cut them, and starts one operation. */
  lemma ReadInv(site: Site, c: Conn, data: string, error: Code)
    requires Decided(c) && c.at.None? && c.ops == [] && !error.Success?
    ensures ConnInv(AfterRead(site, c, data, error)) && AfterRead(site, c, data, error).open == c.open
  {
    ReadDecides(site, c, data, error);
    ReadBegins(site, c, data, error);
  }

  lemma ReadDecides(site: Site, c: Conn, data: string, error: Code)
    requires Decided(c) && c.at.None?
    ensures Decided(AfterRead(site, c, data, error))
  {
    RunAppend(c.first, c.received, data);
    var r := Run(c.machine, data);
    var all := Run(c.first, c.received + data);
    assert all.verdict == r.verdict && all.machine == r.machine;
  }

  lemma ReadBegins(site: Site, c: Conn, data: string, error: Code)
    requires c.machine.Ok() && c.at.None? && c.ops == [] && !error.Success?
    ensures OpsInv(AfterRead(site, c, data, error)) && AfterRead(site, c, data, error).open == c.open
  {
  }

  lemma HandlerInv(site: Site, c: Conn, k: nat, error: Code)
    requires ConnInv(c) && Ready(c, k) && !error.Success?
    ensures ConnInv(Settled(site, c, k, error))
    ensures Settled(site, c, k, error).open == (c.open && !AsksToStop(c.ops[k]))
  {
    var op := c.ops[k];
    assert Without(c.ops, k) == [];
    if op.Reading? && op.state.code.Success? {
      ReadInv(site, c.(ops := []), op.state.data, error);
    }
  }

  lemma StopInv<Id>(s: Server<Id>)
    requires Inv(s) && s.signal.Arrived?
    ensures Inv(Stop(s))
  {
    forall id | id in s.members ensures ConnInv(Close(s.conns[id])) {
      CloseInv(s.conns[id]);
    }
  }

  /** One connection changes; the set loses it exactly if its socket closes. */
  lemma ConnStepInv<Id>(s: Server<Id>, id: Id, c: Conn)
    requires Inv(s) && id in s.conns && ConnInv(c) && (c.open ==> s.conns[id].open)
    ensures Inv(Settle(s, id, c, s.conns[id].open && !c.open))
  {
  }

  lemma IoInv<Id>(s: Server<Id>, id: Id, k: nat, error: Code, site: Site)
    requires Inv(s) && Enabled(s, RunIo(id, k, error, site))
    ensures Inv(Settle(s, id, Settled(site, s.conns[id], k, error), AsksToStop(s.conns[id].ops[k])))
  {
    var c := s.conns[id];
    var c' := Settled(site, c, k, error);
    HandlerInv(site, c, k, error);
    ConnStepInv(s, id, c');
    assert !c.open ==> s.members - {id} == s.members;
  }

  lemma CompleteInv<Id>(s: Server<Id>, id: Id, k: nat, code: Code, data: string)
    requires Inv(s) && Enabled(s, IoCompletes(id, k, code, data))
    ensures Inv(Next(s, IoCompletes(id, k, code, data)))
  {
    ConnStepInv(s, id, CompleteOne(s.conns[id], k, code, data));
  }

  lemma AcceptInv<Id>(s: Server<Id>, id: Id, major: int, minor: int)
    requires Inv(s) && s.accept.AcceptDone? && id !in s.conns
    ensures Inv(TakeAccepted(s, id, major, minor))
  {
    NewConnInv(major, minor);
  }

  /** Every step keeps the invariant. */
  lemma StepInv<Id>(s: Server<Id>, e: Event<Id>)
    requires Inv(s) && Enabled(s, e)
    ensures Inv(Next(s, e))
  {
    match e
    case RunStop => StopInv(s);
    case RunAccept(id, major, minor) => AcceptInv(s, id, major, minor);
    case RunIo(id, k, error, site) => IoInv(s, id, k, error, site);
    case IoCompletes(id, k, code, data) => CompleteInv(s, id, k, code, data);
    case _ =>
  }

  /** The invariant holds in every reachable state, for every order of completions and
      whatever happens to files and provider in between. */
  lemma {:induction false} RunInv<Id>(s: Server<Id>, events: seq<Event<Id>>)
    requires Inv(s) && Possible(s, events)
    ensures Inv(Final(s, events))
    decreases |events|
  {
    if events != [] {
      StepInv(s, events[0]);
      RunInv(Next(s, events[0]), events[1..]);
    }
  }

  /** A member has exactly one operation outstanding and no connection more than one; an
      aborted completion belongs to a connection that is no longer a member, so ignoring it
      loses nothing; a connection reads until its reply is chosen and writes after. */
  predicate Served<Id>(s: Server<Id>, id: Id)
    requires id in s.conns
  {
    var c := s.conns[id];
    && (id in s.members <==> c.open)
    && (id in s.members ==> |c.ops| == 1) && |c.ops| <= 1
    && (forall op | op in c.ops :: op.Reading? <==> c.at.None?)
    && (forall op | op in c.ops && op.state.Queued? && op.state.code.Aborted? :: id !in s.members)
  }

  lemma InvServes<Id>(s: Server<Id>, id: Id)
    requires id in s.conns && OpsInv(s.conns[id]) && (id in s.members <==> s.conns[id].open)
    ensures Served(s, id)
  {
  }

  /** This holds of every connection in every reachable state, its reply is the one the bytes
      received called for where it was chosen, and while the acceptor is open an accept is
      outstanding. */
  lemma MembersAreServed<Id>(events: seq<Event<Id>>, id: Id)
    requires Possible(Init<Id>(), events) && id in Final(Init<Id>(), events).conns
    ensures var s := Final(Init<Id>(), events);
            Served(s, id) && Decided(s.conns[id]) && (s.acceptorOpen ==> !s.accept.NoAccept?)
  {
    InitInv<Id>();
    RunInv(Init<Id>(), events);
    InvServes(Final(Init<Id>(), events), id);
  }

  lemma DecisionIsFramed(site: Site, first: Machine, received: string)
    requires first.Ok() && Decision(site, first, received).Some?
    ensures Framed(Decision(site, first, received).value)
  {
    StockIsFramed(BadRequest);
    HandledIsFramed(site, Run(first, received).machine.message.uri, NEW_REPLY);
  }

  /** Every reply a connection sends, in every run, can be cut out of the byte stream. */
  lemma RepliesAreFramed<Id>(events: seq<Event<Id>>, id: Id)
    requires Possible(Init<Id>(), events) && id in Final(Init<Id>(), events).conns
    requires exists op :: op in Final(Init<Id>(), events).conns[id].ops && op.Writing?
    ensures Framed(Final(Init<Id>(), events).conns[id].reply)
  {
    MembersAreServed(events, id);
    var c := Final(Init<Id>(), events).conns[id];
    DecisionIsFramed(c.at.value, c.first, c.received);
  }

  // ---------- shutdown ----------

  predicate IsHot(op: Operation) {
    op.Reading? && op.state.Queued? && op.state.code.Success?
  }

  /** Connections with an outstanding operation. */
  function Pending<Id>(s: Server<Id>): set<Id> {
    set id | id in s.conns && s.conns[id].ops != []
  }

  /** Connections whose read has succeeded and waits for its handler: it may start one more
      operation, on a socket that is closed by then. */
  function Hot<Id>(s: Server<Id>): set<Id> {
    set id | id in s.conns && HasHot(s.conns[id])
  }

  predicate HasHot(c: Conn) {
    exists k :: 0 <= k < |c.ops| && IsHot(c.ops[k])
  }

  function Measure<Id>(s: Server<Id>): nat {
    |Pending(s)| + |Hot(s)| + if s.accept.NoAccept? then 0 else 1
  }

  lemma SmallerSet<T>(a: set<T>, b: set<T>, x: T)
    requires a <= b - {x} && x in b
    ensures |a| < |b|
  {
    SubsetSize(a, b - {x});
  }

  lemma {:induction false} SubsetSize<T>(a: set<T>, b: set<T>)
    requires a <= b
    ensures |a| <= |b|
  {
    if a != {} {
      var x :| x in a;
      SubsetSize(a - {x}, b - {x});
    }
  }

  /** One connection goes from hot to not hot, or from pending to idle. */
  lemma ConnDrains<Id>(s: Server<Id>, s': Server<Id>, id: Id, c: Conn)
    requires id in s.conns && s'.conns == s.conns[id := c] && s'.accept == s.accept
    requires s.conns[id].ops != [] && !HasHot(c)
    requires HasHot(s.conns[id]) || c.ops == []
    ensures Measure(s') < Measure(s)
  {
    assert Pending(s') <= Pending(s) && Hot(s') <= Hot(s);
    if HasHot(s.conns[id]) {
      SmallerSet(Hot(s'), Hot(s), id);
      SubsetSize(Pending(s'), Pending(s));
    } else {
      SmallerSet(Pending(s'), Pending(s), id);
      SubsetSize(Hot(s'), Hot(s));
    }
  }

  /** A handler on a closed socket: the connection needs no more turns, or one fewer. */
  lemma IoDrains<Id>(s: Server<Id>, id: Id, k: nat, error: Code, site: Site)
    requires Inv(s) && s.signal.Stopped? && Enabled(s, RunIo(id, k, error, site))
    ensures var s' := Next(s, RunIo(id, k, error, site));
            s'.conns.Keys == s.conns.Keys && Measure(s') < Measure(s)
  {
    var c := s.conns[id];
    assert !c.open by { assert id !in s.members; }
    ClosedHandler(site, c, k, error);
    ConnDrains(s, Next(s, RunIo(id, k, error, site)), id, Settled(site, c, k, error));
  }

  /** On a closed socket a handler leaves nothing pending, or one failed operation after a
      successful read. */
  lemma ClosedHandler(site: Site, c: Conn, k: nat, error: Code)
    requires ConnInv(c) && Ready(c, k) && !c.open && !error.Success?
    ensures var c' := Settled(site, c, k, error);
            !HasHot(c') && (HasHot(c) || c'.ops == [])
  {
    assert Without(c.ops, k) == [];
    assert IsHot(c.ops[k]) ==> HasHot(c);
  }

  /** After the stop handler every step keeps the set empty, starts no connection and uses up
      one unit of the measure. */
  lemma StoppedStep<Id>(s: Server<Id>, e: Event<Id>)
    requires Inv(s) && s.signal.Stopped? && Enabled(s, e)
    ensures var s' := Next(s, e);
            && s'.signal.Stopped? && !s'.acceptorOpen && s'.members == {}
            && s'.conns.Keys == s.conns.Keys
            && Measure(s') < Measure(s)
  {
    StepInv(s, e);
    match e
    case RunIo(id, k, error, site) => IoDrains(s, id, k, error, site);
    case RunAccept(id, _, _) =>
      assert Pending(Next(s, e)) == Pending(s) && Hot(Next(s, e)) == Hot(s);
    case _ =>
  }

  /** Shutdown, for every run after the stop handler: the acceptor stays closed, the set stays
      empty, no connection is started, and the run is no longer than the measure. */
  lemma {:induction false} ShutdownDrains<Id>(s: Server<Id>, events: seq<Event<Id>>)
    requires Inv(s) && s.signal.Stopped? && Possible(s, events)
    ensures var s' := Final(s, events);
            && s'.signal.Stopped? && !s'.acceptorOpen && s'.members == {}
            && s'.conns.Keys == s.conns.Keys
            && |events| + Measure(s') <= Measure(s)
    decreases |events|
  {
    if events != [] {
      StepInv(s, events[0]);
      StoppedStep(s, events[0]);
      ShutdownDrains(Next(s, events[0]), events[1..]);
    }
  }

  /** A stopped server is never stuck: as long as anything is outstanding some handler can
      run, whatever its surroundings, and when nothing is, none can. */
  lemma StoppedIsDrainedOrCanStep<Id>(s: Server<Id>, id: Id, site: Site)
    requires Inv(s) && s.signal.Stopped? && id !in s.conns
    ensures Measure(s) == 0 <==> forall e: Event<Id> :: !Enabled(s, e)
  {
    if Measure(s) == 0 {
      assert s.accept.NoAccept?;
      forall e: Event<Id> ensures !Enabled(s, e) {
        if e.RunIo? || e.IoCompletes? {
          assert e.id !in Pending(s);
        }
      }
    } else if s.accept.AcceptDone? {
      assert Enabled(s, RunAccept(id, 0, 0));
    } else {
      assert Hot(s) <= Pending(s);
      SubsetSize(Hot(s), Pending(s));
      assert |Pending(s)| > 0;
      var x :| x in Pending(s);
      assert !s.conns[x].open by { assert x !in s.members; }
      assert Enabled(s, RunIo(x, 0, Failed, site));
    }
  }

  // ---------- the network's segmentation does not matter ----------

  lemma SameRequestIfGood(m: Machine, n: Machine, x: string)
    requires IsNew(m) && IsNew(n)
    ensures Run(m, x).verdict == Good ==>
              Run(n, x).verdict == Good && Run(m, x).machine.message == Run(n, x).machine.message
  {
    var r := Run(m, x);
    if r.verdict == Good {
      ParserIsGrammar(m.message.major, m.message.minor, x, r.used, r.machine.message);
      ParserIsGrammar(n.message.major, n.message.minor, x, r.used, r.machine.message);
    }
  }

  /** Whatever the version fields of a new request held, the same bytes get the same verdict
      and, if accepted, the same request. */
  lemma StartDoesNotMatter(m: Machine, n: Machine, x: string)
    requires IsNew(m) && IsNew(n)
    ensures Run(m, x).verdict == Run(n, x).verdict
    ensures Run(m, x).verdict == Good ==> Run(m, x).machine.message == Run(n, x).machine.message
  {
    SameRequestIfGood(m, n, x);
    SameRequestIfGood(n, m, x);
    RejectsIffHopeless(m, x);
    RejectsIffHopeless(n, x);
    forall y ensures Run(m, x + y).verdict == Good <==> Run(n, x + y).verdict == Good {
      SameRequestIfGood(m, n, x + y);
      SameRequestIfGood(n, m, x + y);
    }
  }

  /** What was decided stays decided, whatever the client sends after. */
  lemma DecisionKept(site: Site, first: Machine, x: string, y: string)
    requires first.Ok() && Decision(site, first, x).Some?
    ensures Decision(site, first, x + y) == Decision(site, first, x)
  {
    RunAppend(first, x, y);
    assert Run(first, x + y) == Run(first, x);
  }

  lemma PrefixDecides(site: Site, first: Machine, x: string, stream: string)
    requires first.Ok() && Decision(site, first, x).Some? && x <= stream
    ensures Decision(site, first, stream) == Decision(site, first, x)
  {
    var rest := stream[|x|..];
    assert stream == x + rest;
    DecisionKept(site, first, x, rest);
  }

  /** The reply chosen is the one the whole stream calls for, at the site where it was chosen. */
  lemma DecisionStands(c: Conn, stream: string)
    requires Decided(c) && c.at.Some? && c.received <= stream
    ensures Decision(c.at.value, c.first, stream) == Some(c.reply)
  {
    PrefixDecides(c.at.value, c.first, c.received, stream);
  }

  lemma SameDecision(site: Site, m: Machine, n: Machine, x: string)
    requires IsNew(m) && IsNew(n)
    ensures Decision(site, m, x) == Decision(site, n, x)
  {
    StartDoesNotMatter(m, n, x);
  }
}
