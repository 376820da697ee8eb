/** What the network delivers and what a connection makes of it, in every run. */
module Delivery {
  import opened Text
  import opened HttpRequest
  import opened HttpReply
  import opened Lifecycle

  // ---------- the bytes delivered, by the events alone ----------

  /** The bytes of a connection's handled reads, and those of a completion not handled yet. */
  datatype Bytes = Bytes(handled: string, waiting: string)

  ghost function Deliver<Id>(d: Bytes, e: Event<Id>, id: Id): Bytes {
    if e.IoCompletes? && e.id == id && e.code.Success? then d.(waiting := e.data)
    else if e.RunIo? && e.id == id then Bytes(d.handled + d.waiting, "")
    else d
  }

  ghost function DeliverAll<Id>(d: Bytes, events: seq<Event<Id>>, id: Id): Bytes
    decreases |events|
  {
    if events == [] then d else DeliverAll(Deliver(d, events[0], id), events[1..], id)
  }

  /** All bytes that successful completions have brought and handlers have taken. */
  ghost function Delivered<Id>(events: seq<Event<Id>>, id: Id): string {
    DeliverAll(Bytes("", ""), events, id).handled
  }

  // ---------- none is lost and none invented ----------

  function Waiting(c: Conn): string {
    if c.ops != [] && IsHot(c.ops[0]) then c.ops[0].state.data else ""
  }

  ghost predicate Tracks<Id>(s: Server<Id>, id: Id, d: Bytes) {
    d == if id in s.conns then Bytes(s.conns[id].received, Waiting(s.conns[id])) else Bytes("", "")
  }

  /** A handler takes what was waiting, all of it, and leaves nothing waiting. */
  lemma HandlerTakes(site: Site, c: Conn, k: nat, error: Code)
    requires ConnInv(c) && Ready(c, k) && !error.Success?
    ensures var c' := Settled(site, c, k, error);
            c'.received == c.received + Waiting(c) && Waiting(c') == ""
  {
    var op := c.ops[k];
    assert Without(c.ops, k) == [];
    if IsHot(op) {
      ReadTakes(site, c.(ops := []), op.state.data, error);
    }
    StopKeepsWaiting(AfterHandler(site, c, k, error));
  }

  lemma ReadTakes(site: Site, c: Conn, data: string, error: Code)
    requires c.machine.Ok() && c.ops == [] && !error.Success?
    ensures var c' := AfterRead(site, c, data, error);
            c'.received == c.received + data && Waiting(c') == ""
  {
  }

  lemma StopKeepsWaiting(c: Conn)
    ensures Waiting(Close(c)) == Waiting(c) && Close(c).received == c.received
  {
  }

  lemma TracksIo<Id>(s: Server<Id>, e: Event<Id>, id: Id, d: Bytes)
    requires Inv(s) && Enabled(s, e) && Tracks(s, id, d) && e.RunIo?
    ensures Tracks(Next(s, e), id, Deliver(d, e, id))
  {
    HandlerTakes(e.site, s.conns[e.id], e.k, e.error);
  }

  lemma TracksCompletion<Id>(s: Server<Id>, e: Event<Id>, id: Id, d: Bytes)
    requires Inv(s) && Enabled(s, e) && Tracks(s, id, d) && e.IoCompletes?
    ensures Tracks(Next(s, e), id, Deliver(d, e, id))
  {
    var c := s.conns[e.id];
    assert ConnInv(c) && e.k == 0;
    var c' := CompleteOne(c, e.k, e.code, e.data);
    assert c'.ops == [Complete(c.ops[0], e.code, e.data)];
  }

  lemma TracksStep<Id>(s: Server<Id>, e: Event<Id>, id: Id, d: Bytes)
    requires Inv(s) && Enabled(s, e) && Tracks(s, id, d)
    ensures Tracks(Next(s, e), id, Deliver(d, e, id))
  {
    match e
    case RunIo(_, _, _, _) => TracksIo(s, e, id, d);
    case IoCompletes(_, _, _, _) => TracksCompletion(s, e, id, d);
    case RunStop => if id in s.conns { StopKeepsWaiting(s.conns[id]); }
    case _ =>
  }

  lemma {:induction false} TracksRun<Id>(s: Server<Id>, events: seq<Event<Id>>, id: Id, d: Bytes)
    requires Inv(s) && Possible(s, events) && Tracks(s, id, d)
    ensures Tracks(Final(s, events), id, DeliverAll(d, events, id))
    decreases |events|
  {
    if events != [] {
      StepInv(s, events[0]);
      TracksStep(s, events[0], id, d);
      TracksRun(Next(s, events[0]), events[1..], id, Deliver(d, events[0], id));
    }
  }

  // ---------- the reply ----------

  /** In every run a connection has received exactly what was delivered to it; it has no reply
      as long as that is undecided, and afterwards the one it calls for, as a stream read from
      its first byte by a new parser, at the site where the reply was chosen. */
  lemma ReplyIsDecidedByDelivery<Id>(events: seq<Event<Id>>, id: Id)
    requires Possible(Init<Id>(), events) && id in Final(Init<Id>(), events).conns
    ensures var c := Final(Init<Id>(), events).conns[id];
            var bytes := Delivered(events, id);
            && c.received == bytes
            && (c.at.None? ==> Run(Fresh(0, 0), bytes).verdict == Indeterminate)
            && (c.at.Some? ==> Decision(c.at.value, Fresh(0, 0), bytes) == Some(c.reply))
  {
    InitInv<Id>();
    TracksRun(Init<Id>(), events, id, Bytes("", ""));
    MembersAreServed(events, id);
    var c := Final(Init<Id>(), events).conns[id];
    StartDoesNotMatter(c.first, Fresh(0, 0), c.received);
  }

  /** Bytes sent after a decision change nothing. */
  lemma ReplyIsDecidedByStream<Id>(events: seq<Event<Id>>, id: Id, stream: string)
    requires Possible(Init<Id>(), events) && id in Final(Init<Id>(), events).conns
    requires Final(Init<Id>(), events).conns[id].at.Some? && Delivered(events, id) <= stream
    ensures var c := Final(Init<Id>(), events).conns[id];
            Decision(c.at.value, Fresh(0, 0), stream) == Some(c.reply)
  {
    ReplyIsDecidedByDelivery(events, id);
    var c := Final(Init<Id>(), events).conns[id];
    PrefixDecides(c.at.value, Fresh(0, 0), Delivered(events, id), stream);
  }

  /** Two connections, in any two runs, that are delivered the same byte stream in different
      pieces: a rejected stream gets the same reply, "400 Bad Request", and an accepted one
      stands for the same request and gets the answer to it of the site where the reply was
      chosen. */
  lemma SameStreamSameReply<Id, Jd>(
      events: seq<Event<Id>>, id: Id, others: seq<Event<Jd>>, jd: Jd, stream: string)
    requires Possible(Init<Id>(), events) && id in Final(Init<Id>(), events).conns
    requires Possible(Init<Jd>(), others) && jd in Final(Init<Jd>(), others).conns
    requires Final(Init<Id>(), events).conns[id].at.Some? && Delivered(events, id) <= stream
    requires Final(Init<Jd>(), others).conns[jd].at.Some? && Delivered(others, jd) <= stream
    ensures var c, d := Final(Init<Id>(), events).conns[id], Final(Init<Jd>(), others).conns[jd];
            var r := Run(Fresh(0, 0), stream);
            && r.verdict != Indeterminate
            && (r.verdict == Bad ==> c.reply == d.reply == StockReply(BadRequest))
            && (r.verdict == Good ==>
                  && c.reply == Handled(c.at.value, r.machine.message.uri, NEW_REPLY)
                  && d.reply == Handled(d.at.value, r.machine.message.uri, NEW_REPLY))
            && (c.at == d.at ==> c.reply == d.reply)
  {
    ReplyIsDecidedByStream(events, id, stream);
    ReplyIsDecidedByStream(others, jd, stream);
  }

  // ---------- connections come, are answered, and go ----------

  /** A successful accept makes a member that reads, and the next accept is outstanding. */
  lemma AcceptMakesMember<Id>(s: Server<Id>, id: Id, major: int, minor: int)
    requires Enabled(s, RunAccept(id, major, minor)) && s.acceptorOpen && s.accept == AcceptDone(Success)
    ensures var s' := Next(s, RunAccept(id, major, minor));
            && s'.members == s.members + {id} && s'.conns.Keys == s.conns.Keys + {id}
            && s'.conns[id].open && s'.conns[id].ops == [Reading(InFlight)] && s'.conns[id].at.None?
            && s'.conns[id].machine == Fresh(major, minor) && s'.conns[id].received == ""
            && (forall other | other in s.conns :: s'.conns[other] == s.conns[other])
            && s'.accept == Accepting
  {
  }

  /** A run and a first step. */
  lemma StepThenRun<Id>(s: Server<Id>, e: Event<Id>, rest: seq<Event<Id>>)
    requires Enabled(s, e) && Possible(Next(s, e), rest)
    ensures Possible(s, [e] + rest) && Final(s, [e] + rest) == Final(Next(s, e), rest)
  {
    assert ([e] + rest)[1..] == rest;
  }

  /** From every state with an open acceptor a connection can be accepted, read, answered and
      closed, whatever decisive bytes it sends; the server is then as before but for it. */
  lemma AConnectionIsAnswered<Id>(s: Server<Id>, id: Id, major: int, minor: int, data: string, site: Site)
      returns (events: seq<Event<Id>>)
    requires Inv(s) && s.acceptorOpen && s.accept == Accepting && id !in s.conns
    requires Run(Fresh(major, minor), data).verdict != Indeterminate
    ensures Possible(s, events)
    ensures var s' := Final(s, events);
            && s'.members == s.members && s'.accept == Accepting && s'.acceptorOpen
            && id in s'.conns && !s'.conns[id].open && s'.conns[id].ops == []
            && s'.conns[id].at == Some(site)
            && Decision(site, Fresh(major, minor), data) == Some(s'.conns[id].reply)
  {
    var e1, e2 := AcceptCompletes(Success), RunAccept(id, major, minor);
    var s1 := Next(s, e1);
    var s2 := Next(s1, e2);
    var rest, c := AnswerRun(s2, id, major, minor, data, site);
    StepThenRun(s1, e2, rest);
    StepThenRun(s, e1, [e2] + rest);
    events := [e1] + ([e2] + rest);
    assert s.members + {id} - {id} == s.members;
  }

  /** The completion of a connection's one operation, and its handler. */
  function Turn(site: Site, c: Conn, data: string): Conn
    requires c.machine.Ok() && |c.ops| == 1
  {
    Settled(site, CompleteOne(c, 0, Success, data), 0, Failed)
  }

  lemma TurnOfRead(site: Site, c: Conn, data: string)
    requires c.machine.Ok() && c.open && c.ops == [Reading(InFlight)] && Run(c.machine, data).verdict != Indeterminate
    ensures var c' := Turn(site, c, data);
            && c'.open && c'.ops == [Writing(InFlight)] && c'.at == Some(site)
            && c'.machine.Ok()
            && c'.reply == (if Run(c.machine, data).verdict == Bad then StockReply(BadRequest)
                            else Handled(site, Run(c.machine, data).machine.message.uri, c.reply))
  {
    assert Without(CompleteOne(c, 0, Success, data).ops, 0) == [];
  }

  lemma TurnOfWrite(site: Site, c: Conn)
    requires c.machine.Ok() && c.ops == [Writing(InFlight)]
    ensures Turn(site, c, "") == c.(open := false, ops := [])
  {
    assert Without(CompleteOne(c, 0, Success, "").ops, 0) == [];
  }

  lemma TwoTurns(site: Site, c0: Conn, data: string, major: int, minor: int) returns (c1: Conn, c: Conn)
    requires c0 == NewConn(major, minor) && Run(Fresh(major, minor), data).verdict != Indeterminate
    ensures c0.ops == [Reading(InFlight)] && c0.machine.Ok()
    ensures c1 == Turn(site, c0, data) && c1.ops == [Writing(InFlight)] && c1.machine.Ok()
    ensures c == Turn(site, c1, "") && !c.open && c.ops == [] && c.at == Some(site)
    ensures Decision(site, Fresh(major, minor), data) == Some(c.reply)
  {
    TurnOfRead(site, c0, data);
    c1 := Turn(site, c0, data);
    TurnOfWrite(site, c1);
    c := Turn(site, c1, "");
  }

  lemma TurnRuns<Id>(s: Server<Id>, id: Id, data: string, site: Site) returns (events: seq<Event<Id>>)
    requires id in s.conns && s.conns[id].machine.Ok()
    requires s.conns[id].ops == [Reading(InFlight)] || (s.conns[id].ops == [Writing(InFlight)] && data == "")
    ensures Possible(s, events)
    ensures Final(s, events) == s.(members := if s.conns[id].ops[0].Writing? then s.members - {id} else s.members,
                                   conns := s.conns[id := Turn(site, s.conns[id], data)])
  {
    var e1, e2 := IoCompletes(id, 0, Success, data), RunIo(id, 0, Failed, site);
    var s1 := Next(s, e1);
    assert s1.conns[id] == CompleteOne(s.conns[id], 0, Success, data);
    StepThenRun(s1, e2, []);
    StepThenRun(s, e1, [e2] + []);
    events := [e1] + ([e2] + []);
  }

  lemma {:induction false} RunsCompose<Id>(s: Server<Id>, a: seq<Event<Id>>, b: seq<Event<Id>>)
    requires Possible(s, a) && Possible(Final(s, a), b)
    ensures Possible(s, a + b) && Final(s, a + b) == Final(Final(s, a), b)
    decreases |a|
  {
    if a == [] {
      assert a + b == b;
    } else {
      assert (a + b)[1..] == a[1..] + b;
      RunsCompose(Next(s, a[0]), a[1..], b);
    }
  }

  /** The same from the accept on. */
  lemma AnswerRun<Id>(s: Server<Id>, id: Id, major: int, minor: int, data: string, site: Site)
      returns (events: seq<Event<Id>>, c: Conn)
    requires id in s.conns && s.conns[id] == NewConn(major, minor)
    requires Run(Fresh(major, minor), data).verdict != Indeterminate
    ensures Possible(s, events)
    ensures Final(s, events) == s.(members := s.members - {id}, conns := s.conns[id := c])
    ensures !c.open && c.ops == [] && c.at == Some(site)
    ensures Decision(site, Fresh(major, minor), data) == Some(c.reply)
  {
    var c1;
    c1, c := TwoTurns(site, s.conns[id], data, major, minor);
    var a := TurnRuns(s, id, data, site);
    var b := TurnRuns(Final(s, a), id, "", site);
    RunsCompose(s, a, b);
    events := a + b;
  }
}
