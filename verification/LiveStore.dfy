/** The web server and the data server together: every provider call acts on one store, which
    other clients of the data server may change as well. */
module LiveStore {
  import opened Text
  import opened Store
  import opened Persistence
  import opened HttpRequest
  import opened HttpReply
  import opened Lifecycle
  import Session
  import RdbHandler
  import EndToEnd
  import Delivery

  datatype World<Id> = World(server: Server<Id>, store: Table)

  /** A step of the web server, or a request of another client of the data server. */
  datatype Happening<Id> = Web(e: Event<Id>) | Direct(request: string)

  /** The command line of the provider call that handling a request makes. */
  function CallFor(site: Site, uri: string): Option<string> {
    var path := RequestPath(site, uri);
    if path.Some? && "/rdb/" <= path.value && site.isValidCall(path.value) then Some(path.value[4..]) else None
  }

  /** The same for the handler of a connection's operation. */
  function CallIn(site: Site, c: Conn, k: nat): Option<string>
    requires Ready(c, k)
  {
    var op := c.ops[k];
    if op.Writing? || !op.state.code.Success? then None
    else
      var r := Run(c.machine, op.state.data);
      if r.verdict == Good then CallFor(site, r.machine.message.uri) else None
  }

  predicate Possibly<Id>(w: World<Id>, h: Happening<Id>) {
    Named(w.store.rows) && (h.Web? ==> Enabled(w.server, h.e))
  }

  /** The command lines that reach the data server in a step. */
  function CommandLines<Id>(w: World<Id>, h: Happening<Id>): seq<string>
    requires Possibly(w, h)
  {
    match h
    case Direct(request) => [request]
    case Web(e) =>
      if !e.RunIo? then []
      else
        var call := CallIn(e.site, w.server.conns[e.id], e.k);
        if call.None? then [] else [call.value]
  }

  function WorldAfter<Id>(w: World<Id>, h: Happening<Id>): (w': World<Id>)
    requires Possibly(w, h)
    ensures Named(w'.store.rows)
  {
    World(if h.Web? then Next(w.server, h.e) else w.server, Session.Execute(w.store, CommandLines(w, h)))
  }

  /** The site's provider answers from the store. */
  ghost predicate Speaks(site: Site, t: Table, json: RdbHandler.RdbReply -> string)
    requires Named(t.rows)
  {
    forall path: string | "/rdb/" <= path :: EndToEnd.SpeaksFor(site, t, path, json)
  }

  /** A step in which every handler meets a site that answers from the store as it is then. */
  ghost predicate CanHappen<Id>(w: World<Id>, h: Happening<Id>, json: RdbHandler.RdbReply -> string) {
    Possibly(w, h) && (h.Web? && h.e.RunIo? ==> Speaks(h.e.site, w.store, json))
  }

  ghost predicate CanRun<Id>(w: World<Id>, hs: seq<Happening<Id>>, json: RdbHandler.RdbReply -> string)
    decreases |hs|
  {
    hs == [] || (CanHappen(w, hs[0], json) && CanRun(WorldAfter(w, hs[0]), hs[1..], json))
  }

  ghost function End<Id>(w: World<Id>, hs: seq<Happening<Id>>, json: RdbHandler.RdbReply -> string): (w': World<Id>)
    requires Named(w.store.rows) && CanRun(w, hs, json)
    ensures Named(w'.store.rows)
    decreases |hs|
  {
    if hs == [] then w else End(WorldAfter(w, hs[0]), hs[1..], json)
  }

  /** All command lines of a run, in order. */
  ghost function Log<Id>(w: World<Id>, hs: seq<Happening<Id>>, json: RdbHandler.RdbReply -> string): seq<string>
    requires CanRun(w, hs, json)
    decreases |hs|
  {
    if hs == [] then [] else CommandLines(w, hs[0]) + Log(WorldAfter(w, hs[0]), hs[1..], json)
  }

  /** The web server's own steps. */
  function WebEvents<Id>(hs: seq<Happening<Id>>): seq<Event<Id>> {
    if hs == [] then [] else (if hs[0].Web? then [hs[0].e] else []) + WebEvents(hs[1..])
  }

  // ---------- both halves are what they were alone ----------

  /** The web server's part of a run is a run of the web server. */
  lemma {:induction false} ServerRuns<Id>(w: World<Id>, hs: seq<Happening<Id>>, json: RdbHandler.RdbReply -> string)
    requires Named(w.store.rows) && CanRun(w, hs, json)
    ensures Possible(w.server, WebEvents(hs)) && Final(w.server, WebEvents(hs)) == End(w, hs, json).server
    decreases |hs|
  {
    if hs != [] {
      ServerRuns(WorldAfter(w, hs[0]), hs[1..], json);
      assert hs[0].Web? ==> WebEvents(hs)[1..] == WebEvents(hs[1..]);
      assert !hs[0].Web? ==> WebEvents(hs) == WebEvents(hs[1..]);
    }
  }

  lemma {:induction false} ExecuteAppend(t: Table, a: seq<string>, b: seq<string>)
    requires Named(t.rows)
    ensures Session.Execute(t, a + b) == Session.Execute(Session.Execute(t, a), b)
    decreases |a|
  {
    if a == [] {
      assert a + b == b;
    } else {
      assert (a + b)[1..] == a[1..] + b;
      ExecuteAppend(Session.Effect(t, Session.Interpret(a[0])), a[1..], b);
    }
  }

  /** The store is what the run's command lines, in their order, make of it. */
  lemma {:induction false} StoreIsLog<Id>(w: World<Id>, hs: seq<Happening<Id>>, json: RdbHandler.RdbReply -> string)
    requires Named(w.store.rows) && CanRun(w, hs, json)
    ensures End(w, hs, json).store == Session.Execute(w.store, Log(w, hs, json))
    decreases |hs|
  {
    if hs != [] {
      StoreIsLog(WorldAfter(w, hs[0]), hs[1..], json);
      ExecuteAppend(w.store, CommandLines(w, hs[0]), Log(WorldAfter(w, hs[0]), hs[1..], json));
    }
  }

  // ---------- every reply knows its store ----------

  /** A run and its last step. */
  lemma {:induction false} RunSnoc<Id>(
      w: World<Id>, hs: seq<Happening<Id>>, h: Happening<Id>, json: RdbHandler.RdbReply -> string)
    requires Named(w.store.rows) && CanRun(w, hs + [h], json)
    ensures CanRun(w, hs, json) && CanHappen(End(w, hs, json), h, json)
    ensures End(w, hs + [h], json) == WorldAfter(End(w, hs, json), h)
    decreases |hs|
  {
    if hs == [] {
      assert (hs + [h])[1..] == [];
    } else {
      assert (hs + [h])[1..] == hs[1..] + [h];
      RunSnoc(WorldAfter(w, hs[0]), hs[1..], h, json);
    }
  }

  /** The site of a decision is recorded by the handler that decides, and by no other step. */
  lemma SiteIsRecorded<Id>(s: Server<Id>, e: Event<Id>, id: Id)
    requires Enabled(s, e) && id in Next(s, e).conns && Next(s, e).conns[id].at.Some?
    ensures var at := Next(s, e).conns[id].at;
            (id in s.conns && s.conns[id].at == at) || (e.RunIo? && e.id == id && at == Some(e.site))
  {
  }

  ghost predicate DecidedBy<Id>(h: Happening<Id>, id: Id, at: Option<Site>) {
    h.Web? && h.e.RunIo? && h.e.id == id && at == Some(h.e.site)
  }

  /** Step `m` of a run decides for a connection, at a site that answers from the store as it
      is then. */
  ghost predicate KnownAt<Id>(
      w: World<Id>, hs: seq<Happening<Id>>, id: Id, json: RdbHandler.RdbReply -> string, m: nat, at: Option<Site>)
    requires Named(w.store.rows)
  {
    && m < |hs| && DecidedBy(hs[m], id, at) && CanRun(w, hs[..m], json)
    && Speaks(hs[m].e.site, End(w, hs[..m], json).store, json)
  }

  lemma KnownBefore<Id>(
      w: World<Id>, hs: seq<Happening<Id>>, h: Happening<Id>, id: Id, json: RdbHandler.RdbReply -> string,
      m: nat, at: Option<Site>)
    requires Named(w.store.rows) && KnownAt(w, hs, id, json, m, at)
    ensures KnownAt(w, hs + [h], id, json, m, at)
  {
    assert (hs + [h])[..m] == hs[..m];
  }

  lemma KnownNow<Id>(
      w: World<Id>, hs: seq<Happening<Id>>, h: Happening<Id>, id: Id, json: RdbHandler.RdbReply -> string, at: Option<Site>)
    requires Named(w.store.rows) && CanRun(w, hs, json) && CanHappen(End(w, hs, json), h, json) && DecidedBy(h, id, at)
    ensures KnownAt(w, hs + [h], id, json, |hs|, at)
  {
    assert (hs + [h])[..|hs|] == hs;
  }

  /** The step at which a connection's reply was chosen, and the store at that moment. */
  lemma {:induction false} ReplyKnowsItsStore<Id>(
      w: World<Id>, hs: seq<Happening<Id>>, id: Id, json: RdbHandler.RdbReply -> string) returns (m: nat)
    requires Named(w.store.rows) && CanRun(w, hs, json) && id !in w.server.conns
    requires id in End(w, hs, json).server.conns && End(w, hs, json).server.conns[id].at.Some?
    ensures KnownAt(w, hs, id, json, m, End(w, hs, json).server.conns[id].at)
    decreases |hs|, 1
  {
    assert hs == Front(hs) + [Last(hs)];
    RunSnoc(w, Front(hs), Last(hs), json);
    m := KnownNowOrBefore(w, Front(hs), Last(hs), id, json, End(w, hs, json).server.conns[id].at);
  }

  lemma {:induction false} KnownNowOrBefore<Id>(
      w: World<Id>, hs: seq<Happening<Id>>, h: Happening<Id>, id: Id, json: RdbHandler.RdbReply -> string, at: Option<Site>)
      returns (m: nat)
    requires Named(w.store.rows) && CanRun(w, hs, json) && CanHappen(End(w, hs, json), h, json) && at.Some?
    requires id !in w.server.conns
    requires var s := WorldAfter(End(w, hs, json), h).server;
             id in s.conns && s.conns[id].at == at
    ensures KnownAt(w, hs + [h], id, json, m, at)
    decreases |hs|, 2
  {
    if h.Web? {
      SiteIsRecorded(End(w, hs, json).server, h.e, id);
    }
    if DecidedBy(h, id, at) {
      m := |hs|;
      KnownNow(w, hs, h, id, json, at);
    } else {
      m := ReplyKnowsItsStore(w, hs, id, json);
      KnownBefore(w, hs, h, id, json, m, at);
    }
  }

  // ---------- the listing over the web ----------

  /** A connection whose bytes ask for `path` at the site where they were decided. */
  predicate AsksFor(c: Conn, path: string) {
    && c.at.Some? && c.first.Ok()
    && Run(c.first, c.received).verdict == Good
    && RequestPath(c.at.value, Run(c.first, c.received).machine.message.uri) == Some(path)
    && "/rdb/" <= path && c.at.value.isValidCall(path)
  }

  /** In every run of both servers from a file's contents: the reply to a listing request
      over the web is the listing of the store that the commands before the deciding step,
      from the web or not, have made of the file, faithful exactly under the conditions of
      `GetIsFaithful`. */
  lemma WebGetShowsTheLiveStore<Id>(
      contents: string, hs: seq<Happening<Id>>, id: Id, path: string, json: RdbHandler.RdbReply -> string)
      returns (m: nat)
    requires CanRun(World(Init<Id>(), Read(EMPTY, contents)), hs, json)
    requires var s := End(World(Init<Id>(), Read(EMPTY, contents)), hs, json).server;
             id in s.conns && AsksFor(s.conns[id], path)
    requires "/get" <= path[4..] && Session.Interpret(path[4..]).GetAll?
    ensures var w := World(Init<Id>(), Read(EMPTY, contents));
            var c := End(w, hs, json).server.conns[id];
            && c.received == Delivery.Delivered(WebEvents(hs), id)
            && m < |hs| && DecidedBy(hs[m], id, c.at) && CanRun(w, hs[..m], json)
            && var t := Reached(contents, Log(w, hs[..m], json));
               var reply := RdbHandler.ReplyTo(t, path[4..]);
            && t == End(w, hs[..m], json).store
            && (reply.Overrun? || c.reply.content == json(reply))
            && ((reply.Reminders? && EndToEnd.IsPairing(reply.records, t.fields, t.rows))
                <==> ColonFree(t) && EndToEnd.Narrow(t))
  {
    var w := World(Init<Id>(), Read(EMPTY, contents));
    var c := End(w, hs, json).server.conns[id];
    m := ReplyKnowsItsStore(w, hs, id, json);
    StoreIsLog(w, hs[..m], json);
    ServerRuns(w, hs, json);
    MembersAreServed(WebEvents(hs), id);
    Delivery.ReplyIsDecidedByDelivery(WebEvents(hs), id);
    ReplyOfDecided(c, path);
    var uri := Run(c.first, c.received).machine.message.uri;
    assert EndToEnd.SpeaksFor(c.at.value, End(w, hs[..m], json).store, path, json);
    EndToEnd.WebGetIsFaithful(contents, Log(w, hs[..m], json), c.at.value, uri, path, json, NEW_REPLY);
  }

  lemma ReplyOfDecided(c: Conn, path: string)
    requires Decided(c) && AsksFor(c, path)
    ensures c.reply == Handled(c.at.value, Run(c.first, c.received).machine.message.uri, NEW_REPLY)
  {
  }

  // ---------- commands over the web ----------

  /** The request of a connection whose read is about to be handled: all its bytes so far. */
  predicate WillCall(c: Conn, k: nat, site: Site, param: string) {
    && Ready(c, k) && IsHot(c.ops[k])
    && Run(c.machine, c.ops[k].state.data).verdict == Good
    && RequestPath(site, Run(c.machine, c.ops[k].state.data).machine.message.uri) == Some("/rdb" + param)
    && "/" <= param && site.isValidCall("/rdb" + param)
  }

  /** A handler that is about to answer `/rdb` and a command line gives that line, and no
      other, to the data server, and the store changes as the command says. */
  lemma WebCommandActs<Id>(w: World<Id>, id: Id, k: nat, error: Code, site: Site, param: string)
    requires Named(w.store.rows) && Enabled(w.server, RunIo(id, k, error, site))
    requires WillCall(w.server.conns[id], k, site, param)
    ensures CommandLines(w, Web(RunIo(id, k, error, site))) == [param]
    ensures WorldAfter(w, Web(RunIo(id, k, error, site))).store == Session.Effect(w.store, Session.Interpret(param))
  {
    var path := "/rdb" + param;
    assert path[4..] == param && "/rdb/" <= path;
    ExecuteOne(w.store, param);
  }

  lemma ExecuteOne(t: Table, param: string)
    requires Named(t.rows)
    ensures Session.Execute(t, [param]) == Session.Effect(t, Session.Interpret(param))
  {
    var t' := Session.Effect(t, Session.Interpret(param));
    assert [param][1..] == [] && Session.Execute(t', []) == t';
  }

  /** Another client's request acts as its command says and leaves the web server alone. */
  lemma DirectRequestActs<Id>(w: World<Id>, request: string)
    requires Named(w.store.rows)
    ensures WorldAfter(w, Direct(request)).store == Session.Effect(w.store, Session.Interpret(request))
    ensures WorldAfter(w, Direct(request)).server == w.server
  {
    ExecuteOne(w.store, request);
  }

  /** A provider call is made for such a request only. */
  lemma CallIsRequest(site: Site, c: Conn, k: nat)
    requires Ready(c, k) && CallIn(site, c, k).Some?
    ensures WillCall(c, k, site, CallIn(site, c, k).value)
  {
    var path := RequestPath(site, Run(c.machine, c.ops[k].state.data).machine.message.uri).value;
    assert path == "/rdb" + path[4..] && path[4] == '/';
  }

  /** No other step of the web server touches the store. */
  lemma OtherStepsLeaveTheStore<Id>(w: World<Id>, e: Event<Id>)
    requires Named(w.store.rows) && Enabled(w.server, e)
    requires e.RunIo? ==> forall param | "/" <= param :: !WillCall(w.server.conns[e.id], e.k, e.site, param)
    ensures WorldAfter(w, Web(e)).store == w.store
  {
    if e.RunIo? && CallIn(e.site, w.server.conns[e.id], e.k).Some? {
      CallIsRequest(e.site, w.server.conns[e.id], e.k);
    }
  }

  lemma ServerInv<Id>(w: World<Id>, hs: seq<Happening<Id>>, json: RdbHandler.RdbReply -> string)
    requires Named(w.store.rows) && CanRun(w, hs, json) && Inv(w.server)
    ensures Inv(End(w, hs, json).server)
  {
    ServerRuns(w, hs, json);
    RunInv(w.server, WebEvents(hs));
  }

  /** Nothing about a decided connection changes but its socket and its operations. */
  ghost predicate Frozen(c: Conn, c': Conn) {
    c' == c.(open := c'.open, ops := c'.ops)
  }

  /** The handler that takes a connection from `c` to a decision. */
  ghost predicate Decides(site: Site, c: Conn, k: nat, c': Conn) {
    && Ready(c, k) && IsHot(c.ops[k])
    && var r := Run(c.machine, c.ops[k].state.data);
    && r.verdict != Indeterminate
    && c'.first == c.first && c'.received == c.received + c.ops[k].state.data
    && c'.machine == r.machine && c'.at == Some(site)
  }

  /** One handler: it decides, or the connection was decided before and stays as it was. */
  lemma HandlerDecides(site: Site, c: Conn, k: nat, error: Code)
    requires ConnInv(c) && Ready(c, k) && Settled(site, c, k, error).at.Some?
    ensures Frozen(c, Settled(site, c, k, error)) || Decides(site, c, k, Settled(site, c, k, error))
  {
    assert OpInv(c, c.ops[0]);
  }

  lemma StepDecides<Id>(s: Server<Id>, e: Event<Id>, id: Id)
    requires Inv(s) && Enabled(s, e) && id in Next(s, e).conns && Next(s, e).conns[id].at.Some?
    ensures id in s.conns
    ensures Frozen(s.conns[id], Next(s, e).conns[id])
            || (e.RunIo? && e.id == id && Decides(e.site, s.conns[id], e.k, Next(s, e).conns[id]))
  {
    if e.RunIo? && e.id == id {
      HandlerDecides(e.site, s.conns[id], e.k, e.error);
    }
  }

  ghost predicate DecidesIn<Id>(s: Server<Id>, h: Happening<Id>, id: Id, c: Conn) {
    h.Web? && h.e.RunIo? && h.e.id == id && id in s.conns && Decides(h.e.site, s.conns[id], h.e.k, c)
  }

  lemma HappeningDecides<Id>(w: World<Id>, h: Happening<Id>, id: Id, c: Conn) returns (now: bool)
    requires Possibly(w, h) && Inv(w.server)
    requires id in WorldAfter(w, h).server.conns && WorldAfter(w, h).server.conns[id] == c && c.at.Some?
    ensures now ==> DecidesIn(w.server, h, id, c)
    ensures !now ==> id in w.server.conns && w.server.conns[id].at.Some? && Frozen(w.server.conns[id], c)
  {
    if h.Web? {
      StepDecides(w.server, h.e, id);
    }
    now := !(id in w.server.conns && w.server.conns[id].at.Some? && Frozen(w.server.conns[id], c));
  }

  lemma FrozenAfterFrozen(a: Conn, b: Conn, c: Conn)
    requires Frozen(a, b) && Frozen(b, c)
    ensures Frozen(a, c)
  {
  }

  /** Step `m` of a run takes a connection to the decision `c`. */
  ghost predicate Deciding<Id>(
      w: World<Id>, hs: seq<Happening<Id>>, id: Id, json: RdbHandler.RdbReply -> string, m: nat, c: Conn)
    requires Named(w.store.rows)
  {
    && m < |hs| && CanRun(w, hs[..m], json) && CanHappen(End(w, hs[..m], json), hs[m], json)
    && DecidesIn(End(w, hs[..m], json).server, hs[m], id, c)
  }

  lemma DecidingNow<Id>(
      w: World<Id>, hs: seq<Happening<Id>>, h: Happening<Id>, id: Id, json: RdbHandler.RdbReply -> string, c: Conn)
    requires Named(w.store.rows) && CanRun(w, hs, json) && CanHappen(End(w, hs, json), h, json)
    requires DecidesIn(End(w, hs, json).server, h, id, c)
    ensures Deciding(w, hs + [h], id, json, |hs|, c)
  {
    assert (hs + [h])[..|hs|] == hs;
  }

  lemma DecidingBefore<Id>(
      w: World<Id>, hs: seq<Happening<Id>>, h: Happening<Id>, id: Id, json: RdbHandler.RdbReply -> string, m: nat, c: Conn)
    requires Named(w.store.rows) && Deciding(w, hs, id, json, m, c)
    ensures Deciding(w, hs + [h], id, json, m, c)
  {
    assert (hs + [h])[..m] == hs[..m];
  }

  /** The step that decided a connection, and the connection after it. */
  lemma {:induction false} StepOfDecision<Id>(
      w: World<Id>, hs: seq<Happening<Id>>, id: Id, json: RdbHandler.RdbReply -> string, final: Conn)
      returns (m: nat, c: Conn)
    requires Named(w.store.rows) && CanRun(w, hs, json) && Inv(w.server) && id !in w.server.conns
    requires id in End(w, hs, json).server.conns && End(w, hs, json).server.conns[id] == final && final.at.Some?
    ensures Deciding(w, hs, id, json, m, c) && Frozen(c, final)
    decreases |hs|, 1
  {
    assert hs == Front(hs) + [Last(hs)];
    RunSnoc(w, Front(hs), Last(hs), json);
    m, c := LastOrEarlier(w, Front(hs), Last(hs), id, json, final);
  }

  lemma {:induction false} LastOrEarlier<Id>(
      w: World<Id>, hs: seq<Happening<Id>>, h: Happening<Id>, id: Id, json: RdbHandler.RdbReply -> string, final: Conn)
      returns (m: nat, c: Conn)
    requires Named(w.store.rows) && CanRun(w, hs, json) && CanHappen(End(w, hs, json), h, json)
    requires Inv(w.server) && id !in w.server.conns && final.at.Some?
    requires id in WorldAfter(End(w, hs, json), h).server.conns && WorldAfter(End(w, hs, json), h).server.conns[id] == final
    ensures Deciding(w, hs + [h], id, json, m, c) && Frozen(c, final)
    decreases |hs|, 2
  {
    ServerInv(w, hs, json);
    var now := HappeningDecides(End(w, hs, json), h, id, final);
    if now {
      m, c := |hs|, final;
      DecidingNow(w, hs, h, id, json, c);
    } else {
      var before := End(w, hs, json).server.conns[id];
      m, c := StepOfDecision(w, hs, id, json, before);
      DecidingBefore(w, hs, h, id, json, m, c);
      FrozenAfterFrozen(c, before, final);
    }
  }

  /** The last read of an accepted request, read on from where the others ended. */
  lemma LastRead(first: Machine, x: string, y: string)
    requires first.Ok() && Run(first, x).verdict == Indeterminate
    ensures Run(Run(first, x).machine, y).verdict == Run(first, x + y).verdict
    ensures Run(Run(first, x).machine, y).machine == Run(first, x + y).machine
  {
    RunAppend(first, x, y);
  }

  lemma DecisionIsOfLastRead(site: Site, before: Conn, k: nat, c: Conn, path: string)
    requires Decided(before) && before.at.None? && Decides(site, before, k, c) && AsksFor(c, path)
    ensures CallIn(site, before, k) == Some(path[4..])
  {
    LastRead(before.first, before.received, before.ops[k].state.data);
  }

  /** In every run: a connection whose bytes ask for `/rdb` and a command line has given that
      line to the data server in the step in which its reply was chosen. */
  lemma RequestActs<Id>(
      w: World<Id>, hs: seq<Happening<Id>>, id: Id, param: string, json: RdbHandler.RdbReply -> string) returns (m: nat)
    requires Named(w.store.rows) && CanRun(w, hs, json) && Inv(w.server) && id !in w.server.conns
    requires id in End(w, hs, json).server.conns && AsksFor(End(w, hs, json).server.conns[id], "/rdb" + param)
    ensures m < |hs| && DecidedBy(hs[m], id, End(w, hs, json).server.conns[id].at)
    ensures CanRun(w, hs[..m], json) && Possibly(End(w, hs[..m], json), hs[m])
    ensures CommandLines(End(w, hs[..m], json), hs[m]) == [param]
  {
    var c;
    m, c := StepOfDecision(w, hs, id, json, End(w, hs, json).server.conns[id]);
    ServerInv(w, hs[..m], json);
    var s := End(w, hs[..m], json).server;
    assert ConnInv(s.conns[id]) && OpInv(s.conns[id], s.conns[id].ops[0]);
    DecisionIsOfLastRead(hs[m].e.site, s.conns[id], hs[m].e.k, c, "/rdb" + param);
    assert ("/rdb" + param)[4..] == param;
  }
}
