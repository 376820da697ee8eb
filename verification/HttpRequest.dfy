/** The incremental request parser (HttpWrapper/src/request_parser.*): a machine of
    twenty states that builds a request byte by byte. */
module HttpRequest {
  import opened Text
  import opened Decimal

  datatype Header = Header(name: string, value: string)

  /** The value of a `request` struct. */
  datatype Message = Message(verb: string, uri: string, major: int, minor: int, headers: seq<Header>)

  datatype State =
    | MethodStart | Method | Uri
    | VersionH | VersionT1 | VersionT2 | VersionP | VersionSlash
    | MajorStart | Major | MinorStart | Minor | Newline1
    | HeaderLineStart | HeaderLws | HeaderName | SpaceBeforeValue | HeaderValue
    | Newline2 | Newline3

  datatype Verdict = Good | Bad | Indeterminate

  /** The states in which a header is being read. */
  predicate InHeader(st: State) {
    st.HeaderLws? || st.HeaderName? || st.SpaceBeforeValue? || st.HeaderValue? || st.Newline2?
  }

  // A byte from 128 to 255 is a negative `char` where `char` is signed: neither a
  // "char" nor a control character, exactly as below.
  predicate IsChar(c: char) {
    c as int <= 127
  }

  predicate IsCtl(c: char) {
    c as int <= 31 || c as int == 127
  }

  predicate IsTspecial(c: char) {
    || c == '(' || c == ')' || c == '<' || c == '>' || c == '@'
    || c == ',' || c == ';' || c == ':' || c == '\\' || c == '"'
    || c == '/' || c == '[' || c == ']' || c == '?' || c == '='
    || c == '{' || c == '}' || c == ' ' || c == '\t'
  }

  predicate IsTokenChar(c: char) {
    IsChar(c) && !IsCtl(c) && !IsTspecial(c)
  }

  predicate IsBlank(c: char) {
    c == ' ' || c == '\t'
  }

  /** Parser state together with the request under construction. */
  datatype Machine = Machine(state: State, message: Message) {
    /** Header names are non-empty, and the states that write to `headers.back()`
        have a header to write to. */
    predicate Ok() {
      && (forall h | h in message.headers :: h.name != "")
      && (InHeader(state) ==> message.headers != [])
    }
  }

  /** A new parser and an empty request; the version fields are uninitialised. */
  function Fresh(major: int, minor: int): Machine {
    Machine(MethodStart, Message("", "", major, minor, []))
  }

  function AppendToName(msg: Message, c: char): Message
    requires msg.headers != []
  {
    var h := Last(msg.headers);
    msg.(headers := Front(msg.headers) + [h.(name := h.name + [c])])
  }

  function AppendToValue(msg: Message, c: char): Message
    requires msg.headers != []
  {
    var h := Last(msg.headers);
    msg.(headers := Front(msg.headers) + [h.(value := h.value + [c])])
  }

  /** One byte that must be `want` to go on to `next`. */
  function Expect(m: Machine, c: char, want: char, next: State): (Verdict, Machine) {
    if c == want then (Indeterminate, m.(state := next)) else (Bad, m)
  }

  /** What `consume` does with one byte. */
  function Step(m: Machine, c: char): (r: (Verdict, Machine))
    requires m.Ok()
    ensures r.1.Ok()
    ensures r.0 != Indeterminate ==> r.1 == m
  {
    var msg := m.message;
    match m.state
    case MethodStart =>
      if !IsTokenChar(c) then (Bad, m)
      else (Indeterminate, Machine(Method, msg.(verb := msg.verb + [c])))
    case Method =>
      if c == ' ' then (Indeterminate, m.(state := Uri))
      else if !IsTokenChar(c) then (Bad, m)
      else (Indeterminate, Machine(Method, msg.(verb := msg.verb + [c])))
    case Uri =>
      if c == ' ' then (Indeterminate, m.(state := VersionH))
      else if IsCtl(c) then (Bad, m)
      else (Indeterminate, Machine(Uri, msg.(uri := msg.uri + [c])))
    case VersionH => Expect(m, c, 'H', VersionT1)
    case VersionT1 => Expect(m, c, 'T', VersionT2)
    case VersionT2 => Expect(m, c, 'T', VersionP)
    case VersionP => Expect(m, c, 'P', VersionSlash)
    case VersionSlash =>
      if c == '/' then (Indeterminate, Machine(MajorStart, msg.(major := 0, minor := 0))) else (Bad, m)
    case MajorStart =>
      if IsDigit(c) then (Indeterminate, Machine(Major, msg.(major := msg.major * 10 + DigitValue(c))))
      else (Bad, m)
    case Major =>
      if c == '.' then (Indeterminate, m.(state := MinorStart))
      else if IsDigit(c) then (Indeterminate, Machine(Major, msg.(major := msg.major * 10 + DigitValue(c))))
      else (Bad, m)
    case MinorStart =>
      if IsDigit(c) then (Indeterminate, Machine(Minor, msg.(minor := msg.minor * 10 + DigitValue(c))))
      else (Bad, m)
    case Minor =>
      if c == '\r' then (Indeterminate, m.(state := Newline1))
      else if IsDigit(c) then (Indeterminate, Machine(Minor, msg.(minor := msg.minor * 10 + DigitValue(c))))
      else (Bad, m)
    case Newline1 => Expect(m, c, '\n', HeaderLineStart)
    case HeaderLineStart =>
      if c == '\r' then (Indeterminate, m.(state := Newline3))
      else if msg.headers != [] && IsBlank(c) then (Indeterminate, m.(state := HeaderLws))
      else if !IsTokenChar(c) then (Bad, m)
      else (Indeterminate, Machine(HeaderName, msg.(headers := msg.headers + [Header([c], "")])))
    case HeaderLws =>
      if c == '\r' then (Indeterminate, m.(state := Newline2))
      else if IsBlank(c) then (Indeterminate, m)
      else if IsCtl(c) then (Bad, m)
      else (Indeterminate, Machine(HeaderValue, AppendToValue(msg, c)))
    case HeaderName =>
      if c == ':' then (Indeterminate, m.(state := SpaceBeforeValue))
      else if !IsTokenChar(c) then (Bad, m)
      else (Indeterminate, Machine(HeaderName, AppendToName(msg, c)))
    case SpaceBeforeValue => Expect(m, c, ' ', HeaderValue)
    case HeaderValue =>
      if c == '\r' then (Indeterminate, m.(state := Newline2))
      else if IsCtl(c) then (Bad, m)
      else (Indeterminate, Machine(HeaderValue, AppendToValue(msg, c)))
    case Newline2 => Expect(m, c, '\n', HeaderLineStart)
    case Newline3 => (if c == '\n' then Good else Bad, m)
  }

  /** What `parse` reports: the verdict, the machine left behind and the bytes used. */
  datatype Outcome = Outcome(verdict: Verdict, machine: Machine, used: nat)

  /** `parse` over one buffer: stop at the first byte that is not indeterminate. */
  function Run(m: Machine, x: string): (r: Outcome)
    requires m.Ok()
    ensures r.machine.Ok() && r.used <= |x|
    ensures r.verdict == Indeterminate ==> r.used == |x|
    ensures r.verdict != Indeterminate ==> r.used > 0
    decreases |x|
  {
    if x == "" then Outcome(Indeterminate, m, 0)
    else
      var (v, m') := Step(m, x[0]);
      if v != Indeterminate then Outcome(v, m', 1)
      else
        var r := Run(m', x[1..]);
        r.(used := r.used + 1)
  }

  /** The read loop of a connection: one `parse` per buffer, as long as it asks for more. */
  function RunChunks(m: Machine, chunks: seq<string>): Outcome
    requires m.Ok()
    decreases |chunks|
  {
    if chunks == [] then Outcome(Indeterminate, m, 0)
    else
      var r := Run(m, chunks[0]);
      if r.verdict != Indeterminate then r
      else
        var rest := RunChunks(r.machine, chunks[1..]);
        rest.(used := r.used + rest.used)
  }

  /** Running over `x + y`: `y` is looked at only if `x` was not decisive. */
  lemma {:induction false} RunAppend(m: Machine, x: string, y: string)
    requires m.Ok()
    ensures Run(m, x).verdict != Indeterminate ==> Run(m, x + y) == Run(m, x)
    ensures Run(m, x).verdict == Indeterminate ==>
              var r := Run(Run(m, x).machine, y);
              Run(m, x + y) == r.(used := |x| + r.used)
    decreases |x|
  {
    if x == "" {
      assert x + y == y;
    } else {
      assert (x + y)[1..] == x[1..] + y;
      RunAppend(Step(m, x[0]).1, x[1..], y);
    }
  }

  /** Chunk independence: how the network cuts the bytes into reads changes neither the
      verdict, nor the request, nor the number of bytes used. */
  lemma {:induction false} ChunkIndependence(m: Machine, chunks: seq<string>)
    requires m.Ok()
    ensures RunChunks(m, chunks) == Run(m, Concat(chunks))
    decreases |chunks|
  {
    if chunks != [] {
      RunAppend(m, chunks[0], Concat(chunks[1..]));
      if Run(m, chunks[0]).verdict == Indeterminate {
        ChunkIndependence(Run(m, chunks[0]).machine, chunks[1..]);
      }
    }
  }

  /** The first `used` bytes alone lead to the same outcome, and no shorter prefix is decisive. */
  lemma {:induction false} RunPrefix(m: Machine, x: string, n: nat)
    requires m.Ok() && n <= |x|
    ensures n >= Run(m, x).used ==> Run(m, x[..n]).verdict == Run(m, x).verdict
    ensures n >= Run(m, x).used ==> Run(m, x[..n]).used == Run(m, x).used
    ensures n < Run(m, x).used ==> Run(m, x[..n]).verdict == Indeterminate
  {
    RunAppend(m, x[..n], x[n..]);
    assert x[..n] + x[n..] == x;
  }

  /** The `request` struct, filled in place. */
  class Request {
    var verb: string
    var uri: string
    var major: int
    var minor: int
    var headers: seq<Header>

    constructor (major: int, minor: int)
      ensures Value() == Fresh(major, minor).message
    {
      verb, uri, headers := "", "", [];
      this.major, this.minor := major, minor;
    }

    function Value(): Message
      reads this
    {
      Message(verb, uri, major, minor, headers)
    }
  }

  class RequestParser {
    var state: State

    constructor ()
      ensures state == MethodStart
    {
      state := MethodStart;
    }

    method Reset()
      modifies this
      ensures state == MethodStart
    {
      state := MethodStart;
    }

    method Consume(req: Request, input: char) returns (result: Verdict)
      requires Machine(state, req.Value()).Ok()
      modifies this, req
      ensures (result, Machine(state, req.Value())) == old(Step(Machine(state, req.Value()), input))
    {
      result := Indeterminate;
      match state {
        case MethodStart =>
          if !IsTokenChar(input) { return Bad; }
          state := Method;
          req.verb := req.verb + [input];
        case Method =>
          if input == ' ' {
            state := Uri;
          } else if !IsTokenChar(input) {
            return Bad;
          } else {
            req.verb := req.verb + [input];
          }
        case Uri =>
          if input == ' ' {
            state := VersionH;
          } else if IsCtl(input) {
            return Bad;
          } else {
            req.uri := req.uri + [input];
          }
        case VersionH => if input == 'H' { state := VersionT1; } else { return Bad; }
        case VersionT1 => if input == 'T' { state := VersionT2; } else { return Bad; }
        case VersionT2 => if input == 'T' { state := VersionP; } else { return Bad; }
        case VersionP => if input == 'P' { state := VersionSlash; } else { return Bad; }
        case VersionSlash =>
          if input != '/' { return Bad; }
          req.major, req.minor := 0, 0;
          state := MajorStart;
        case MajorStart =>
          if !IsDigit(input) { return Bad; }
          req.major := req.major * 10 + input as int - '0' as int;
          state := Major;
        case Major =>
          if input == '.' {
            state := MinorStart;
          } else if IsDigit(input) {
            req.major := req.major * 10 + input as int - '0' as int;
          } else {
            return Bad;
          }
        case MinorStart =>
          if !IsDigit(input) { return Bad; }
          req.minor := req.minor * 10 + input as int - '0' as int;
          state := Minor;
        case Minor =>
          if input == '\r' {
            state := Newline1;
          } else if IsDigit(input) {
            req.minor := req.minor * 10 + input as int - '0' as int;
          } else {
            return Bad;
          }
        case Newline1 => if input == '\n' { state := HeaderLineStart; } else { return Bad; }
        case HeaderLineStart =>
          if input == '\r' {
            state := Newline3;
          } else if req.headers != [] && IsBlank(input) {
            state := HeaderLws;
          } else if !IsTokenChar(input) {
            return Bad;
          } else {
            req.headers := req.headers + [Header([input], "")];
            state := HeaderName;
          }
        case HeaderLws =>
          if input == '\r' {
            state := Newline2;
          } else if IsBlank(input) {
          } else if IsCtl(input) {
            return Bad;
          } else {
            state := HeaderValue;
            PushValue(req, input);
          }
        case HeaderName =>
          if input == ':' {
            state := SpaceBeforeValue;
          } else if !IsTokenChar(input) {
            return Bad;
          } else {
            var h := Last(req.headers);
            assert req.headers[|req.headers| - 1 := h.(name := h.name + [input])]
                   == Front(req.headers) + [h.(name := h.name + [input])];
            req.headers := req.headers[|req.headers| - 1 := h.(name := h.name + [input])];
          }
        case SpaceBeforeValue => if input == ' ' { state := HeaderValue; } else { return Bad; }
        case HeaderValue =>
          if input == '\r' {
            state := Newline2;
          } else if IsCtl(input) {
            return Bad;
          } else {
            PushValue(req, input);
          }
        case Newline2 => if input == '\n' { state := HeaderLineStart; } else { return Bad; }
        case Newline3 => return if input == '\n' then Good else Bad;
      }
    }

    /** `req.headers.back().value.push_back(input)` */
    method PushValue(req: Request, input: char)
      requires req.headers != []
      modifies req
      ensures req.Value() == old(AppendToValue(req.Value(), input))
    {
      var h := Last(req.headers);
      req.headers := req.headers[|req.headers| - 1 := h.(value := h.value + [input])];
    }

    /** `parse` over a buffer; `used` is the distance the iterator moved. */
    method Parse(req: Request, data: string) returns (result: Verdict, used: nat)
      requires Machine(state, req.Value()).Ok()
      modifies this, req
      ensures Outcome(result, Machine(state, req.Value()), used) == old(Run(Machine(state, req.Value()), data))
    {
      ghost var whole := Run(Machine(state, req.Value()), data);
      used := 0;
      while used != |data|
        invariant used <= |data|
        invariant Machine(state, req.Value()).Ok()
        invariant var r := Run(Machine(state, req.Value()), data[used..]);
                  whole == r.(used := used + r.used)
        decreases |data| - used
      {
        assert data[used..][1..] == data[used + 1..];
        result := Consume(req, data[used]);
        used := used + 1;
        if result == Good || result == Bad {
          return;
        }
      }
      result := Indeterminate;
    }
  }
}
