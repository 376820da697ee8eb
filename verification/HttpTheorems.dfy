/** What the request parser guarantees, for every byte string. */
module HttpTheorems {
  import opened HttpRequest
  import opened HttpGrammar
  import HttpSoundness
  import HttpCompleteness

  /** A new parser accepts `x` after `n` bytes and hands over `msg`. */
  predicate AcceptsAs(major: int, minor: int, x: string, n: nat, msg: Message) {
    var r := Run(Fresh(major, minor), x);
    r.verdict == Good && r.used == n && r.machine.message == msg
  }

  /** A tree spells the first `n` bytes of `x` and means `msg`. */
  ghost predicate Spells(s: Syntax, x: string, n: nat, msg: Message) {
    s.WellFormed() && n <= |x| && x[..n] == Spell(s) && msg == Meaning(s)
  }

  /** The parser is the grammar: both directions, whatever the version fields held before. */
  lemma ParserIsGrammar(major: int, minor: int, x: string, n: nat, msg: Message)
    ensures AcceptsAs(major, minor, x, n, msg) <==> exists s :: Spells(s, x, n, msg)
  {
    if AcceptsAs(major, minor, x, n, msg) {
      var s := HttpSoundness.Sound(major, minor, x);
      assert Spells(s, x, n, msg);
    }
    if exists s :: Spells(s, x, n, msg) {
      var s :| Spells(s, x, n, msg);
      HttpCompleteness.Complete(major, minor, s);
      assert x == Spell(s) + x[n..];
      RunAppend(Fresh(major, minor), Spell(s), x[n..]);
    }
  }

  /** The text of a request is never a proper prefix of another's, and texts that agree
      mean the same request. */
  lemma GrammarIsPrefixFree(s: Syntax, t: Syntax, rest: string)
    requires s.WellFormed() && t.WellFormed() && Spell(t) == Spell(s) + rest
    ensures rest == "" && Meaning(s) == Meaning(t)
  {
    HttpCompleteness.Complete(0, 0, s);
    HttpCompleteness.Complete(0, 0, t);
    RunAppend(Fresh(0, 0), Spell(s), rest);
  }

  // ---------- earliest rejection ----------

  function NextByte(st: State): (c: char)
    ensures c as int < 128
  {
    match st
    case MethodStart => 'G'
    case Method => ' '
    case Uri => ' '
    case VersionH => 'H'
    case VersionT1 => 'T'
    case VersionT2 => 'T'
    case VersionP => 'P'
    case VersionSlash => '/'
    case MajorStart => '1'
    case Major => '.'
    case MinorStart => '0'
    case Minor => '\r'
    case Newline1 => '\n'
    case HeaderLineStart => '\r'
    case HeaderLws => '\r'
    case HeaderName => ':'
    case SpaceBeforeValue => ' '
    case HeaderValue => '\r'
    case Newline2 => '\n'
    case Newline3 => '\n'
  }

  /** Steps from a state to acceptance along `NextByte`. */
  function StepsToGo(st: State): nat {
    match st
    case MethodStart => 14
    case Method => 13
    case Uri => 12
    case VersionH => 11
    case VersionT1 => 10
    case VersionT2 => 9
    case VersionP => 8
    case VersionSlash => 7
    case MajorStart => 6
    case Major => 5
    case MinorStart => 4
    case Minor => 3
    case Newline1 => 2
    case HeaderName => 5
    case SpaceBeforeValue => 4
    case HeaderLws => 3
    case HeaderValue => 3
    case Newline2 => 2
    case HeaderLineStart => 1
    case Newline3 => 0
  }

  /** Every one of the twenty states, whatever request it holds, has a completing suffix. */
  lemma {:induction false} EveryStateCompletes(m: Machine) returns (y: string)
    requires m.Ok()
    ensures Run(m, y).verdict == Good
    ensures |y| == StepsToGo(m.state) + 1
    decreases StepsToGo(m.state)
  {
    var c := NextByte(m.state);
    var (v, m') := Step(m, c);
    if v == Good {
      y := [c];
    } else {
      var y1 := EveryStateCompletes(m');
      y := [c] + y1;
      assert y[1..] == y1;
    }
  }

  ghost predicate HasAcceptedExtension(m: Machine, x: string)
    requires m.Ok()
  {
    exists y :: Run(m, x + y).verdict == Good
  }

  /** A buffer is rejected exactly when neither it nor any extension of it is accepted. */
  lemma RejectsIffHopeless(m: Machine, x: string)
    requires m.Ok()
    ensures Run(m, x).verdict == Bad <==> !HasAcceptedExtension(m, x)
  {
    var r := Run(m, x);
    if r.verdict == Good {
      assert x + "" == x;
      assert Run(m, x + "").verdict == Good;
    } else if r.verdict == Indeterminate {
      var y := EveryStateCompletes(r.machine);
      RunAppend(m, x, y);
    } else {
      forall y ensures Run(m, x + y).verdict == Bad {
        RunAppend(m, x, y);
      }
    }
  }

  /** Rejection comes at the first byte that removes every accepted extension. */
  lemma RejectsAtEarliestByte(m: Machine, x: string, n: nat)
    requires m.Ok() && Run(m, x).verdict == Bad && n <= |x|
    ensures n < Run(m, x).used <==> HasAcceptedExtension(m, x[..n])
  {
    RunPrefix(m, x, n);
    RejectsIffHopeless(m, x[..n]);
  }
}
