/** Soundness of the request parser: from each state, an accepting run reads only what
    the grammar spells, and builds what the grammar means. One lemma per state; each
    returns the pieces that were read. */
module HttpSoundness {
  import opened Text
  import opened Decimal
  import opened HttpRequest
  import opened HttpGrammar

  /** Reading the suffix `x` from `m` ends in acceptance. */
  predicate Accepts(m: Machine, x: string)
    requires m.Ok()
  {
    Run(m, x).verdict == Good
  }

  /** The bytes used by an accepting run. */
  function Used(m: Machine, x: string): string
    requires m.Ok()
  {
    x[..Run(m, x).used]
  }

  /** An accepting run that is not at its last byte goes on from the next machine. */
  lemma Advance(m: Machine, x: string) returns (m': Machine, y: string)
    requires m.Ok() && Accepts(m, x) && !m.state.Newline3?
    ensures x != "" && y == x[1..] && (Indeterminate, m') == Step(m, x[0])
    ensures m'.Ok() && Accepts(m', y)
    ensures Run(m, x).machine == Run(m', y).machine
    ensures Used(m, x) == [x[0]] + Used(m', y)
  {
    m', y := Step(m, x[0]).1, x[1..];
    assert Step(m, x[0]).0 == Indeterminate;
  }

  /** From the start of a line that follows a header line. */
  lemma {:induction false} LineSound(m: Machine, x: string) returns (k: Tail)
    requires m.Ok() && m.state.HeaderLineStart? && m.message.headers != [] && Accepts(m, x)
    ensures k.WellFormed()
    ensures Used(m, x) == SpellLines(k)
    ensures Run(m, x).machine.message == Extend(m.message, "", k)
    decreases |x|, 2
  {
    if x[0] == '\r' {
      BlankLineSound(m, x);
      k := Tail([], []);
      ExtendByNothing(m.message, []);
    } else if IsBlank(x[0]) {
      k := FoldSound(m, x);
    } else {
      var m1, x1 := Advance(m, x);
      var fields := FieldSound(m.message.headers, x[0], m1, x1);
      k := Tail([], fields);
      ExtendByNothing(m.message, fields);
    }
  }

  /** The blank line. */
  lemma BlankLineSound(m: Machine, x: string)
    requires m.Ok() && m.state.HeaderLineStart? && Accepts(m, x) && x[0] == '\r'
    ensures Used(m, x) == CRLF
    ensures Run(m, x).machine.message == m.message
  {
    var m1, x1 := Advance(m, x);
    assert Step(m1, x1[0]).0 == Good;
  }

  /** A continuation line. */
  lemma {:induction false} FoldSound(m: Machine, x: string) returns (k: Tail)
    requires m.Ok() && m.state.HeaderLineStart? && m.message.headers != [] && Accepts(m, x) && IsBlank(x[0])
    ensures k.WellFormed()
    ensures Used(m, x) == SpellLines(k)
    ensures Run(m, x).machine.message == Extend(m.message, "", k)
    decreases |x|, 1
  {
    var m1, x1 := Advance(m, x);
    var b, t, k1 := BlanksSound(m1, x1);
    k := JoinFold(x[0], b, t, k1);
    ExtendByFold(m.message, t, k1, k);
  }

  /** The parts of a continuation line and its tail make up a longer tail. */
  lemma JoinFold(c: char, b: string, t: string, k1: Tail) returns (k: Tail)
    requires IsBlank(c) && AreBlanks(b) && IsFieldText(t) && (t != "" ==> !BlankByte(t[0])) && k1.WellFormed()
    ensures k.WellFormed() && k.fields == k1.fields
    ensures [c] + (b + (t + SpellTail(k1))) == SpellLines(k)
    ensures FoldedText(k.folds) == t + FoldedText(k1.folds)
  {
    var fold := Fold([c] + b, t);
    k := Tail([fold] + k1.folds, k1.fields);
    assert k.folds[1..] == k1.folds;
    RegroupFold([c] + b, t, CRLF, SpellFolds(k1.folds), SpellFields(k1.fields) + CRLF);
    Assoc([c], b, t + SpellTail(k1));
  }

  /** Among the blanks of a continuation line. */
  lemma {:induction false} BlanksSound(m: Machine, x: string) returns (b: string, t: string, k: Tail)
    requires m.Ok() && m.state.HeaderLws? && Accepts(m, x)
    ensures k.WellFormed() && AreBlanks(b) && IsFieldText(t) && (t != "" ==> !BlankByte(t[0]))
    ensures Used(m, x) == b + (t + SpellTail(k))
    ensures Run(m, x).machine.message == Extend(m.message, t, k)
    decreases |x|, 3
  {
    if x[0] == '\r' {
      k := LineEndSound(m, x);
      b, t := "", "";
      assert "" + ("" + SpellTail(k)) == SpellTail(k);
    } else {
      var m1, x1 := Advance(m, x);
      if IsBlank(x[0]) {
        b, t, k := BlanksSound(m1, x1);
        Assoc([x[0]], b, t + SpellTail(k));
        b := [x[0]] + b;
      } else {
        t, k := ValueSound(m1, x1);
        ExtendByOne(m.message, x[0], t, k);
        Assoc([x[0]], t, SpellTail(k));
        b, t := "", [x[0]] + t;
        assert "" + (t + SpellTail(k)) == t + SpellTail(k);
      }
    }
  }

  /** Within a value. */
  lemma {:induction false} ValueSound(m: Machine, x: string) returns (t: string, k: Tail)
    requires m.Ok() && m.state.HeaderValue? && Accepts(m, x)
    ensures k.WellFormed() && IsFieldText(t)
    ensures Used(m, x) == t + SpellTail(k)
    ensures Run(m, x).machine.message == Extend(m.message, t, k)
    decreases |x|, 3
  {
    if x[0] == '\r' {
      k := LineEndSound(m, x);
      t := "";
      assert "" + SpellTail(k) == SpellTail(k);
    } else {
      var m1, x1 := Advance(m, x);
      t, k := ValueSound(m1, x1);
      ExtendByOne(m.message, x[0], t, k);
      Assoc([x[0]], t, SpellTail(k));
      t := [x[0]] + t;
    }
  }

  /** The end of a header line and what follows. */
  lemma {:induction false} LineEndSound(m: Machine, x: string) returns (k: Tail)
    requires m.Ok() && (m.state.HeaderValue? || m.state.HeaderLws?) && Accepts(m, x) && x[0] == '\r'
    ensures k.WellFormed()
    ensures Used(m, x) == SpellTail(k)
    ensures Run(m, x).machine.message == Extend(m.message, "", k)
    decreases |x|, 1
  {
    var m1, x1 := Advance(m, x);
    assert m1 == m.(state := Newline2);
    var m2, x2 := Advance(m1, x1);
    assert x1[0] == '\n' && m2 == m.(state := HeaderLineStart);
    k := LineSound(m2, x2);
  }

  /** The colon and the space. */
  lemma {:induction false} SeparatorSound(m: Machine, x: string) returns (t: string, k: Tail)
    requires m.Ok() && m.state.HeaderName? && Accepts(m, x) && x[0] == ':'
    ensures k.WellFormed() && IsFieldText(t)
    ensures Used(m, x) == ": " + (t + SpellTail(k))
    ensures Run(m, x).machine.message == Extend(m.message, t, k)
    decreases |x|, 0
  {
    var m1, x1 := Advance(m, x);
    assert m1 == m.(state := SpaceBeforeValue);
    var m2, x2 := Advance(m1, x1);
    assert x1[0] == ' ' && m2 == m.(state := HeaderValue);
    t, k := ValueSound(m2, x2);
    var y := t + SpellTail(k);
    assert [':'] + ([' '] + y) == ": " + y;
  }

  /** Within a field name. */
  lemma {:induction false} NameSound(m: Machine, x: string) returns (n: string, t: string, k: Tail)
    requires m.Ok() && m.state.HeaderName? && Accepts(m, x)
    ensures k.WellFormed() && AreTokenChars(n) && IsFieldText(t)
    ensures Used(m, x) == n + (": " + (t + SpellTail(k)))
    ensures Run(m, x).machine.message == Extend(Rename(m.message, n), t, k)
    decreases |x|, 1
  {
    var m1, x1 := Advance(m, x);
    if x[0] == ':' {
      t, k := SeparatorSound(m, x);
      n := "";
      RenameByOne(m.message, ':', "");
      assert "" + (": " + (t + SpellTail(k))) == ": " + (t + SpellTail(k));
    } else {
      SameClasses(x[0]);
      n, t, k := NameSound(m1, x1);
      RenameByOne(m.message, x[0], n);
      Assoc([x[0]], n, ": " + (t + SpellTail(k)));
      n := [x[0]] + n;
    }
  }

  /** After the first byte `c` of a field name. */
  lemma {:induction false} FieldSound(before: seq<Header>, c: char, m: Machine, x: string) returns (fields: seq<Field>)
    requires m.Ok() && m.state.HeaderName? && Accepts(m, x)
    requires IsTokenChar(c) && m.message.headers == before + [Header([c], "")]
    ensures AllFields(fields)
    ensures [c] + Used(m, x) == SpellFields(fields) + CRLF
    ensures Run(m, x).machine.message == m.message.(headers := before + FieldsMeaning(fields))
    decreases |x|, 2
  {
    var n, t, k := NameSound(m, x);
    fields := JoinField(c, n, t, k);
    ExtendByField(m.message.(headers := before), m.message, c, n, t, k);
  }

  /** Name, first line and tail of a header line make up a field list. */
  lemma JoinField(c: char, n: string, t: string, k: Tail) returns (fields: seq<Field>)
    requires IsTokenChar(c) && AreTokenChars(n) && IsFieldText(t) && k.WellFormed()
    ensures AllFields(fields)
    ensures [c] + (n + (": " + (t + SpellTail(k)))) == SpellFields(fields) + CRLF
    ensures FieldsMeaning(fields) == [Header([c] + n, t + FoldedText(k.folds))] + FieldsMeaning(k.fields)
  {
    var g := Field([c] + n, t, k.folds);
    fields := [g] + k.fields;
    assert fields[1..] == k.fields;
    RegroupField(g.name, ": ", t, CRLF, SpellFolds(k.folds), SpellFields(k.fields));
    Assoc([c], n, ": " + (t + SpellTail(k)));
  }

  /** The header section, from the first line after the request line. */
  lemma SectionSound(m: Machine, x: string) returns (fields: seq<Field>)
    requires m.Ok() && m.state.HeaderLineStart? && m.message.headers == [] && Accepts(m, x)
    ensures AllFields(fields)
    ensures Used(m, x) == SpellFields(fields) + CRLF
    ensures Run(m, x).machine.message == m.message.(headers := FieldsMeaning(fields))
  {
    if x[0] == '\r' {
      BlankLineSound(m, x);
      fields := [];
    } else {
      var m1, x1 := Advance(m, x);
      fields := FieldSound([], x[0], m1, x1);
    }
  }

  /** Within the minor version. */
  lemma {:induction false} MinorSound(m: Machine, x: string) returns (e: string, fields: seq<Field>)
    requires m.Ok() && m.state.Minor? && m.message.headers == [] && Accepts(m, x)
    ensures IsNumeral(e) && AllFields(fields)
    ensures Used(m, x) == e + SpellSection(fields)
    ensures Run(m, x).machine.message
         == m.message.(minor := Accumulate(m.message.minor, e), headers := FieldsMeaning(fields))
    decreases |x|
  {
    var m1, x1 := Advance(m, x);
    if x[0] == '\r' {
      var m2, x2 := Advance(m1, x1);
      fields := SectionSound(m2, x2);
      e := "";
      assert "" + SpellSection(fields) == ['\r'] + (['\n'] + (SpellFields(fields) + CRLF));
    } else {
      e, fields := MinorSound(m1, x1);
      Assoc([x[0]], e, SpellSection(fields));
      e := [x[0]] + e;
    }
  }

  /** After the dot. */
  lemma MinorStartSound(m: Machine, x: string) returns (e: string, fields: seq<Field>)
    requires m.Ok() && m.state.MinorStart? && m.message.headers == [] && Accepts(m, x)
    ensures IsNumeral(e) && e != "" && AllFields(fields)
    ensures Used(m, x) == e + SpellSection(fields)
    ensures Run(m, x).machine.message
         == m.message.(minor := Accumulate(m.message.minor, e), headers := FieldsMeaning(fields))
  {
    var m1, x1 := Advance(m, x);
    var e1;
    e1, fields := MinorSound(m1, x1);
    Assoc([x[0]], e1, SpellSection(fields));
    e := [x[0]] + e1;
    assert e[1..] == e1;
  }

  /** Within the major version. */
  lemma {:induction false} MajorSound(m: Machine, x: string) returns (d: string, e: string, fields: seq<Field>)
    requires m.Ok() && m.state.Major? && m.message.headers == [] && Accepts(m, x)
    ensures IsNumeral(d) && IsNumeral(e) && e != "" && AllFields(fields)
    ensures Used(m, x) == SpellVersion(d, e, fields)
    ensures Run(m, x).machine.message
         == m.message.(major := Accumulate(m.message.major, d), minor := Accumulate(m.message.minor, e),
                       headers := FieldsMeaning(fields))
    decreases |x|
  {
    var m1, x1 := Advance(m, x);
    if x[0] == '.' {
      e, fields := MinorStartSound(m1, x1);
      d := "";
      assert SpellVersion("", e, fields) == ['.'] + (e + SpellSection(fields));
    } else {
      d, e, fields := MajorSound(m1, x1);
      Assoc([x[0]], d, "." + (e + SpellSection(fields)));
      d := [x[0]] + d;
    }
  }

  /** The word HTTP and the slash. */
  lemma WordSound(m: Machine, x: string) returns (m': Machine, y: string)
    requires m.Ok() && m.state.VersionH? && m.message.headers == [] && Accepts(m, x)
    ensures m'.Ok() && Accepts(m', y)
    ensures m' == Machine(MajorStart, m.message.(major := 0, minor := 0))
    ensures Run(m, x).machine == Run(m', y).machine
    ensures Used(m, x) == "HTTP/" + Used(m', y)
  {
    var m1, x1 := Advance(m, x);
    assert x[0] == 'H' && m1 == m.(state := VersionT1);
    var m2, x2 := Advance(m1, x1);
    assert x1[0] == 'T' && m2 == m.(state := VersionT2);
    var m3, x3 := Advance(m2, x2);
    assert x2[0] == 'T' && m3 == m.(state := VersionP);
    var m4, x4 := Advance(m3, x3);
    assert x3[0] == 'P' && m4 == m.(state := VersionSlash);
    m', y := Advance(m4, x4);
    assert x4[0] == '/';
    var z := Used(m', y);
    assert ['H'] + (['T'] + (['T'] + (['P'] + (['/'] + z)))) == "HTTP/" + z;
  }

  /** From the word HTTP. */
  lemma VersionSound(m: Machine, x: string) returns (d: string, e: string, fields: seq<Field>)
    requires m.Ok() && m.state.VersionH? && m.message.headers == [] && Accepts(m, x)
    ensures IsNumeral(d) && d != "" && IsNumeral(e) && e != "" && AllFields(fields)
    ensures Used(m, x) == "HTTP/" + SpellVersion(d, e, fields)
    ensures Run(m, x).machine.message
         == m.message.(major := Value(d), minor := Value(e), headers := FieldsMeaning(fields))
  {
    var m1, x1 := WordSound(m, x);
    var m2, x2 := Advance(m1, x1);
    var d1;
    d1, e, fields := MajorSound(m2, x2);
    Assoc([x1[0]], d1, "." + (e + SpellSection(fields)));
    d := [x1[0]] + d1;
    AccumulateValue(d);
    AccumulateValue(e);
    assert d[1..] == d1;
  }

  /** Within the URI. */
  lemma {:induction false} UriSound(m: Machine, x: string) returns (u: string, d: string, e: string, fields: seq<Field>)
    requires m.Ok() && m.state.Uri? && m.message.headers == [] && Accepts(m, x)
    ensures IsUri(u) && IsNumeral(d) && d != "" && IsNumeral(e) && e != "" && AllFields(fields)
    ensures Used(m, x) == u + (" HTTP/" + SpellVersion(d, e, fields))
    ensures Run(m, x).machine.message
         == m.message.(uri := m.message.uri + u, major := Value(d), minor := Value(e), headers := FieldsMeaning(fields))
    decreases |x|
  {
    var m1, x1 := Advance(m, x);
    if x[0] == ' ' {
      d, e, fields := VersionSound(m1, x1);
      u := "";
      assert m.message.uri + "" == m.message.uri;
      assert "" + (" HTTP/" + SpellVersion(d, e, fields)) == [' '] + ("HTTP/" + SpellVersion(d, e, fields));
    } else {
      u, d, e, fields := UriSound(m1, x1);
      Assoc([x[0]], u, " HTTP/" + SpellVersion(d, e, fields));
      Assoc(m.message.uri, [x[0]], u);
      u := [x[0]] + u;
    }
  }

  /** A tree whose method may still be empty. */
  predicate AllButVerb(s: Syntax) {
    AreTokenChars(s.verb) && s.(verb := "G").WellFormed()
  }

  /** Within the method. */
  lemma {:induction false} VerbSound(m: Machine, x: string) returns (s: Syntax)
    requires m.Ok() && m.state.Method? && m.message.uri == "" && m.message.headers == [] && Accepts(m, x)
    ensures AllButVerb(s)
    ensures Used(m, x) == Spell(s)
    ensures Run(m, x).machine.message == Meaning(s.(verb := "G")).(verb := m.message.verb + s.verb)
    decreases |x|
  {
    var m1, x1 := Advance(m, x);
    if x[0] == ' ' {
      var u, d, e, fields := UriSound(m1, x1);
      s := Syntax("", u, d, e, fields);
      assert m.message.verb + "" == m.message.verb && "" + u == u;
    } else {
      SameClasses(x[0]);
      var s1 := VerbSound(m1, x1);
      s := s1.(verb := [x[0]] + s1.verb);
      Assoc([x[0]], s1.verb, " " + (s1.uri + (" HTTP/" + SpellVersion(s1.major, s1.minor, s1.fields))));
      Assoc(m.message.verb, [x[0]], s1.verb);
    }
  }

  /** Soundness: what a new parser accepts is spelled by a well-formed tree, and the
      request is the tree's meaning. */
  lemma Sound(major: int, minor: int, x: string) returns (s: Syntax)
    requires Accepts(Fresh(major, minor), x)
    ensures s.WellFormed()
    ensures Used(Fresh(major, minor), x) == Spell(s)
    ensures Run(Fresh(major, minor), x).machine.message == Meaning(s)
  {
    var m1, x1 := Advance(Fresh(major, minor), x);
    var s1 := VerbSound(m1, x1);
    s := s1.(verb := [x[0]] + s1.verb);
    Assoc([x[0]], s1.verb, " " + (s1.uri + (" HTTP/" + SpellVersion(s1.major, s1.minor, s1.fields))));
    assert "" + [x[0]] == [x[0]];
    SameClasses(x[0]);
  }
}
