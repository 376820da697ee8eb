/** Completeness of the request parser: from each state, every spelling of the grammar
    is read to its end, accepted, and built into its meaning. */
module HttpCompleteness {
  import opened Text
  import opened Decimal
  import opened HttpRequest
  import opened HttpGrammar

  /** All of `x` is read from `m`, accepted at its last byte, and leaves `msg`. */
  predicate Reads(m: Machine, x: string, msg: Message)
    requires m.Ok()
  {
    var r := Run(m, x);
    r.verdict == Good && r.used == |x| && r.machine.message == msg
  }

  lemma Prepend(m: Machine, c: char, m': Machine, x: string, msg: Message)
    requires m.Ok() && Step(m, c) == (Indeterminate, m') && Reads(m', x, msg)
    ensures Reads(m, [c] + x, msg)
  {
    assert ([c] + x)[1..] == x;
  }

  /** The same for the first byte of a piece `s` that is followed by `y`. */
  lemma PrependTo(m: Machine, m': Machine, s: string, y: string, msg: Message)
    requires m.Ok() && s != "" && Step(m, s[0]) == (Indeterminate, m') && Reads(m', s[1..] + y, msg)
    ensures Reads(m, s + y, msg)
  {
    Prepend(m, s[0], m', s[1..] + y, msg);
    assert [s[0]] + (s[1..] + y) == s + y;
  }

  /** The same for a line end. */
  lemma PrependCrlf(m: Machine, m1: Machine, m2: Machine, y: string, msg: Message)
    requires m.Ok() && m1.Ok()
    requires Step(m, '\r') == (Indeterminate, m1) && Step(m1, '\n') == (Indeterminate, m2) && Reads(m2, y, msg)
    ensures Reads(m, CRLF + y, msg)
  {
    Prepend(m1, '\n', m2, y, msg);
    Prepend(m, '\r', m1, ['\n'] + y, msg);
    assert CRLF + y == ['\r'] + (['\n'] + y);
  }

  /** The same for the colon and the space of a field. */
  lemma PrependSeparator(m: Machine, m1: Machine, m2: Machine, y: string, msg: Message)
    requires m.Ok() && m1.Ok()
    requires Step(m, ':') == (Indeterminate, m1) && Step(m1, ' ') == (Indeterminate, m2) && Reads(m2, y, msg)
    ensures Reads(m, ": " + y, msg)
  {
    Prepend(m1, ' ', m2, y, msg);
    Prepend(m, ':', m1, [' '] + y, msg);
    assert ": " + y == [':'] + ([' '] + y);
  }

  /** The blank line. */
  lemma BlankLineComplete(m: Machine)
    requires m.Ok() && m.state.HeaderLineStart?
    ensures Reads(m, CRLF, m.message)
  {
    var m1 := m.(state := Newline3);
    assert Reads(m1, "\n", m.message);
    Prepend(m, '\r', m1, "\n", m.message);
    assert ['\r'] + "\n" == CRLF;
  }

  /** From the start of a line that follows a header line. */
  lemma {:induction false} LineComplete(m: Machine, k: Tail)
    requires m.Ok() && m.state.HeaderLineStart? && m.message.headers != [] && k.WellFormed()
    ensures Reads(m, SpellLines(k), Extend(m.message, "", k))
    decreases |k.fields|, |k.folds|, 0, 0
  {
    if k.folds != [] {
      FoldComplete(m, k);
    } else {
      ExtendByNothing(m.message, k.fields);
      assert k == Tail([], k.fields);
      if k.fields == [] {
        BlankLineComplete(m);
      } else {
        FieldComplete(m, k.fields);
        assert SpellLines(k) == SpellFields(k.fields) + CRLF;
      }
    }
  }

  /** A continuation line. */
  lemma {:induction false} FoldComplete(m: Machine, k: Tail)
    requires m.Ok() && m.state.HeaderLineStart? && m.message.headers != [] && k.WellFormed() && k.folds != []
    ensures Reads(m, SpellLines(k), Extend(m.message, "", k))
    decreases |k.fields|, |k.folds| - 1, 3, 0
  {
    var f, k1 := k.folds[0], Tail(k.folds[1..], k.fields);
    var m1 := m.(state := HeaderLws);
    var c, b := f.blanks[0], f.blanks[1..];
    assert IsBlank(c) by { assert c in f.blanks; }
    assert Step(m, c) == (Indeterminate, m1);
    BlanksComplete(m1, b, f.text, k1);
    SplitFold(c, b, k);
    ExtendByFold(m.message, f.text, k1, k);
    Prepend(m, c, m1, b + (f.text + SpellTail(k1)), Extend(m.message, f.text, k1));
  }

  lemma SplitFold(c: char, b: string, k: Tail)
    requires k.folds != [] && k.folds[0].blanks == [c] + b
    ensures SpellLines(k) == [c] + (b + (k.folds[0].text + SpellTail(Tail(k.folds[1..], k.fields))))
  {
    var f, k1 := k.folds[0], Tail(k.folds[1..], k.fields);
    RegroupFold(f.blanks, f.text, CRLF, SpellFolds(k1.folds), SpellFields(k1.fields) + CRLF);
    Assoc([c], b, f.text + SpellTail(k1));
  }

  /** Among the blanks of a continuation line. */
  lemma {:induction false} BlanksComplete(m: Machine, b: string, t: string, k: Tail)
    requires m.Ok() && m.state.HeaderLws? && k.WellFormed()
    requires AreBlanks(b) && IsFieldText(t) && (t != "" ==> !BlankByte(t[0]))
    ensures Reads(m, b + (t + SpellTail(k)), Extend(m.message, t, k))
    decreases |k.fields|, |k.folds|, 2, |b|
  {
    if b != "" {
      assert IsBlank(b[0]) by { assert b[0] in b; }
      BlanksComplete(m, b[1..], t, k);
      PrependTo(m, m, b, t + SpellTail(k), Extend(m.message, t, k));
    } else {
      assert "" + (t + SpellTail(k)) == t + SpellTail(k);
      if t == "" {
        LineEndComplete(m, k);
        assert "" + SpellTail(k) == SpellTail(k);
      } else {
        ValueByOne(m, t, k);
      }
    }
  }

  /** Within a value. */
  lemma {:induction false} ValueComplete(m: Machine, t: string, k: Tail)
    requires m.Ok() && m.state.HeaderValue? && k.WellFormed() && IsFieldText(t)
    ensures Reads(m, t + SpellTail(k), Extend(m.message, t, k))
    decreases |k.fields|, |k.folds|, 1, |t|, 0
  {
    if t == "" {
      LineEndComplete(m, k);
      assert "" + SpellTail(k) == SpellTail(k);
    } else {
      ValueByOne(m, t, k);
    }
  }

  /** One byte of a value, and the rest of it. */
  lemma {:induction false} ValueByOne(m: Machine, t: string, k: Tail)
    requires m.Ok() && (m.state.HeaderValue? || m.state.HeaderLws?) && k.WellFormed()
    requires IsFieldText(t) && t != "" && (m.state.HeaderLws? ==> !BlankByte(t[0]))
    ensures Reads(m, t + SpellTail(k), Extend(m.message, t, k))
    decreases |k.fields|, |k.folds|, 1, |t| - 1, 1
  {
    assert !IsCtl(t[0]) by { assert t[0] in t; SameClasses(t[0]); }
    var m1 := Machine(HeaderValue, AppendToValue(m.message, t[0]));
    assert Step(m, t[0]) == (Indeterminate, m1);
    ValueComplete(m1, t[1..], k);
    ExtendByOne(m.message, t[0], t[1..], k);
    assert t == [t[0]] + t[1..];
    PrependTo(m, m1, t, SpellTail(k), Extend(m.message, t, k));
  }

  /** The end of a header line and what follows. */
  lemma {:induction false} LineEndComplete(m: Machine, k: Tail)
    requires m.Ok() && (m.state.HeaderValue? || m.state.HeaderLws?) && k.WellFormed()
    ensures Reads(m, SpellTail(k), Extend(m.message, "", k))
    decreases |k.fields|, |k.folds|, 0, 1
  {
    var m1 := m.(state := Newline2);
    var m2 := m.(state := HeaderLineStart);
    assert Step(m, '\r') == (Indeterminate, m1) && Step(m1, '\n') == (Indeterminate, m2);
    LineComplete(m2, k);
    PrependCrlf(m, m1, m2, SpellLines(k), Extend(m.message, "", k));
  }

  /** The colon and the space. */
  lemma {:induction false} SeparatorComplete(m: Machine, t: string, k: Tail)
    requires m.Ok() && m.state.HeaderName? && k.WellFormed() && IsFieldText(t)
    ensures Reads(m, ": " + (t + SpellTail(k)), Extend(m.message, t, k))
    decreases |k.fields|, |k.folds|, 1, |t|, 2
  {
    var y, msg := t + SpellTail(k), Extend(m.message, t, k);
    var m1, m2 := m.(state := SpaceBeforeValue), m.(state := HeaderValue);
    assert Step(m, ':') == (Indeterminate, m1) && Step(m1, ' ') == (Indeterminate, m2);
    ValueComplete(m2, t, k);
    PrependSeparator(m, m1, m2, y, msg);
  }

  /** Within a field name. */
  lemma {:induction false} NameComplete(m: Machine, n: string, t: string, k: Tail)
    requires m.Ok() && m.state.HeaderName? && k.WellFormed() && AreTokenChars(n) && IsFieldText(t)
    ensures Reads(m, n + (": " + (t + SpellTail(k))), Extend(Rename(m.message, n), t, k))
    decreases |k.fields|, |k.folds|, 2, |n|, 0
  {
    if n == "" {
      RenameByOne(m.message, ':', "");
      SeparatorComplete(m, t, k);
      assert "" + (": " + (t + SpellTail(k))) == ": " + (t + SpellTail(k));
    } else {
      NameByOne(m, n, t, k);
    }
  }

  /** One byte of a field name, and the rest of it. */
  lemma {:induction false} NameByOne(m: Machine, n: string, t: string, k: Tail)
    requires m.Ok() && m.state.HeaderName? && k.WellFormed() && AreTokenChars(n) && n != "" && IsFieldText(t)
    ensures Reads(m, n + (": " + (t + SpellTail(k))), Extend(Rename(m.message, n), t, k))
    decreases |k.fields|, |k.folds|, 2, |n| - 1, 1
  {
    var c, n1 := n[0], n[1..];
    assert n == [c] + n1;
    assert IsTokenChar(c) by { assert c in n; SameClasses(c); }
    var m1 := m.(message := AppendToName(m.message, c));
    assert Step(m, c) == (Indeterminate, m1);
    NameComplete(m1, n1, t, k);
    assert Rename(m1.message, n1) == Rename(m.message, n) by { RenameByOne(m.message, c, n1); }
    PrependTo(m, m1, n, ": " + (t + SpellTail(k)), Extend(Rename(m.message, n), t, k));
  }

  /** From the start of a line: a new field. */
  lemma {:induction false} FieldComplete(m: Machine, fields: seq<Field>)
    requires m.Ok() && m.state.HeaderLineStart? && AllFields(fields) && fields != []
    ensures Reads(m, SpellFields(fields) + CRLF, m.message.(headers := m.message.headers + FieldsMeaning(fields)))
    decreases |fields| - 1, |fields[0].folds| + 1, 0, 0
  {
    var g, k := fields[0], Tail(fields[0].folds, fields[1..]);
    var c, n := g.name[0], g.name[1..];
    assert IsTokenChar(c) by { assert c in g.name; SameClasses(c); }
    var msg1 := m.message.(headers := m.message.headers + [Header([c], "")]);
    var m1 := Machine(HeaderName, msg1);
    assert Step(m, c) == (Indeterminate, m1);
    NameComplete(m1, n, g.first, k);
    Prepend(m, c, m1, n + (": " + (g.first + SpellTail(k))), Extend(Rename(msg1, n), g.first, k));
    SplitField(c, n, fields);
    ExtendByField(m.message, msg1, c, n, g.first, k);
  }

  lemma SplitField(c: char, n: string, fields: seq<Field>)
    requires fields != [] && fields[0].name == [c] + n
    ensures SpellFields(fields) + CRLF
         == [c] + (n + (": " + (fields[0].first + SpellTail(Tail(fields[0].folds, fields[1..])))))
  {
    var g := fields[0];
    RegroupField(g.name, ": ", g.first, CRLF, SpellFolds(g.folds), SpellFields(fields[1..]));
    Assoc([c], n, ": " + (g.first + SpellTail(Tail(g.folds, fields[1..]))));
  }

  /** The header section, from the first line after the request line. */
  lemma SectionComplete(m: Machine, fields: seq<Field>)
    requires m.Ok() && m.state.HeaderLineStart? && AllFields(fields)
    ensures Reads(m, SpellFields(fields) + CRLF, m.message.(headers := m.message.headers + FieldsMeaning(fields)))
  {
    if fields == [] {
      BlankLineComplete(m);
      assert SpellFields(fields) + CRLF == CRLF;
      assert m.message.headers + [] == m.message.headers;
    } else {
      FieldComplete(m, fields);
    }
  }

  /** The end of the request line, and the header section. */
  lemma RequestLineEndComplete(m: Machine, fields: seq<Field>)
    requires m.Ok() && m.state.Minor? && m.message.headers == [] && AllFields(fields)
    ensures Reads(m, SpellSection(fields), m.message.(headers := FieldsMeaning(fields)))
  {
    var y, msg := SpellFields(fields) + CRLF, m.message.(headers := FieldsMeaning(fields));
    var m1, m2 := m.(state := Newline1), m.(state := HeaderLineStart);
    SectionComplete(m2, fields);
    assert [] + FieldsMeaning(fields) == FieldsMeaning(fields);
    PrependCrlf(m, m1, m2, y, msg);
  }

  /** Within the minor version. */
  lemma {:induction false} MinorComplete(m: Machine, e: string, fields: seq<Field>)
    requires m.Ok() && m.state.Minor? && m.message.headers == [] && IsNumeral(e) && AllFields(fields)
    ensures Reads(m, e + SpellSection(fields),
                  m.message.(minor := Accumulate(m.message.minor, e), headers := FieldsMeaning(fields)))
    decreases |e|
  {
    var msg := m.message.(minor := Accumulate(m.message.minor, e), headers := FieldsMeaning(fields));
    if e == "" {
      RequestLineEndComplete(m, fields);
      assert "" + SpellSection(fields) == SpellSection(fields);
    } else {
      assert e[0] in e;
      var m1 := m.(message := m.message.(minor := m.message.minor * 10 + DigitValue(e[0])));
      MinorComplete(m1, e[1..], fields);
      PrependTo(m, m1, e, SpellSection(fields), msg);
    }
  }

  /** Within the major version. */
  lemma {:induction false} MajorComplete(m: Machine, d: string, e: string, fields: seq<Field>)
    requires m.Ok() && m.state.Major? && m.message.headers == []
    requires IsNumeral(d) && IsNumeral(e) && e != "" && AllFields(fields)
    ensures Reads(m, SpellVersion(d, e, fields),
                  m.message.(major := Accumulate(m.message.major, d), minor := Accumulate(m.message.minor, e),
                             headers := FieldsMeaning(fields)))
    decreases |d|
  {
    var rest := "." + (e + SpellSection(fields));
    var msg := m.message.(major := Accumulate(m.message.major, d), minor := Accumulate(m.message.minor, e),
                          headers := FieldsMeaning(fields));
    if d == "" {
      var m1 := m.(state := MinorStart);
      MinorStartComplete(m1, e, fields);
      Prepend(m, '.', m1, e + SpellSection(fields), msg);
      assert SpellVersion("", e, fields) == ['.'] + (e + SpellSection(fields));
    } else {
      assert d[0] in d;
      var m1 := m.(message := m.message.(major := m.message.major * 10 + DigitValue(d[0])));
      MajorComplete(m1, d[1..], e, fields);
      PrependTo(m, m1, d, rest, msg);
    }
  }

  /** After the dot. */
  lemma MinorStartComplete(m: Machine, e: string, fields: seq<Field>)
    requires m.Ok() && m.state.MinorStart? && m.message.headers == [] && IsNumeral(e) && e != "" && AllFields(fields)
    ensures Reads(m, e + SpellSection(fields),
                  m.message.(minor := Accumulate(m.message.minor, e), headers := FieldsMeaning(fields)))
  {
    assert e[0] in e;
    var m1 := Machine(Minor, m.message.(minor := m.message.minor * 10 + DigitValue(e[0])));
    MinorComplete(m1, e[1..], fields);
    PrependTo(m, m1, e, SpellSection(fields),
              m.message.(minor := Accumulate(m.message.minor, e), headers := FieldsMeaning(fields)));
  }

  /** After the word HTTP and the slash. */
  lemma MajorStartComplete(m: Machine, d: string, e: string, fields: seq<Field>)
    requires m.Ok() && m.state.MajorStart? && m.message.headers == [] && m.message.major == m.message.minor == 0
    requires IsNumeral(d) && d != "" && IsNumeral(e) && e != "" && AllFields(fields)
    ensures Reads(m, SpellVersion(d, e, fields),
                  m.message.(major := Value(d), minor := Value(e), headers := FieldsMeaning(fields)))
  {
    var rest := "." + (e + SpellSection(fields));
    assert d[0] in d;
    var m1 := Machine(Major, m.message.(major := DigitValue(d[0])));
    assert Step(m, d[0]) == (Indeterminate, m1);
    MajorComplete(m1, d[1..], e, fields);
    AccumulateValue(d);
    AccumulateValue(e);
    PrependTo(m, m1, d, rest, m.message.(major := Value(d), minor := Value(e), headers := FieldsMeaning(fields)));
  }

  /** From the word HTTP: its five bytes lead to the major version. */
  lemma VersionComplete(m: Machine, y: string, msg: Message)
    requires m.Ok() && m.state.VersionH? && m.message.headers == []
    requires Reads(Machine(MajorStart, m.message.(major := 0, minor := 0)), y, msg)
    ensures Reads(m, "HTTP/" + y, msg)
  {
    var m5 := Machine(MajorStart, m.message.(major := 0, minor := 0));
    Prepend(m.(state := VersionSlash), '/', m5, y, msg);
    Prepend(m.(state := VersionP), 'P', m.(state := VersionSlash), ['/'] + y, msg);
    Prepend(m.(state := VersionT2), 'T', m.(state := VersionP), ['P'] + (['/'] + y), msg);
    Prepend(m.(state := VersionT1), 'T', m.(state := VersionT2), ['T'] + (['P'] + (['/'] + y)), msg);
    Prepend(m, 'H', m.(state := VersionT1), ['T'] + (['T'] + (['P'] + (['/'] + y))), msg);
    assert "HTTP/" + y == ['H'] + (['T'] + (['T'] + (['P'] + (['/'] + y))));
  }

  /** Within the URI. */
  lemma {:induction false} UriComplete(m: Machine, u: string, d: string, e: string, fields: seq<Field>)
    requires m.Ok() && m.state.Uri? && m.message.headers == [] && IsUri(u)
    requires IsNumeral(d) && d != "" && IsNumeral(e) && e != "" && AllFields(fields)
    ensures Reads(m, u + (" HTTP/" + SpellVersion(d, e, fields)),
                  m.message.(uri := m.message.uri + u, major := Value(d), minor := Value(e), headers := FieldsMeaning(fields)))
    decreases |u|
  {
    var y := SpellVersion(d, e, fields);
    var msg := m.message.(uri := m.message.uri + u, major := Value(d), minor := Value(e), headers := FieldsMeaning(fields));
    if u == "" {
      var m1 := m.(state := VersionH);
      MajorStartComplete(Machine(MajorStart, m.message.(major := 0, minor := 0)), d, e, fields);
      assert m.message.uri + "" == m.message.uri;
      VersionComplete(m1, y, msg);
      Prepend(m, ' ', m1, "HTTP/" + y, msg);
      assert "" + (" HTTP/" + y) == [' '] + ("HTTP/" + y);
    } else {
      assert u[0] in u;
      var m1 := m.(message := m.message.(uri := m.message.uri + [u[0]]));
      UriComplete(m1, u[1..], d, e, fields);
      assert u == [u[0]] + u[1..];
      Assoc(m.message.uri, [u[0]], u[1..]);
      PrependTo(m, m1, u, " HTTP/" + y, msg);
    }
  }

  /** Within the method. */
  lemma {:induction false} VerbComplete(m: Machine, v: string, s: Syntax)
    requires m.Ok() && m.state.Method? && m.message.uri == "" && m.message.headers == []
    requires AreTokenChars(v) && s.WellFormed()
    ensures Reads(m, Spell(s.(verb := v)), Meaning(s).(verb := m.message.verb + v))
    decreases |v|
  {
    var rest := s.uri + (" HTTP/" + SpellVersion(s.major, s.minor, s.fields));
    var msg := Meaning(s).(verb := m.message.verb + v);
    if v == "" {
      var m1 := m.(state := Uri);
      UriComplete(m1, s.uri, s.major, s.minor, s.fields);
      assert "" + s.uri == s.uri && m.message.verb + "" == m.message.verb;
      Prepend(m, ' ', m1, rest, msg);
      assert Spell(s.(verb := "")) == [' '] + rest;
    } else {
      assert v[0] in v;
      SameClasses(v[0]);
      var m1 := m.(message := m.message.(verb := m.message.verb + [v[0]]));
      VerbComplete(m1, v[1..], s);
      assert v == [v[0]] + v[1..];
      Assoc(m.message.verb, [v[0]], v[1..]);
      PrependTo(m, m1, v, " " + rest, msg);
    }
  }

  /** Completeness: every well-formed tree's spelling is accepted by a new parser, to its
      last byte, and the request built is the tree's meaning. */
  lemma Complete(major: int, minor: int, s: Syntax)
    requires s.WellFormed()
    ensures Reads(Fresh(major, minor), Spell(s), Meaning(s))
  {
    var m := Fresh(major, minor);
    var c, v := s.verb[0], s.verb[1..];
    assert c in s.verb;
    SameClasses(c);
    var m1 := Machine(Method, m.message.(verb := [c]));
    VerbComplete(m1, v, s);
    assert "" + [c] == [c] && s.verb == [c] + v;
    PrependTo(m, m1, s.verb, " " + (s.uri + (" HTTP/" + SpellVersion(s.major, s.minor, s.fields))), Meaning(s));
  }
}
