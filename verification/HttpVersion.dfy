/** The version numbers of a request: which digits of the input they stand for, and when
    their arithmetic stays within a 32-bit `int`. */
module HttpVersion {
  import opened Text
  import opened Decimal
  import opened HttpRequest
  import opened HttpGrammar
  import HttpCompleteness

  // ---------- the digits, found in the input ----------

  /** The longest prefix of decimal digits. */
  function Digits(x: string): (d: string)
    ensures IsNumeral(d) && d <= x
  {
    if x == "" || !IsDigit(x[0]) then "" else [x[0]] + Digits(x[1..])
  }

  /** What follows those digits. */
  function SkipDigits(x: string): (rest: string)
    ensures Digits(x) + rest == x
  {
    if x == "" || !IsDigit(x[0]) then x else SkipDigits(x[1..])
  }

  /** The digits after a dot. */
  function DigitsAfterDot(x: string): (d: string)
    ensures IsNumeral(d)
  {
    if x != "" && x[0] == '.' then Digits(x[1..]) else ""
  }

  /** What follows `HTTP/` after a method, a URI and the spaces after them. */
  function VersionText(x: string): Option<string> {
    var k := Find(x, ' ');
    if k == |x| || !IsToken(x[..k]) then None else AfterMethod(x[k + 1..])
  }

  function AfterMethod(x: string): Option<string> {
    var k := Find(x, ' ');
    if k == |x| || !IsUri(x[..k]) then None else AfterUri(x[k + 1..])
  }

  function AfterUri(x: string): Option<string> {
    if "HTTP/" <= x then Some(x[5..]) else None
  }

  /** The digits of the major number, in the text after `HTTP/`. */
  function MajorDigits(t: string): (d: string)
    ensures IsNumeral(d)
  {
    Digits(t)
  }

  /** The digits of the minor number, if a dot follows the major number. */
  function MinorDigits(t: string): (d: string)
    ensures IsNumeral(d)
  {
    if Digits(t) == "" then "" else DigitsAfterDot(SkipDigits(t))
  }

  // ---------- what the parser makes of them ----------

  /** The states from the first version digit on. */
  predicate VersionSeen(st: State) {
    !(st.MethodStart? || st.Method? || st.Uri? || st.VersionH? || st.VersionT1? || st.VersionT2? || st.VersionP?
      || st.VersionSlash?)
  }

  predicate InMajor(st: State) {
    st.MajorStart? || st.Major?
  }

  predicate InMinor(st: State) {
    st.MinorStart? || st.Minor?
  }

  /** After the minor number the version does not change. */
  lemma {:induction false} VersionStays(m: Machine, x: string)
    requires m.Ok() && VersionSeen(m.state) && !InMajor(m.state) && !InMinor(m.state)
    ensures var r := Run(m, x).machine;
            && VersionSeen(r.state) && !InMajor(r.state) && !InMinor(r.state)
            && r.message.major == m.message.major && r.message.minor == m.message.minor
    decreases |x|
  {
    if x != "" && Step(m, x[0]).0 == Indeterminate {
      VersionStays(Step(m, x[0]).1, x[1..]);
    }
  }

  lemma {:induction false} MinorReads(m: Machine, x: string)
    requires m.Ok() && InMinor(m.state)
    ensures var r := Run(m, x).machine;
            && VersionSeen(r.state)
            && r.message.major == m.message.major
            && r.message.minor == Accumulate(m.message.minor, Digits(x))
    decreases |x|
  {
    if x != "" {
      var (v, m') := Step(m, x[0]);
      if IsDigit(x[0]) {
        assert Digits(x)[1..] == Digits(x[1..]);
        MinorReads(m', x[1..]);
      } else if v == Indeterminate {
        VersionStays(m', x[1..]);
      }
    }
  }

  /** The byte after the digits of the major number. */
  lemma MajorEnds(m: Machine, x: string)
    requires m.Ok() && InMajor(m.state) && m.message.minor == 0 && x != "" && !IsDigit(x[0])
    ensures var r := Run(m, x).machine;
            && VersionSeen(r.state) && r.message.major == m.message.major
            && r.message.minor == Value(if m.state.MajorStart? then "" else DigitsAfterDot(x))
  {
    var (v, m') := Step(m, x[0]);
    if v == Indeterminate {
      MinorReads(m', x[1..]);
      AccumulateValue(Digits(x[1..]));
    }
  }

  lemma {:induction false} MajorReads(m: Machine, x: string)
    requires m.Ok() && InMajor(m.state) && m.message.minor == 0
    ensures var r := Run(m, x).machine;
            && VersionSeen(r.state)
            && r.message.major == Accumulate(m.message.major, Digits(x))
            && r.message.minor == Value(if m.state.MajorStart? then MinorDigits(x) else DigitsAfterDot(SkipDigits(x)))
    decreases |x|
  {
    if x != "" {
      var (v, m') := Step(m, x[0]);
      if IsDigit(x[0]) {
        assert Digits(x)[1..] == Digits(x[1..]) && SkipDigits(x) == SkipDigits(x[1..]);
        assert m'.state.Major? && v == Indeterminate;
        MajorReads(m', x[1..]);
      } else {
        MajorEnds(m, x);
      }
    }
  }

  // ---------- arithmetic in a 32-bit int ----------

  const INT_MAX: int := 0x7fff_ffff

  /** `field * 10 + input - '0'`, evaluated from left to right, leaves the range of `int`. */
  predicate Overflows(m: Machine, c: char) {
    && IsDigit(c)
    && ((InMajor(m.state) && m.message.major * 10 + c as int > INT_MAX)
        || (InMinor(m.state) && m.message.minor * 10 + c as int > INT_MAX))
  }

  /** No step of the run over `x` overflows. */
  predicate InRange(m: Machine, x: string)
    requires m.Ok()
    decreases |x|
  {
    x == "" || (!Overflows(m, x[0]) && (Step(m, x[0]).0 == Indeterminate ==> InRange(Step(m, x[0]).1, x[1..])))
  }

  /** The digit zero has code 48, which is added before it is subtracted again. */
  predicate Fits(v: int) {
    v + 48 <= INT_MAX
  }

  lemma {:induction false} AccumulateGrows(v: int, s: string)
    requires v >= 0 && IsNumeral(s)
    ensures Accumulate(v, s) >= v
    decreases |s|
  {
    if s != "" {
      AccumulateGrows(v * 10 + DigitValue(s[0]), s[1..]);
    }
  }

  lemma {:induction false} InRangeAfter(m: Machine, x: string)
    requires m.Ok() && !InMajor(m.state) && !InMinor(m.state) && VersionSeen(m.state)
    ensures InRange(m, x)
    decreases |x|
  {
    if x != "" && Step(m, x[0]).0 == Indeterminate {
      InRangeAfter(Step(m, x[0]).1, x[1..]);
    }
  }

  lemma {:induction false} InRangeMinor(m: Machine, x: string)
    requires m.Ok() && InMinor(m.state) && m.message.minor >= 0 && Fits(m.message.minor)
    ensures InRange(m, x) <==> Fits(Accumulate(m.message.minor, Digits(x)))
    decreases |x|
  {
    if x != "" {
      var (v, m') := Step(m, x[0]);
      if IsDigit(x[0]) {
        assert Digits(x)[1..] == Digits(x[1..]);
        AccumulateGrows(m'.message.minor, Digits(x[1..]));
        if Fits(m'.message.minor) {
          InRangeMinor(m', x[1..]);
        }
      } else if v == Indeterminate {
        InRangeAfter(m', x[1..]);
      }
    }
  }

  lemma {:induction false} InRangeMajor(m: Machine, x: string)
    requires m.Ok() && InMajor(m.state) && m.message.minor == 0 && m.message.major >= 0 && Fits(m.message.major)
    ensures var minor := if m.state.MajorStart? then MinorDigits(x) else DigitsAfterDot(SkipDigits(x));
            InRange(m, x) <==> Fits(Accumulate(m.message.major, Digits(x))) && Fits(Value(minor))
    decreases |x|
  {
    if x != "" {
      var (v, m') := Step(m, x[0]);
      if IsDigit(x[0]) {
        assert Digits(x)[1..] == Digits(x[1..]);
        AccumulateGrows(m'.message.major, Digits(x[1..]));
        if Fits(m'.message.major) {
          InRangeMajor(m', x[1..]);
        }
      } else if v == Indeterminate {
        InRangeMinor(m', x[1..]);
        AccumulateValue(Digits(x[1..]));
      }
    }
  }

  // ---------- from the start of the request ----------

  /** Reading `x` from `m` comes down to reading `y` from `n`. */
  predicate Continues(m: Machine, x: string, n: Machine, y: string)
    requires m.Ok() && n.Ok()
  {
    Run(m, x).machine == Run(n, y).machine && (InRange(m, x) <==> InRange(n, y))
  }

  /** Reading `x` from `m` stops or ends before the version. */
  predicate NoVersion(m: Machine, x: string)
    requires m.Ok()
  {
    !VersionSeen(Run(m, x).machine.state) && InRange(m, x)
  }

  lemma {:induction false} MethodReads(m: Machine, x: string)
    requires m.Ok() && m.state.Method?
    ensures var k := Find(x, ' ');
            if k < |x| && AreTokenChars(x[..k])
            then Continues(m, x, Machine(Uri, m.message.(verb := m.message.verb + x[..k])), x[k + 1..])
            else NoVersion(m, x)
    decreases |x|
  {
    if x != "" && x[0] != ' ' {
      var k := Find(x, ' ');
      assert x[..k] == [x[0]] + x[1..][..k - 1];
      SameClasses(x[0]);
      if IsTokenChar(x[0]) {
        MethodReads(Step(m, x[0]).1, x[1..]);
        Assoc(m.message.verb, [x[0]], x[1..][..k - 1]);
      } else {
        assert x[0] in x[..k];
      }
    } else if x != "" {
      assert m.message.verb + "" == m.message.verb;
    }
  }

  lemma {:induction false} UriReads(m: Machine, x: string)
    requires m.Ok() && m.state.Uri?
    ensures var k := Find(x, ' ');
            if k < |x| && IsUri(x[..k])
            then Continues(m, x, Machine(VersionH, m.message.(uri := m.message.uri + x[..k])), x[k + 1..])
            else NoVersion(m, x)
    decreases |x|
  {
    if x != "" && x[0] != ' ' {
      var k := Find(x, ' ');
      assert x[..k] == [x[0]] + x[1..][..k - 1];
      SameClasses(x[0]);
      if !IsCtl(x[0]) {
        UriReads(Step(m, x[0]).1, x[1..]);
        Assoc(m.message.uri, [x[0]], x[1..][..k - 1]);
      } else {
        assert x[0] in x[..k];
      }
    } else if x != "" {
      assert m.message.uri + "" == m.message.uri;
    }
  }

  /** One expected letter. */
  lemma LetterReads(m: Machine, want: char, n: Machine, x: string)
    requires m.Ok() && n.Ok() && !VersionSeen(m.state)
    requires forall c :: Step(m, c) == if c == want then (Indeterminate, n) else (Bad, m)
    ensures if x != "" && x[0] == want then Continues(m, x, n, x[1..]) else NoVersion(m, x)
  {
  }

  /** The last two of the five letters before the version ... */
  lemma SlashReads(m: Machine, x: string)
    requires m.Ok() && m.state.VersionP?
    ensures if |x| > 1 && x[0] == 'P' && x[1] == '/'
            then Continues(m, x, Machine(MajorStart, m.message.(major := 0, minor := 0)), x[2..])
            else NoVersion(m, x)
  {
    var m4, m5 := m.(state := VersionSlash), Machine(MajorStart, m.message.(major := 0, minor := 0));
    LetterReads(m, 'P', m4, x);
    if x != "" {
      LetterReads(m4, '/', m5, x[1..]);
    }
  }

  /** ... and the first three. */
  lemma HttReads(m: Machine, x: string)
    requires m.Ok() && m.state.VersionH?
    ensures if |x| > 2 && x[0] == 'H' && x[1] == 'T' && x[2] == 'T'
            then Continues(m, x, m.(state := VersionP), x[3..])
            else NoVersion(m, x)
  {
    var m1, m2, m3 := m.(state := VersionT1), m.(state := VersionT2), m.(state := VersionP);
    LetterReads(m, 'H', m1, x);
    if |x| > 0 {
      LetterReads(m1, 'T', m2, x[1..]);
    }
    if |x| > 1 {
      LetterReads(m2, 'T', m3, x[2..]);
    }
  }

  lemma LettersRead(m: Machine, x: string)
    requires m.Ok() && m.state.VersionH?
    ensures if AfterUri(x).Some?
            then Continues(m, x, Machine(MajorStart, m.message.(major := 0, minor := 0)), AfterUri(x).value)
            else NoVersion(m, x)
  {
    HttReads(m, x);
    if |x| > 2 {
      SlashReads(m.(state := VersionP), x[3..]);
      assert |x| > 4 ==> x[3..][0] == x[3] && x[3..][1] == x[4] && x[3..][2..] == x[5..];
    }
  }

  /** From a URI on. */
  lemma UriOnReads(m: Machine, x: string) returns (n: Machine)
    requires m.Ok() && m.state.Uri?
    ensures n.Ok() && n.state.MajorStart? && n.message.major == n.message.minor == 0
    ensures if AfterMethod(x).Some? then Continues(m, x, n, AfterMethod(x).value) else NoVersion(m, x)
  {
    UriReads(m, x);
    var k := Find(x, ' ');
    var msg := m.message.(uri := m.message.uri + x[..k]);
    n := Machine(MajorStart, msg.(major := 0, minor := 0));
    if k < |x| && IsUri(x[..k]) {
      LettersRead(Machine(VersionH, msg), x[k + 1..]);
    }
  }

  /** From the second byte of the method on. */
  lemma MethodOnReads(m: Machine, x: string) returns (n: Machine)
    requires m.Ok() && m.state.Method?
    ensures n.Ok() && n.state.MajorStart? && n.message.major == n.message.minor == 0
    ensures var k := Find(x, ' ');
            if k < |x| && AreTokenChars(x[..k]) && AfterMethod(x[k + 1..]).Some?
            then Continues(m, x, n, AfterMethod(x[k + 1..]).value)
            else NoVersion(m, x)
  {
    MethodReads(m, x);
    var k := Find(x, ' ');
    n := Machine(MajorStart, m.message.(major := 0, minor := 0));
    if k < |x| && AreTokenChars(x[..k]) {
      n := UriOnReads(Machine(Uri, m.message.(verb := m.message.verb + x[..k])), x[k + 1..]);
    }
  }

  /** The version text, seen from the second byte. */
  lemma VersionTextTail(x: string)
    requires x != "" && TokenByte(x[0])
    ensures var y, k := x[1..], Find(x[1..], ' ');
            VersionText(x) == if k < |y| && AreTokenChars(y[..k]) then AfterMethod(y[k + 1..]) else None
  {
    var k := Find(x, ' ');
    assert x[..k] == [x[0]] + x[1..][..k - 1];
    assert x[k..] == x[1..][k - 1..];
  }

  lemma NoMethodNoVersion(x: string)
    requires x == "" || !TokenByte(x[0])
    ensures VersionText(x) == None
  {
    var k := Find(x, ' ');
    if k > 0 {
      assert x[0] in x[..k];
    }
  }

  lemma FirstByte(major: int, minor: int, x: string)
    requires x != ""
    ensures var m, r := Fresh(major, minor), Step(Fresh(major, minor), x[0]);
            if TokenByte(x[0]) then r.0 == Indeterminate && r.1.state.Method? && Continues(m, x, r.1, x[1..])
            else NoVersion(m, x)
  {
    SameClasses(x[0]);
  }

  /** Whether and from where a new parser reads a version. */
  lemma VersionReads(major: int, minor: int, x: string) returns (n: Machine)
    ensures n.Ok() && n.state.MajorStart? && n.message.major == n.message.minor == 0
    ensures if VersionText(x).Some? then Continues(Fresh(major, minor), x, n, VersionText(x).value)
            else NoVersion(Fresh(major, minor), x)
  {
    n := Machine(MajorStart, Fresh(0, 0).message);
    if x == "" || !TokenByte(x[0]) {
      NoMethodNoVersion(x);
    } else {
      VersionTextTail(x);
      n := MethodOnReads(Step(Fresh(major, minor), x[0]).1, x[1..]);
    }
    if x != "" {
      FirstByte(major, minor, x);
    }
  }

  // ---------- the results ----------

  /** For every input, whether accepted, rejected or cut short: the parser gets past `HTTP/`
      exactly if the input has a version text, and its version fields are then the decimal
      values of the digits found there. */
  lemma VersionOfInput(major: int, minor: int, x: string)
    ensures var r := Run(Fresh(major, minor), x).machine;
            var t := VersionText(x);
            && (VersionSeen(r.state) <==> t.Some?)
            && (t.Some? ==> r.message.major == Value(MajorDigits(t.value)) && r.message.minor == Value(MinorDigits(t.value)))
  {
    var n := VersionReads(major, minor, x);
    var t := VersionText(x);
    if t.Some? {
      MajorReads(n, t.value);
      AccumulateValue(MajorDigits(t.value));
    }
  }

  /** The numbers written in the input are at least 48 below the maximum. */
  predicate SmallVersion(x: string) {
    var t := VersionText(x);
    t.Some? ==> Fits(Value(MajorDigits(t.value))) && Fits(Value(MinorDigits(t.value)))
  }

  /** For every input: the arithmetic of `consume` stays within `int` if and only if both
      numbers written in it are at least 48 below the maximum. */
  lemma VersionArithmetic(major: int, minor: int, x: string)
    ensures InRange(Fresh(major, minor), x) <==> SmallVersion(x)
  {
    var n := VersionReads(major, minor, x);
    var t := VersionText(x);
    if t.Some? {
      InRangeMajor(n, t.value);
      AccumulateValue(MajorDigits(t.value));
    }
  }

  function Pow10(n: nat): nat {
    if n == 0 then 1 else 10 * Pow10(n - 1)
  }

  lemma {:induction false} ValueBound(s: string)
    requires IsNumeral(s)
    ensures Value(s) < Pow10(|s|)
  {
    if s != "" {
      ValueBound(Front(s));
      assert Value(s) == Value(Front(s)) * 10 + DigitValue(Last(s));
      assert Pow10(|s|) == 10 * Pow10(|Front(s)|);
    }
  }

  lemma {:induction false} Pow10Grows(n: nat, k: nat)
    requires n <= k
    ensures Pow10(n) <= Pow10(k)
  {
    if n < k {
      Pow10Grows(n, k - 1);
    }
  }

  lemma NineDigitsFit(s: string)
    requires IsNumeral(s) && |s| <= 9
    ensures Fits(Value(s))
  {
    ValueBound(s);
    Pow10Grows(|s|, 9);
    assert Pow10(9) == 1_000_000_000 by {
      assert Pow10(3) == 1_000;
      assert Pow10(6) == 1_000_000;
    }
  }

  /** Nine digits or fewer per number are always safe, in every input. */
  lemma NineDigitsAreSafe(major: int, minor: int, x: string)
    requires var t := VersionText(x);
             t.Some? ==> |MajorDigits(t.value)| <= 9 && |MinorDigits(t.value)| <= 9
    ensures InRange(Fresh(major, minor), x)
  {
    VersionArithmetic(major, minor, x);
    var t := VersionText(x);
    if t.Some? {
      NineDigitsFit(MajorDigits(t.value));
      NineDigitsFit(MinorDigits(t.value));
    }
  }

  lemma {:induction false} GoodEndsTheRequest(m: Machine, x: string)
    requires m.Ok() && Run(m, x).verdict == Good
    ensures Run(m, x).machine.state.Newline3?
    decreases |x|
  {
    if Step(m, x[0]).0 == Indeterminate {
      GoodEndsTheRequest(Step(m, x[0]).1, x[1..]);
    }
  }

  /** For a request of the grammar: if and only if both its numbers are small enough. */
  lemma RequestInRange(major: int, minor: int, s: Syntax)
    requires s.WellFormed()
    ensures InRange(Fresh(major, minor), Spell(s)) <==> Fits(Value(s.major)) && Fits(Value(s.minor))
  {
    var x := Spell(s);
    HttpCompleteness.Complete(major, minor, s);
    GoodEndsTheRequest(Fresh(major, minor), x);
    VersionOfInput(major, minor, x);
    VersionArithmetic(major, minor, x);
  }

  /** A number that fits in an `int` but overflows on the way. */
  lemma OverflowExample(major: int, minor: int, n: nat, s: Syntax)
    requires n == 2147483600 && s == Syntax("GET", "/", Print(n), "0", [])
    ensures s.WellFormed() && Value(s.major) == n <= INT_MAX
    ensures !InRange(Fresh(major, minor), Spell(s))
  {
    ValueOfPrint(n);
    RequestInRange(major, minor, s);
  }
}
