/** Decimal numerals: `std::to_string` and the digit arithmetic of the parser. */
module Decimal {
  import opened Text

  predicate IsDigit(c: char) {
    '0' <= c <= '9'
  }

  predicate IsNumeral(s: string) {
    forall c | c in s :: IsDigit(c)
  }

  function DigitValue(c: char): nat
    requires IsDigit(c)
  {
    c as int - '0' as int
  }

  function DigitChar(d: nat): (c: char)
    requires d < 10
    ensures IsDigit(c) && DigitValue(c) == d
  {
    (d + '0' as int) as char
  }

  function Value(s: string): nat
    requires IsNumeral(s)
  {
    if s == "" then 0 else Value(Front(s)) * 10 + DigitValue(Last(s))
  }

  /** `std::to_string` on a non-negative number. */
  function Print(n: nat): (s: string)
    ensures s != "" && IsNumeral(s)
  {
    if n < 10 then [DigitChar(n)] else Print(n / 10) + [DigitChar(n % 10)]
  }

  /** No superfluous leading zero. */
  predicate Canonical(s: string) {
    |s| == 1 || (|s| > 1 && s[0] != '0')
  }

  lemma {:induction false} ValueOfPrint(n: nat)
    ensures Value(Print(n)) == n
  {
    if n >= 10 {
      ValueOfPrint(n / 10);
      assert Front(Print(n)) == Print(n / 10);
    } else {
      assert Front(Print(n)) == "";
    }
  }

  lemma {:induction false} LeadingDigitCounts(s: string)
    requires IsNumeral(s) && s != "" && s[0] != '0'
    ensures Value(s) > 0
  {
    if |s| > 1 {
      LeadingDigitCounts(Front(s));
    } else {
      assert DigitValue(s[0]) > 0;
    }
  }

  /** Printing the value of a numeral never makes it longer, and gives the numeral
      back exactly when it has no leading zero. */
  lemma {:induction false} PrintOfValue(s: string)
    requires IsNumeral(s) && s != ""
    ensures |Print(Value(s))| <= |s|
    ensures |Print(Value(s))| == |s| <==> Canonical(s)
    ensures Canonical(s) ==> Print(Value(s)) == s
  {
    var t, d := Front(s), DigitValue(Last(s));
    assert s == t + [Last(s)] && DigitChar(d) == Last(s);
    assert Value(s) == Value(t) * 10 + d;
    if t == "" {
      assert Value(s) == d;
    } else {
      PrintOfValue(t);
      if Value(t) > 0 {
        assert Value(s) / 10 == Value(t) && Value(s) % 10 == d;
        assert Canonical(s) <==> Canonical(t);
      } else {
        if t[0] != '0' {
          LeadingDigitCounts(t);
        }
      }
    }
  }

  /** The parser's left-to-right accumulation, starting from `v`. */
  function Accumulate(v: int, s: string): int
    requires IsNumeral(s)
    decreases |s|
  {
    if s == "" then v else Accumulate(v * 10 + DigitValue(s[0]), s[1..])
  }

  lemma {:induction false} AccumulateSnoc(v: int, s: string, c: char)
    requires IsNumeral(s) && IsDigit(c)
    ensures IsNumeral(s + [c]) && Accumulate(v, s + [c]) == Accumulate(v, s) * 10 + DigitValue(c)
    decreases |s|
  {
    if s == "" {
      assert "" + [c] == [c] && [c][1..] == "";
    } else {
      assert (s + [c])[0] == s[0] && (s + [c])[1..] == s[1..] + [c];
      AccumulateSnoc(v * 10 + DigitValue(s[0]), s[1..], c);
    }
  }

  /** Accumulating from zero gives the decimal value. */
  lemma {:induction false} AccumulateValue(s: string)
    requires IsNumeral(s)
    ensures Accumulate(0, s) == Value(s)
  {
    if s != "" {
      AccumulateValue(Front(s));
      AccumulateSnoc(0, Front(s), Last(s));
      assert s == Front(s) + [Last(s)];
    }
  }
}
