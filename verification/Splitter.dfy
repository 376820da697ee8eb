/** `std::sregex_token_iterator` with submatch index -1 over a one-character separator
    (section 28.12.2 of ISO C++14), and the printers it is paired with. */
module Splitter {
  import opened Text

  /** One token before every separator, and the suffix if it is not empty. */
  function Rest(s: string, sep: char): seq<string>
    decreases |s|
  {
    if s == "" then []
    else
      var k := Find(s, sep);
      if k == |s| then [s] else [s[..k]] + Rest(s[k + 1..], sep)
  }

  /** All tokens; a string without any separator is its own token, even when empty. */
  function Tokens(s: string, sep: char): (ts: seq<string>)
    ensures ts != []
  {
    if s == "" then [""] else Rest(s, sep)
  }

  /** `std::ostream_iterator` with delimiter `sep`: the delimiter follows every value. */
  function Print(vs: seq<string>, sep: char): string {
    if vs == [] then "" else vs[0] + [sep] + Print(vs[1..], sep)
  }

  /** The values with `sep` between them. */
  function Join(vs: seq<string>, sep: char): string
    requires vs != []
  {
    if |vs| == 1 then vs[0] else vs[0] + [sep] + Join(vs[1..], sep)
  }

  predicate Free(vs: seq<string>, c: char) {
    forall i | 0 <= i < |vs| :: c !in vs[i]
  }

  predicate EndsWith(s: string, c: char) {
    s != "" && Last(s) == c
  }

  /** Splitting inverts printing. */
  lemma {:induction false} RestOfPrint(vs: seq<string>, sep: char)
    requires Free(vs, sep)
    ensures Rest(Print(vs, sep), sep) == vs
  {
    if vs != [] {
      var s := Print(vs, sep);
      FindAt(vs[0], sep, Print(vs[1..], sep));
      assert s[..|vs[0]|] == vs[0] && s[|vs[0]| + 1..] == Print(vs[1..], sep);
      RestOfPrint(vs[1..], sep);
      assert [vs[0]] + vs[1..] == vs;
    }
  }

  lemma {:induction false} RestIsFree(s: string, sep: char)
    ensures Free(Rest(s, sep), sep)
    decreases |s|
  {
    if s != "" {
      var k := Find(s, sep);
      if k < |s| {
        RestIsFree(s[k + 1..], sep);
      } else {
        assert s == s[..k];
      }
    }
  }

  lemma EndsWithTail(head: string, sep: char, tail: string)
    ensures EndsWith(head + [sep] + tail, sep) <==> tail == "" || EndsWith(tail, sep)
  {
    assert tail != "" ==> Last(head + [sep] + tail) == Last(tail);
  }

  /** Printing what was split: the string itself if it ends in the separator (or is empty),
      otherwise the string and one separator. */
  lemma {:induction false} PrintOfRest(s: string, sep: char)
    ensures Print(Rest(s, sep), sep) == if s == "" || EndsWith(s, sep) then s else s + [sep]
    decreases |s|
  {
    if s != "" {
      var k := Find(s, sep);
      if k == |s| {
        assert s == s[..k] && Last(s) in s[..k];
        assert [s][1..] == [];
      } else {
        var head, tail := s[..k], s[k + 1..];
        assert s == head + [sep] + tail;
        EndsWithTail(head, sep, tail);
        PrintOfRest(tail, sep);
        assert Rest(s, sep)[1..] == Rest(tail, sep);
        Assoc(head + [sep], tail, [sep]);
      }
    }
  }

  lemma PrintOfTokens(s: string, sep: char)
    ensures Free(Tokens(s, sep), sep)
    ensures Print(Tokens(s, sep), sep) == if EndsWith(s, sep) then s else s + [sep]
  {
    PrintOfRest(s, sep);
    RestIsFree(s, sep);
    assert s == "" ==> Print([""], sep) == "" + [sep] + Print([], sep);
  }

  lemma PrintIsNotEmpty(vs: seq<string>, sep: char)
    requires vs != []
    ensures EndsWith(Print(vs, sep), sep)
  {
    if |vs| > 1 {
      PrintIsNotEmpty(vs[1..], sep);
      assert Last(Print(vs, sep)) == Last(Print(vs[1..], sep));
    } else {
      assert vs[1..] == [];
    }
  }

  /** Splitting a printed non-empty list gives the list back; the last value may be empty. */
  lemma TokensOfPrint(vs: seq<string>, sep: char)
    requires vs != [] && Free(vs, sep)
    ensures Tokens(Print(vs, sep), sep) == vs
  {
    PrintIsNotEmpty(vs, sep);
    RestOfPrint(vs, sep);
  }

  /** The splitter, characterised: the tokens of `s` are the one non-empty list of
      separator-free strings that prints to `s`, or to `s` and the missing last separator. */
  lemma TokensCharacterised(s: string, sep: char, ts: seq<string>)
    ensures ts == Tokens(s, sep) <==>
            && ts != [] && Free(ts, sep)
            && Print(ts, sep) == if EndsWith(s, sep) then s else s + [sep]
  {
    PrintOfTokens(s, sep);
    if ts != [] && Free(ts, sep) && Print(ts, sep) == Print(Tokens(s, sep), sep) {
      TokensOfPrint(ts, sep);
      TokensOfPrint(Tokens(s, sep), sep);
    }
  }

  /** Printing after splitting is idempotent. */
  lemma PrintAfterSplitIsIdempotent(s: string, sep: char)
    ensures var p := Print(Tokens(s, sep), sep);
            Tokens(p, sep) == Tokens(s, sep) && Print(Tokens(p, sep), sep) == p
  {
    PrintOfTokens(s, sep);
    TokensOfPrint(Tokens(s, sep), sep);
  }

  /** Cutting at the first separator gives the first token, for every string. */
  lemma FirstToken(s: string, sep: char)
    ensures Tokens(s, sep)[0] == s[..Find(s, sep)]
  {
    if s != "" && Find(s, sep) == |s| {
      assert s[..|s|] == s;
    }
  }

  lemma {:induction false} PrintOfJoin(vs: seq<string>, sep: char)
    requires vs != []
    ensures Print(vs, sep) == Join(vs, sep) + [sep]
    ensures EndsWith(Join(vs, sep), sep) && Free(vs, sep) ==> Last(vs) == "" && |vs| > 1
    ensures Last(vs) == "" && |vs| > 1 ==> EndsWith(Join(vs, sep), sep)
  {
    if |vs| == 1 {
      assert vs[1..] == [];
      assert Print(vs, sep) == vs[0] + [sep] + "";
      if EndsWith(vs[0], sep) {
        assert Last(vs[0]) in vs[0];
      }
    } else {
      PrintOfJoin(vs[1..], sep);
      assert Free(vs, sep) ==> Free(vs[1..], sep);
      assert Last(vs) == Last(vs[1..]);
      var j := Join(vs[1..], sep);
      assert Join(vs, sep) == vs[0] + [sep] + j;
      if j != "" {
        assert Last(Join(vs, sep)) == Last(j);
      } else {
        assert |vs[1..]| == 1;
        assert Last(Join(vs, sep)) == sep;
      }
    }
  }

  lemma {:induction false} PrintSnoc(vs: seq<string>, v: string, sep: char)
    ensures Print(vs + [v], sep) == Print(vs, sep) + v + [sep]
  {
    if vs == [] {
      assert [] + [v] == [v] && [v][1..] == [];
      assert Print([v], sep) == v + [sep] + "";
    } else {
      assert (vs + [v])[1..] == vs[1..] + [v];
      PrintSnoc(vs[1..], v, sep);
    }
  }

  /** Splitting joined values gives them back, except that an empty last value is lost
      (unless it is the only one). */
  lemma TokensOfJoin(vs: seq<string>, sep: char)
    requires vs != [] && Free(vs, sep)
    ensures Tokens(Join(vs, sep), sep) == if |vs| > 1 && Last(vs) == "" then Front(vs) else vs
  {
    var s := Join(vs, sep);
    PrintOfJoin(vs, sep);
    if |vs| > 1 && Last(vs) == "" {
      var front := Front(vs);
      assert vs == front + [""];
      PrintSnoc(front, "", sep);
      assert Print(front, sep) + "" + [sep] == Print(front, sep) + [sep];
      SameFront(Print(front, sep), s, sep);
      PrintIsNotEmpty(front, sep);
      TokensCharacterised(s, sep, front);
    } else {
      TokensCharacterised(s, sep, vs);
    }
  }

  lemma SameFront(a: string, b: string, c: char)
    requires a + [c] == b + [c]
    ensures a == b
  {
    assert Front(a + [c]) == a && Front(b + [c]) == b;
  }

  // ---------- how many tokens ----------

  function Count(s: string, c: char): nat {
    if s == "" then 0 else (if s[0] == c then 1 else 0) + Count(s[1..], c)
  }

  lemma {:induction false} CountConcat(a: string, b: string, c: char)
    ensures Count(a + b, c) == Count(a, c) + Count(b, c)
  {
    if a == "" {
      assert a + b == b;
    } else {
      assert (a + b)[1..] == a[1..] + b;
      CountConcat(a[1..], b, c);
    }
  }

  lemma {:induction false} CountNone(s: string, c: char)
    requires c !in s
    ensures Count(s, c) == 0
  {
    if s != "" {
      CountNone(s[1..], c);
    }
  }

  /** One more than there are separators, unless the last one ends the string. */
  function Pieces(s: string, sep: char): nat {
    Count(s, sep) + if EndsWith(s, sep) then 0 else 1
  }

  /** The separators of a string, seen from behind the first one. */
  lemma PiecesTail(head: string, sep: char, tail: string)
    requires sep !in head
    ensures Count(head + [sep] + tail, sep) == 1 + Count(tail, sep)
    ensures EndsWith(head + [sep] + tail, sep) <==> tail == "" || EndsWith(tail, sep)
  {
    CountNone(head, sep);
    CountConcat(head + [sep], tail, sep);
    CountConcat(head, [sep], sep);
    assert [sep][1..] == "";
    EndsWithTail(head, sep, tail);
  }

  lemma {:induction false} RestCount(s: string, sep: char)
    ensures |Rest(s, sep)| == if s == "" then 0 else Pieces(s, sep)
    decreases |s|
  {
    if s != "" {
      var k := Find(s, sep);
      if k == |s| {
        assert s == s[..k];
        CountNone(s, sep);
        assert Last(s) in s;
      } else {
        var head, tail := s[..k], s[k + 1..];
        assert s == head + [sep] + tail;
        PiecesTail(head, sep, tail);
        RestCount(tail, sep);
      }
    }
  }

  lemma TokensCount(s: string, sep: char)
    ensures |Tokens(s, sep)| == Pieces(s, sep)
  {
    RestCount(s, sep);
  }

  /** The first token, and those of a non-empty rest. */
  lemma TokensCons(a: string, sep: char, b: string)
    requires sep !in a && b != ""
    ensures Tokens(a + [sep] + b, sep) == [a] + Tokens(b, sep)
  {
    var s := a + [sep] + b;
    FindAt(a, sep, b);
    assert s[..|a|] == a && s[|a| + 1..] == b;
  }
}
