/** The header printer of `reply::to_buffers` against the request parser. */
module HttpPrinter {
  import opened Text
  import opened Decimal
  import opened HttpRequest
  import opened HttpGrammar
  import opened HttpTheorems
  import HttpSoundness
  import HttpCompleteness

  /** Name, colon, space, value, line end. */
  function PrintHeader(h: Header): string {
    h.name + (": " + (h.value + CRLF))
  }

  function PrintHeaders(hs: seq<Header>): string {
    if hs == [] then "" else PrintHeader(hs[0]) + PrintHeaders(hs[1..])
  }

  predicate Printable(h: Header) {
    IsToken(h.name) && IsFieldText(h.value)
  }

  predicate AllPrintable(hs: seq<Header>) {
    hs == [] || (Printable(hs[0]) && AllPrintable(hs[1..]))
  }

  /** The fields that spell a printed header list: no continuation lines. */
  function Unfolded(hs: seq<Header>): seq<Field> {
    if hs == [] then [] else [Field(hs[0].name, hs[0].value, [])] + Unfolded(hs[1..])
  }

  lemma {:induction false} UnfoldedSpells(hs: seq<Header>)
    ensures SpellFields(Unfolded(hs)) == PrintHeaders(hs)
    ensures FieldsMeaning(Unfolded(hs)) == hs
    ensures AllFields(Unfolded(hs)) <==> AllPrintable(hs)
  {
    if hs != [] {
      UnfoldedSpells(hs[1..]);
      var f := Field(hs[0].name, hs[0].value, []);
      assert Unfolded(hs)[1..] == Unfolded(hs[1..]);
      assert CRLF + "" == CRLF && hs[0].value + "" == hs[0].value;
      assert SpellField(f) == PrintHeader(hs[0]);
      assert FieldMeaning(f) == hs[0];
      assert [hs[0]] + hs[1..] == hs;
    }
  }

  lemma {:induction false} FoldedTextIsText(folds: seq<Fold>)
    requires AllFolds(folds)
    ensures IsFieldText(FoldedText(folds))
  {
    if folds != [] {
      FoldedTextIsText(folds[1..]);
    }
  }

  /** A well-formed field list means printable headers. */
  lemma {:induction false} MeaningIsPrintable(fields: seq<Field>)
    requires AllFields(fields)
    ensures AllPrintable(FieldsMeaning(fields))
  {
    if fields != [] {
      FoldedTextIsText(fields[0].folds);
      MeaningIsPrintable(fields[1..]);
      assert FieldsMeaning(fields)[1..] == FieldsMeaning(fields[1..]);
    }
  }

  /** Printer and parser are inverse on headers: from the header-line state with no header
      yet, the printed section is accepted exactly at its blank line with the same header
      list if and only if names are tokens and values are free of control bytes. */
  lemma ParseInvertsPrint(msg: Message, hs: seq<Header>, rest: string)
    requires msg.headers == []
    ensures var r := Run(Machine(HeaderLineStart, msg), PrintHeaders(hs) + CRLF + rest);
            (r.verdict == Good && r.used == |PrintHeaders(hs)| + 2 && r.machine.message == msg.(headers := hs))
            <==> AllPrintable(hs)
  {
    var m := Machine(HeaderLineStart, msg);
    var x := PrintHeaders(hs) + CRLF;
    var r := Run(m, x + rest);
    UnfoldedSpells(hs);
    RunAppend(m, x, rest);
    if AllPrintable(hs) {
      HttpCompleteness.SectionComplete(m, Unfolded(hs));
      assert [] + hs == hs;
    }
    if r.verdict == Good && r.used == |x| && r.machine.message == msg.(headers := hs) {
      var fields := HttpSoundness.SectionSound(m, x + rest);
      MeaningIsPrintable(fields);
    }
  }

  // ---------- printing a request back ----------

  function PrintRequest(msg: Message): string
    requires msg.major >= 0 && msg.minor >= 0
  {
    msg.verb + (" " + (msg.uri + (" HTTP/" + (Print(msg.major) + ("." + (Print(msg.minor)
    + (CRLF + (PrintHeaders(msg.headers) + CRLF))))))))
  }

  predicate NoFolds(fields: seq<Field>) {
    fields == [] || (fields[0].folds == [] && NoFolds(fields[1..]))
  }

  /** No continuation lines, no superfluous zeros in the version. */
  predicate Plain(s: Syntax) {
    Canonical(s.major) && Canonical(s.minor) && NoFolds(s.fields)
  }

  lemma {:induction false} FoldsAddLength(folds: seq<Fold>)
    requires AllFolds(folds)
    ensures |FoldedText(folds)| + 3 * |folds| <= |SpellFolds(folds)|
  {
    if folds != [] {
      FoldsAddLength(folds[1..]);
    }
  }

  lemma {:induction false} FieldsReprint(fields: seq<Field>)
    requires AllFields(fields)
    ensures |PrintHeaders(FieldsMeaning(fields))| <= |SpellFields(fields)|
    ensures |PrintHeaders(FieldsMeaning(fields))| == |SpellFields(fields)| <==> NoFolds(fields)
    ensures NoFolds(fields) ==> PrintHeaders(FieldsMeaning(fields)) == SpellFields(fields)
  {
    if fields != [] {
      FieldsReprint(fields[1..]);
      var f := fields[0];
      var h := FieldMeaning(f);
      FoldsAddLength(f.folds);
      assert FieldsMeaning(fields)[1..] == FieldsMeaning(fields[1..]);
      assert |PrintHeader(h)| + 3 * |f.folds| <= |SpellField(f)|;
      if f.folds == [] {
        assert f.first + "" == f.first && CRLF + "" == CRLF;
      }
    }
  }

  /** Printing the meaning of a request gives its text back exactly for plain texts. */
  lemma ReprintIffPlain(s: Syntax)
    requires s.WellFormed()
    ensures PrintRequest(Meaning(s)) == Spell(s) <==> Plain(s)
  {
    PrintOfValue(s.major);
    PrintOfValue(s.minor);
    FieldsReprint(s.fields);
    assert |Spell(s)| == |s.verb| + |s.uri| + |s.major| + |s.minor| + |SpellFields(s.fields)| + 12;
  }

  /** A request that was accepted prints to a text that is accepted as the same request:
      printing is a normal form. */
  lemma PrintedRequestIsAccepted(major: int, minor: int, x: string, n: nat, msg: Message)
    requires AcceptsAs(major, minor, x, n, msg)
    ensures msg.major >= 0 && msg.minor >= 0
    ensures AcceptsAs(major, minor, PrintRequest(msg), |PrintRequest(msg)|, msg)
  {
    ParserIsGrammar(major, minor, x, n, msg);
    var s :| Spells(s, x, n, msg);
    var p := Syntax(s.verb, s.uri, Print(msg.major), Print(msg.minor), Unfolded(msg.headers));
    MeaningIsPrintable(s.fields);
    UnfoldedSpells(msg.headers);
    ValueOfPrint(msg.major);
    ValueOfPrint(msg.minor);
    HttpCompleteness.Complete(major, minor, p);
    assert Meaning(p) == msg && Spell(p) == PrintRequest(msg);
  }
}
