/** Concrete files and requests at which the web reply is not what one might expect. The
    conditions under which it is are in EndToEnd and WebGet. */
module WebExamples {
  import opened Splitter
  import opened Store
  import opened Session
  import opened Persistence
  import opened RdbHandler
  import opened EndToEnd
  import opened WebGet
  import opened Examples

  // ---------- a value with a colon ----------

  /** A row whose second value is `x:y` comes back as three values, under the wrong fields. */
  lemma ColonSplitsReply(f: string, g: string, h: string, a: string, x: string, y: string, t: Table, param: string)
    requires t == Table([f, g, h], [[a, x + ":" + y]]) && Clean(t) && Free([a, x, y], ':')
    requires "/get" <= param && Interpret(param).GetAll?
    ensures ReplyTo(t, param) == Reminders([[(f, a), (g, x), (h, y)]])
  {
    ColonSplitsRow(t.fields, a, x, y, t);
    ListingReply(t, param);
    var rows := ReparsedRows(t.rows);
    assert |rows| == 1 && rows[0] == [a, x, y];
    PairedIsPairing(t.fields, rows);
    var records := Paired(t.fields, rows).value;
    assert IsRecordOf(records[0], t.fields, rows[0]);
    assert records[0] == [(f, a), (g, x), (h, y)];
    assert records == [records[0]];
  }

  /** The value `x:y`, stored under `at`, is shown as `x`, with `y` under `by`. */
  lemma ColonInReply(param: string)
    requires "/get" <= param && Interpret(param).GetAll?
    ensures ReplyTo(Reached("name:at:by:\na:b:\n", ["/set/a/at/x:y"]), param)
         == Reminders([[("name", "a"), ("at", "x"), ("by", "y")]])
  {
    ColonInstance();
    ColonReplyFamily("name", "at", "by", "a", "b", "x", "y", "name:at:by:\na:b:\n", "/set/a/at/x:y", param);
  }

  lemma ColonReplyFamily(f: string, g: string, h: string, a: string, b: string, x: string, y: string,
                         contents: string, raw: string, param: string)
    requires ColonTexts(f, g, h, a, b, x, y, contents, raw)
    requires "/get" <= param && Interpret(param).GetAll?
    ensures ReplyTo(Reached(contents, [raw]), param) == Reminders([[(f, a), (g, x), (h, y)]])
  {
    ColonFamily(f, g, h, a, b, x, y, contents, raw);
    ColonTableIsClean(f, g, h, a, x, y);
    ColonSplitsReply(f, g, h, a, x, y, Table([f, g, h], [[a, x + ":" + y]]), param);
  }

  // ---------- a row too wide for the field list ----------

  /** A whole-row `set` supplies two values where there is one field. */
  lemma WidensRow(f: string, a: string, b: string)
    requires Plain(a) && Plain(b)
    ensures Effect(Table([f], [[a]]), Command.SetRow(a + [':'] + b)) == Table([f], [[a, b]])
  {
    JoinTwo(a, b, ':');
    TokensOfJoin([a, b], ':');
    FirstToken(a + [':'] + b, ':');
    FirstName([[a]], a, 0);
    assert [[a]][0 := [a, b]] == [[a, b]];
  }

  lemma WideRowOverruns(t: Table, param: string)
    requires Clean(t) && |t.fields| == 1 && |t.rows| == 1 && |t.rows[0]| == 2 && Free(t.rows[0], ':')
    requires "/get" <= param && Interpret(param).GetAll?
    ensures ReplyTo(t, param) == Overrun
  {
    ListingReply(t, param);
    PairedIsPairing(t.fields, ReparsedRows(t.rows));
    ReparsedRow(t.rows[0]);
    assert |ReparsedRows(t.rows)[0]| == 2;
  }

  predicate OverrunTexts(f: string, a: string, b: string, contents: string, raw: string) {
    && Plain(f) && Plain(a) && Plain(b)
    && contents == f + ":" + "\n" + (a + ":" + "\n") && raw == "/set/" + (a + [':'] + b)
  }

  lemma OverrunStore(f: string, a: string, b: string, contents: string, raw: string)
    requires OverrunTexts(f, a, b, contents, raw)
    ensures Reached(contents, [raw]) == Table([f], [[a, b]])
  {
    LoadsName(f, a, contents);
    SetsRow(a + [':'] + b, raw);
    WidensRow(f, a, b);
    ExecuteOne(Table([f], [[a]]), raw);
  }

  lemma OverrunFamily(f: string, a: string, b: string, contents: string, raw: string, param: string)
    requires OverrunTexts(f, a, b, contents, raw) && "/get" <= param && Interpret(param).GetAll?
    ensures ReplyTo(Reached(contents, [raw]), param) == Overrun
  {
    OverrunStore(f, a, b, contents, raw);
    WideRowOverruns(Table([f], [[a, b]]), param);
  }

  lemma OverrunInstance()
    ensures OverrunTexts("name", "a", "b", "name:\na:\n", "/set/a:b")
  {
  }

  lemma OverrunExample(param: string)
    requires "/get" <= param && Interpret(param).GetAll?
    ensures ReplyTo(Reached("name:\na:\n", ["/set/a:b"]), param) == Overrun
  {
    OverrunInstance();
    OverrunFamily("name", "a", "b", "name:\na:\n", "/set/a:b", param);
  }

  // ---------- a lookup in a store without fault ----------

  lemma NotFoundIsTooWide(name: string, t: Table, raw: string)
    requires Plain(name) && raw == "/get/" + name
    requires Named(t.rows) && |t.fields| == 2 && FindName(t.rows, name) == |t.rows|
    ensures "/get" <= raw && OutcomeOf(t, Interpret(raw)).Answered? && TooWide(t, Interpret(raw), StripEol(raw))
  {
    AsksForRow(name, raw);
    OnePiece(raw);
  }

  /** In every clean store with two fields, asking for a name that is not there overruns. */
  lemma NotFoundOverruns(name: string, t: Table, raw: string)
    requires Plain(name) && raw == "/get/" + name
    requires Clean(t) && |t.fields| == 2 && FindName(t.rows, name) == |t.rows|
    ensures ReplyTo(t, raw) == Overrun
  {
    NotFoundIsTooWide(name, t, raw);
    OverrunIff(t, raw);
  }

  lemma PairFamily(f: string, g: string, a: string, b: string, n: string, contents: string, t: Table)
    requires Plain(f) && Plain(g) && Plain(a) && Plain(b) && n != a
    requires contents == f + ":" + g + ":" + "\n" + (a + ":" + b + ":" + "\n") && t == Reached(contents, [])
    ensures t == Table([f, g], [[a, b]]) && Clean(t) && FindName(t.rows, n) == 1
  {
    LoadsPair(f, g, a, b, contents);
    ReachedIsClean(contents, []);
    FirstName(t.rows, n, 1);
  }

  predicate NotFoundTexts(f: string, g: string, a: string, b: string, n: string, contents: string, raw: string) {
    && Plain(f) && Plain(g) && Plain(a) && Plain(b) && Plain(n) && n != a && raw == "/get/" + n
    && contents == f + ":" + g + ":" + "\n" + (a + ":" + b + ":" + "\n")
  }

  lemma NotFoundFamily(f: string, g: string, a: string, b: string, n: string, contents: string, raw: string)
    requires NotFoundTexts(f, g, a, b, n, contents, raw)
    ensures ReplyTo(Reached(contents, []), raw) == Overrun
  {
    PairFamily(f, g, a, b, n, contents, Reached(contents, []));
    NotFoundOverruns(n, Reached(contents, []), raw);
  }

  lemma NotFoundInstance()
    ensures NotFoundTexts("name", "when", "a", "b", "nobody", "name:when:\na:b:\n", "/get/nobody")
  {
  }

  lemma NotFoundExample()
    ensures ReplyTo(Reached("name:when:\na:b:\n", []), "/get/nobody") == Overrun
  {
    NotFoundInstance();
    NotFoundFamily("name", "when", "a", "b", "nobody", "name:when:\na:b:\n", "/get/nobody");
  }

  /** A value of the second field comes back under the name of the first. */
  lemma ShowsUnderFirst(f: string, g: string, a: string, b: string, t: Table, raw: string)
    requires Clean(t) && t == Table([f, g], [[a, b]]) && f != g && Plain(g) && Plain(a) && Plain(b)
    requires raw == "/get/" + (a + ("/" + g))
    ensures ReplyTo(t, raw) == Reminders([[(f, b)]])
  {
    AsksForValue(a, g, raw);
    FirstName(t.rows, a, 0);
    assert FindField(t.fields, g) == 1;
    OneLineReply(t, raw);
    WholeToken(b);
    ZipIsRecord(t.fields, [b]);
    assert Zip(t.fields, [b]).value == [(f, b)];
  }

  predicate WrongFieldTexts(f: string, g: string, a: string, b: string, contents: string, raw: string) {
    && Plain(f) && Plain(g) && Plain(a) && Plain(b) && f != g && raw == "/get/" + (a + ("/" + g))
    && contents == f + ":" + g + ":" + "\n" + (a + ":" + b + ":" + "\n")
  }

  lemma WrongFieldFamily(f: string, g: string, a: string, b: string, contents: string, raw: string)
    requires WrongFieldTexts(f, g, a, b, contents, raw)
    ensures ReplyTo(Reached(contents, []), raw) == Reminders([[(f, b)]])
  {
    PairFamily(f, g, a, b, "", contents, Reached(contents, []));
    ShowsUnderFirst(f, g, a, b, Table([f, g], [[a, b]]), raw);
  }

  lemma WrongFieldInstance()
    ensures WrongFieldTexts("name", "when", "a", "b", "name:when:\na:b:\n", "/get/a/when")
  {
  }

  lemma WrongFieldExample()
    ensures ReplyTo(Reached("name:when:\na:b:\n", []), "/get/a/when") == Reminders([[("name", "b")]])
  {
    WrongFieldInstance();
    WrongFieldFamily("name", "when", "a", "b", "name:when:\na:b:\n", "/get/a/when");
  }
}
