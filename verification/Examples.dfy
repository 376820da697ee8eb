/** Concrete files and requests at which the data server does not do what one might expect.
    The conditions under which it does are in Persistence and OrderedMap. */
module Examples {
  import opened Text
  import opened Splitter
  import opened Store
  import opened Session
  import opened Commands
  import opened Persistence
  import opened OrderedMap

  // ---------- files and requests written out ----------

  lemma PrintTwo(a: string, b: string, sep: char)
    ensures Print([a, b], sep) == a + [sep] + b + [sep]
    ensures Print([a], sep) == a + [sep]
  {
    assert [a, b][1..] == [b] && [b][1..] == [] && [a][1..] == [];
    assert Print([b], sep) == b + [sep] + "";
    assert Print([a], sep) == a + [sep] + "";
    Assoc(a + [sep], b, [sep]);
  }

  lemma JoinTwo(a: string, b: string, sep: char)
    ensures Join([a, b], sep) == a + [sep] + b
  {
    assert [a, b][1..] == [b];
  }

  lemma JoinThree(a: string, b: string, c: string, sep: char)
    ensures Join([a, b, c], sep) == a + [sep] + (b + [sep] + c)
  {
    assert [a, b, c][1..] == [b, c];
    JoinTwo(b, c, sep);
  }

  lemma JoinFour(a: string, b: string, c: string, d: string, sep: char)
    ensures Join([a, b, c, d], sep) == a + [sep] + (b + [sep] + (c + [sep] + d))
  {
    assert [a, b, c, d][1..] == [b, c, d];
    JoinThree(b, c, d, sep);
  }

  /** A word that no splitter cuts. */
  predicate Plain(s: string) {
    s != "" && ':' !in s && '/' !in s && '\r' !in s && '\n' !in s
  }

  /** A command line is understood as its words. */
  lemma Understood(words: seq<string>, raw: string)
    requires words != [] && Free(words, '/') && Last(words) != "" && raw == "/" + Join(words, '/')
    requires '\r' !in raw && '\n' !in raw
    ensures Interpret(raw) == Dispatch(words)
  {
    NothingInserted(raw);
    ArgumentsRoundTrip(words, raw);
  }

  lemma Regroup(slash: string, verb: string, prefix: string, rest: string)
    requires prefix == slash + (verb + slash)
    ensures prefix + rest == slash + (verb + slash + rest)
  {
  }

  /** `get` with a name. */
  lemma AsksForRow(name: string, raw: string)
    requires Plain(name) && raw == "/get/" + name
    ensures Interpret(raw) == Command.GetOne(name, "") && "/get" <= raw
  {
    JoinTwo("get", name, '/');
    Regroup("/", "get", "/get/", name);
    Understood(["get", name], raw);
  }

  lemma OnePiece(raw: string)
    requires raw != "" && '\r' !in raw && '\n' !in raw && ':' !in raw
    ensures StripEol(raw) == raw && Pieces(raw, ':') == 1
  {
    NothingInserted(raw);
    StripRemovesInserted(raw, raw);
    CountNone(raw, ':');
    assert Last(raw) in raw;
  }

  /** `get` with a name and a field. */
  lemma AsksForValue(name: string, field: string, raw: string)
    requires Plain(name) && Plain(field) && raw == "/get/" + (name + ("/" + field))
    ensures Interpret(raw) == Command.GetOne(name, field) && "/get" <= raw
  {
    JoinThree("get", name, field, '/');
    Regroup("/", "get", "/get/", name + ("/" + field));
    Assoc(name, "/", field);
    Understood(["get", name, field], raw);
  }

  /** `set` with a row. */
  lemma SetsRow(csv: string, raw: string)
    requires csv != "" && '/' !in csv && '\r' !in csv && '\n' !in csv && raw == "/set/" + csv
    ensures Interpret(raw) == Command.SetRow(csv)
  {
    JoinTwo("set", csv, '/');
    Regroup("/", "set", "/set/", csv);
    Understood(["set", csv], raw);
  }

  /** `set` with a name, a field and a value. */
  lemma SetsValue(name: string, field: string, value: string, raw: string)
    requires Plain(name) && Plain(field)
    requires value != "" && '/' !in value && '\r' !in value && '\n' !in value
    requires raw == "/set/" + (name + ("/" + (field + ("/" + value))))
    ensures Interpret(raw) == Command.SetField(name, field, value)
  {
    JoinFour("set", name, field, value, '/');
    Assoc(field, "/", value);
    Assoc(name, "/", field + ("/" + value));
    Regroup("/", "set", "/set/", name + ("/" + (field + ("/" + value))));
    Understood(["set", name, field, value], raw);
  }

  lemma ExecuteOne(t: Table, raw: string)
    requires Named(t.rows)
    ensures Execute(t, []) == t
    ensures Execute(t, [raw]) == Effect(t, Interpret(raw))
  {
    assert [raw][1..] == [];
    assert Execute(Effect(t, Interpret(raw)), []) == Effect(t, Interpret(raw));
  }

  /** A file with a line of fields and a line for one row. */
  lemma LoadsOne(fields: seq<string>, row: Row, contents: string)
    requires fields != [] && Free(fields, ':') && Free(fields, '\n') && row != [] && Free(row, ':') && Free(row, '\n')
    requires contents == Print(fields, ':') + "\n" + (Print(row, ':') + "\n")
    ensures Read(EMPTY, contents) == Table(fields, [row])
  {
    var t := Table(fields, [row]);
    assert [row][1..] == [];
    assert Listing(t.rows) == [Print(row, ':')];
    PrintTwo(Print(row, ':'), "", '\n');
    assert Saved(t) == contents;
    ReadOfSaved(t);
    ReparsedRow(row);
    assert Read(EMPTY, contents).rows == t.rows;
  }

  lemma LoadsName(f: string, a: string, contents: string)
    requires Plain(f) && Plain(a) && contents == f + ":" + "\n" + (a + ":" + "\n")
    ensures Read(EMPTY, contents) == Table([f], [[a]])
  {
    PrintTwo(f, f, ':');
    PrintTwo(a, a, ':');
    LoadsOne([f], [a], contents);
  }

  lemma LoadsPair(f: string, g: string, a: string, b: string, contents: string)
    requires Plain(f) && Plain(g) && Plain(a) && Plain(b)
    requires contents == f + ":" + g + ":" + "\n" + (a + ":" + b + ":" + "\n")
    ensures Read(EMPTY, contents) == Table([f, g], [[a, b]])
  {
    PrintTwo(f, g, ':');
    PrintTwo(a, b, ':');
    LoadsOne([f, g], [a, b], contents);
  }

  // ---------- reading past the end of a row ----------

  /** A row with a name only has no value for a second field. */
  lemma ShortRow(f: string, g: string, a: string, t: Table)
    requires f != g && g != "" && t == Table([f, g], [[a]])
    ensures OutcomeOf(t, Command.GetOne(a, g)) == ReadPastEnd
  {
    FirstName([[a]], a, 0);
    assert FindField([f, g], g) == 1;
  }

  lemma PastEndFamily(f: string, g: string, a: string, contents: string, raw: string)
    requires Plain(f) && Plain(g) && Plain(a) && f != g
    requires contents == f + ":" + g + ":" + "\n" + (a + ":" + "\n") && raw == "/get/" + (a + ("/" + g))
    ensures OutcomeOf(Reached(contents, []), Interpret(raw)) == ReadPastEnd
  {
    PrintTwo(f, g, ':');
    PrintTwo(a, a, ':');
    LoadsOne([f, g], [a], contents);
    AsksForValue(a, g, raw);
    ShortRow(f, g, a, Reached(contents, []));
  }

  lemma PastEndExample()
    ensures OutcomeOf(Reached("name:when:\na:\n", []), Interpret("/get/a/when")) == ReadPastEnd
  {
    PastEndFamily("name", "when", "a", "name:when:\na:\n", "/get/a/when");
  }

  // ---------- a value with a colon ----------

  lemma PrintThree(a: string, x: string, y: string, sep: char)
    ensures Print([a, x, y], sep) == Print([a, x + [sep] + y], sep)
  {
    assert [a, x, y][1..] == [x, y];
    PrintTwo(x, y, sep);
    PrintTwo(a, x + [sep] + y, sep);
    Assoc(a + [sep], x + [sep] + y, [sep]);
  }

  /** A row whose second value is `x:y` comes back as three values from the file. */
  lemma ColonSplitsRow(fields: seq<string>, a: string, x: string, y: string, t: Table)
    requires t == Table(fields, [[a, x + ":" + y]]) && Clean(t) && Free([a, x, y], ':')
    ensures Reparsed(t.rows[0]) == [a, x, y]
    ensures Read(EMPTY, Saved(t)) == Table(fields, [[a, x, y]])
  {
    PrintThree(a, x, y, ':');
    TokensOfPrint([a, x, y], ':');
    ReadOfSaved(t);
    assert Read(EMPTY, Saved(t)).rows == [[a, x, y]];
  }

  /** A four-part `set` stores such a value. */
  lemma StoresValue(f: string, g: string, h: string, a: string, b: string, v: string)
    requires f != g
    ensures Effect(Table([f, g, h], [[a, b]]), Command.SetField(a, g, v)) == Table([f, g, h], [[a, v]])
  {
    FirstName([[a, b]], a, 0);
    assert FindField([f, g, h], g) == 1;
    assert [a, b][1 := v] == [a, v];
  }

  lemma LoadsTriple(f: string, g: string, h: string, a: string, b: string, contents: string)
    requires Plain(f) && Plain(g) && Plain(h) && Plain(a) && Plain(b)
    requires contents == f + ":" + (g + ":" + h) + ":" + "\n" + (a + ":" + b + ":" + "\n")
    ensures Read(EMPTY, contents) == Table([f, g, h], [[a, b]])
  {
    PrintThree(f, g, h, ':');
    PrintTwo(f, g + ":" + h, ':');
    PrintTwo(a, b, ':');
    LoadsOne([f, g, h], [a, b], contents);
  }

  predicate ColonFile(f: string, g: string, h: string, a: string, b: string, contents: string) {
    && Plain(f) && Plain(g) && Plain(h) && Plain(a) && Plain(b)
    && contents == f + ":" + (g + ":" + h) + ":" + "\n" + (a + ":" + b + ":" + "\n")
  }

  predicate ColonRequest(a: string, g: string, x: string, y: string, raw: string) {
    Plain(x) && Plain(y) && raw == "/set/" + (a + ("/" + (g + ("/" + (x + ":" + y)))))
  }

  predicate ColonTexts(f: string, g: string, h: string, a: string, b: string, x: string, y: string,
                       contents: string, raw: string) {
    ColonFile(f, g, h, a, b, contents) && f != g && ColonRequest(a, g, x, y, raw)
  }

  lemma ColonFamily(f: string, g: string, h: string, a: string, b: string, x: string, y: string,
                    contents: string, raw: string)
    requires ColonTexts(f, g, h, a, b, x, y, contents, raw)
    ensures Reached(contents, [raw]) == Table([f, g, h], [[a, x + ":" + y]])
  {
    LoadsTriple(f, g, h, a, b, contents);
    SetsValue(a, g, x + ":" + y, raw);
    StoresValue(f, g, h, a, b, x + ":" + y);
    ExecuteOne(Table([f, g, h], [[a, b]]), raw);
  }

  lemma ColonFileInstance()
    ensures ColonFile("name", "at", "by", "a", "b", "name:at:by:\na:b:\n")
  {
  }

  lemma ColonInstance()
    ensures ColonTexts("name", "at", "by", "a", "b", "x", "y", "name:at:by:\na:b:\n", "/set/a/at/x:y")
  {
    ColonFileInstance();
    ColonRequestInstance();
  }

  lemma ColonRequestInstance()
    ensures ColonRequest("a", "at", "x", "y", "/set/a/at/x:y")
  {
  }

  lemma ColonTableIsClean(f: string, g: string, h: string, a: string, x: string, y: string)
    requires Plain(f) && Plain(g) && Plain(h) && Plain(a) && Plain(x) && Plain(y)
    ensures Clean(Table([f, g, h], [[a, x + ":" + y]])) && Free([a, x, y], ':')
  {
  }

  /** The value `x:y`, stored under `at`, comes back as `x`, with `y` under `by`. */
  lemma ColonExample()
    ensures Reached("name:at:by:\na:b:\n", ["/set/a/at/x:y"]) == Table(["name", "at", "by"], [["a", "x" + ":" + "y"]])
    ensures Read(EMPTY, Saved(Table(["name", "at", "by"], [["a", "x" + ":" + "y"]])))
         == Table(["name", "at", "by"], [["a", "x", "y"]])
  {
    ColonInstance();
    ColonFamily("name", "at", "by", "a", "b", "x", "y", "name:at:by:\na:b:\n", "/set/a/at/x:y");
    ColonTableIsClean("name", "at", "by", "a", "x", "y");
    ColonSplitsRow(["name", "at", "by"], "a", "x", "y", Table(["name", "at", "by"], [["a", "x" + ":" + "y"]]));
  }

  // ---------- two rows of one name ----------

  lemma AddsRow(f: string, a: string, b: string)
    requires a != b && b != "" && ':' !in b
    ensures Effect(Table([f], [[a]]), Command.SetRow(b)) == Table([f], [[a], [b]])
  {
    TokensOfJoin([b], ':');
    FirstToken(b, ':');
    FirstName([[a]], b, 1);
    assert [[a]] + [[b]] == [[a], [b]];
  }

  lemma RenamesRow(f: string, a: string, b: string)
    requires a != b
    ensures Effect(Table([f], [[a], [b]]), Command.SetField(b, f, a)) == Table([f], [[a], [a]])
  {
    var rows := [[a], [b]];
    FirstName(rows, b, 1);
    assert rows[1][0 := a] == [a] && rows[1 := [a]] == [[a], [a]];
  }

  lemma ExecuteTwo(t: Table, raw1: string, raw2: string)
    requires Named(t.rows)
    ensures Execute(t, [raw1, raw2]) == Effect(Effect(t, Interpret(raw1)), Interpret(raw2))
  {
    assert [raw1, raw2][1..] == [raw2];
    ExecuteOne(Effect(t, Interpret(raw1)), raw2);
  }

  predicate ClashTexts(f: string, a: string, b: string, contents: string, raw1: string, raw2: string) {
    && Plain(f) && Plain(a) && Plain(b) && a != b
    && contents == f + ":" + "\n" + (a + ":" + "\n")
    && raw1 == "/set/" + b && raw2 == "/set/" + (b + ("/" + (f + ("/" + a))))
  }

  lemma ClashFamily(f: string, a: string, b: string, contents: string, raw1: string, raw2: string)
    requires ClashTexts(f, a, b, contents, raw1, raw2)
    ensures Reached(contents, [raw1]) == Table([f], [[a], [b]])
    ensures Reached(contents, [raw1, raw2]) == Table([f], [[a], [a]])
    ensures Distinct([[a], [b]]) && !Distinct([[a], [a]])
  {
    LoadsName(f, a, contents);
    SetsRow(b, raw1);
    SetsValue(b, f, a, raw2);
    AddsRow(f, a, b);
    RenamesRow(f, a, b);
    ExecuteOne(Table([f], [[a]]), raw1);
    ExecuteTwo(Table([f], [[a]]), raw1, raw2);
    DistinctIsPairwise([[a], [b]]);
    DistinctIsPairwise([[a], [a]]);
  }

  lemma ClashInstance()
    ensures ClashTexts("name", "a", "b", "name:\na:\n", "/set/b", "/set/b/name/a")
  {
  }

  /** With the rows `a` and `b`, renaming `b` to `a` leaves two rows named `a`. */
  lemma ClashInSession()
    ensures Reached("name:\na:\n", ["/set/b"]) == Table(["name"], [["a"], ["b"]])
    ensures Reached("name:\na:\n", ["/set/b", "/set/b/name/a"]) == Table(["name"], [["a"], ["a"]])
    ensures Distinct([["a"], ["b"]]) && !Distinct([["a"], ["a"]])
  {
    ClashInstance();
    ClashFamily("name", "a", "b", "name:\na:\n", "/set/b", "/set/b/name/a");
  }
}
