/** What survives `save` and `read`, for every store a server can reach. */
module Persistence {
  import opened Text
  import opened Splitter
  import opened Store
  import opened Session

  /** Holds of every reachable store: it was read from lines and fed by commands whose line
      ends were filtered out. */
  predicate Clean(t: Table) {
    && t.fields != [] && Free(t.fields, ':') && Free(t.fields, '\n')
    && Named(t.rows)
    && (forall i | 0 <= i < |t.rows| :: Free(t.rows[i], '\n'))
  }

  /** A server's store: what it read when it started, and every request since. */
  function Reached(contents: string, requests: seq<string>): Table {
    Execute(Read(EMPTY, contents), requests)
  }

  /** Splitting invents no characters. */
  lemma {:induction false} TokensKeepFree(s: string, sep: char, c: char)
    requires c !in s
    ensures Free(Tokens(s, sep), c)
  {
    RestKeepsFree(s, sep, c);
  }

  lemma {:induction false} RestKeepsFree(s: string, sep: char, c: char)
    requires c !in s
    ensures Free(Rest(s, sep), c)
    decreases |s|
  {
    if s != "" {
      var k := Find(s, sep);
      if k < |s| {
        RestKeepsFree(s[k + 1..], sep, c);
      }
    }
  }

  lemma {:induction false} PrintKeepsFree(vs: seq<string>, sep: char, c: char)
    requires Free(vs, c) && c != sep
    ensures c !in Print(vs, sep)
  {
    if vs != [] {
      assert Free(vs[1..], c);
      PrintKeepsFree(vs[1..], sep, c);
    }
  }

  lemma RowIsClean(line: string)
    requires '\n' !in line
    ensures Free(Tokens(line, ':'), '\n') && Free(Tokens(line, ':'), ':')
  {
    TokensKeepFree(line, ':', '\n');
    PrintOfTokens(line, ':');
  }

  lemma ReadIsClean(contents: string)
    ensures Clean(Read(EMPTY, contents))
  {
    var lines := Tokens(contents, '\n');
    PrintOfTokens(contents, '\n');
    RowIsClean(lines[0]);
    forall i | 1 <= i < |lines| ensures Free(Tokens(lines[i], ':'), '\n') {
      RowIsClean(lines[i]);
    }
    var rows := ParseRows(lines[1..]);
    assert forall i | 0 <= i < |rows| :: rows[i] == Tokens(lines[i + 1], ':');
    assert Read(EMPTY, contents).rows == rows;
  }

  /** Every argument of a command is free of line ends. */
  lemma ArgumentsAreClean(raw: string)
    ensures Free(Arguments(StripEol(raw)), '\n')
  {
    TokensKeepFree(StripEol(raw), '/', '\n');
  }

  lemma EffectIsClean(t: Table, raw: string)
    requires Clean(t)
    ensures Clean(Effect(t, Interpret(raw)))
  {
    ArgumentsAreClean(raw);
    var args := Arguments(StripEol(raw));
    match Interpret(raw)
    case SetRow(csv) =>
      assert csv == args[1];
      RowIsClean(csv);
    case SetField(name, field, value) =>
      assert value == args[3];
    case _ =>
  }

  lemma {:induction false} ExecuteIsClean(t: Table, requests: seq<string>)
    requires Clean(t)
    ensures Clean(Execute(t, requests)) && Execute(t, requests).fields == t.fields
    decreases |requests|
  {
    if requests != [] {
      EffectIsClean(t, requests[0]);
      ExecuteIsClean(Effect(t, Interpret(requests[0])), requests[1..]);
    }
  }

  lemma ReachedIsClean(contents: string, requests: seq<string>)
    ensures Clean(Reached(contents, requests))
  {
    ReadIsClean(contents);
    ExecuteIsClean(Read(EMPTY, contents), requests);
  }

  // ---------- save, then read ----------

  /** A row as it comes back from the file. */
  function Reparsed(row: Row): Row {
    Tokens(Print(row, ':'), ':')
  }

  lemma SavedIsLines(t: Table)
    ensures Saved(t) == Print([Print(t.fields, ':')] + Listing(t.rows), '\n')
  {
    var lines := [Print(t.fields, ':')] + Listing(t.rows);
    assert lines[1..] == Listing(t.rows);
  }

  /** Splitting the saved file into lines gives back the lines. */
  lemma LinesOfSaved(t: Table)
    requires Clean(t)
    ensures Tokens(Saved(t), '\n') == [Print(t.fields, ':')] + Listing(t.rows)
  {
    var lines := [Print(t.fields, ':')] + Listing(t.rows);
    SavedIsLines(t);
    PrintKeepsFree(t.fields, ':', '\n');
    forall i | 0 <= i < |t.rows| ensures '\n' !in Listing(t.rows)[i] {
      PrintKeepsFree(t.rows[i], ':', '\n');
    }
    TokensOfPrint(lines, '\n');
  }

  /** Reading a saved clean store restores the fields, and every row re-split. */
  lemma ReadOfSaved(t: Table)
    requires Clean(t)
    ensures var t' := Read(EMPTY, Saved(t));
            && t'.fields == t.fields
            && |t'.rows| == |t.rows|
            && forall i | 0 <= i < |t.rows| :: t'.rows[i] == Reparsed(t.rows[i])
  {
    LinesOfSaved(t);
    var lines := [Print(t.fields, ':')] + Listing(t.rows);
    assert lines[1..] == Listing(t.rows);
    TokensOfPrint(t.fields, ':');
  }

  /** A re-split row prints the same, and is the same exactly if no value has a colon. */
  lemma ReparsedRow(row: Row)
    requires row != []
    ensures Print(Reparsed(row), ':') == Print(row, ':')
    ensures Reparsed(row) == row <==> Free(row, ':')
  {
    PrintIsNotEmpty(row, ':');
    PrintOfTokens(Print(row, ':'), ':');
    if Free(row, ':') {
      TokensOfPrint(row, ':');
    }
  }

  /** No value contains a colon. */
  predicate ColonFree(t: Table) {
    forall i | 0 <= i < |t.rows| :: Free(t.rows[i], ':')
  }

  /** A four-part `set` that stores a value with a colon. */
  predicate StoresColon(t: Table, cmd: Command)
    requires Named(t.rows)
  {
    cmd.SetField? && CanSetField(t, cmd.name, cmd.field) && ':' in cmd.value
  }

  /** That is the only command that brings a colon into a store. */
  lemma ColonFreeStep(t: Table, cmd: Command)
    requires Named(t.rows) && ColonFree(t)
    ensures ColonFree(Effect(t, cmd)) <==> !StoresColon(t, cmd)
  {
    match cmd
    case SetRow(csv) => PrintOfTokens(csv, ':');
    case SetField(name, field, value) =>
      if CanSetField(t, name, field) {
        var k, j := FindName(t.rows, name), FindField(t.fields, field);
        assert Effect(t, cmd).rows[k][j] == value;
      }
    case _ =>
  }

  lemma {:induction false} ColonFreeRun(t: Table, requests: seq<string>)
    requires Named(t.rows) && ColonFree(t)
    requires forall r | r in requests :: Interpret(r).SetField? ==> ':' !in Interpret(r).value
    ensures ColonFree(Execute(t, requests))
    decreases |requests|
  {
    if requests != [] {
      assert requests[0] in requests;
      ColonFreeStep(t, Interpret(requests[0]));
      ColonFreeRun(Effect(t, Interpret(requests[0])), requests[1..]);
    }
  }

  /** What a server has read and been sent is free of colons unless a four-part `set` was
      sent one. */
  lemma ReachedIsColonFree(contents: string, requests: seq<string>)
    requires forall r | r in requests :: Interpret(r).SetField? ==> ':' !in Interpret(r).value
    ensures ColonFree(Reached(contents, requests))
  {
    var lines := Tokens(contents, '\n');
    var t := Read(EMPTY, contents);
    forall i | 0 <= i < |t.rows| ensures Free(t.rows[i], ':') {
      assert t.rows[i] == Tokens(lines[1..][i], ':');
      PrintOfTokens(lines[1..][i], ':');
    }
    ColonFreeRun(t, requests);
  }

  /** Persistence, for every reachable store: after `save` and `read` into a new store the
      fields and the `get()` listing are the same, and the whole store is the same if and
      only if no value contains a colon. */
  lemma SaveThenRead(contents: string, requests: seq<string>)
    ensures var t := Reached(contents, requests);
            var t' := Read(EMPTY, Saved(t));
            && t'.fields == t.fields
            && Listing(t'.rows) == Listing(t.rows)
            && (t' == t <==> ColonFree(t))
  {
    ReachedIsClean(contents, requests);
    var t := Reached(contents, requests);
    var t' := Read(EMPTY, Saved(t));
    ReadOfSaved(t);
    forall i | 0 <= i < |t.rows|
      ensures Print(t'.rows[i], ':') == Print(t.rows[i], ':')
      ensures t'.rows[i] == t.rows[i] <==> Free(t.rows[i], ':')
    {
      ReparsedRow(t.rows[i]);
    }
    if ColonFree(t) {
      assert t'.rows == t.rows;
    }
    if t' == t {
      forall i | 0 <= i < |t.rows| ensures Free(t.rows[i], ':') {
        assert t'.rows[i] == t.rows[i];
      }
    }
  }

  /** Saving once more after the restart writes the same file. */
  lemma SaveIsStable(contents: string, requests: seq<string>)
    ensures var t := Reached(contents, requests);
            Saved(Read(EMPTY, Saved(t))) == Saved(t)
  {
    SaveThenRead(contents, requests);
  }

  // ---------- index safety ----------

  /** Every row has a value for every field. */
  predicate Wide(t: Table) {
    forall i | 0 <= i < |t.rows| :: |t.rows[i]| >= |t.fields|
  }

  /** A whole-row `set` supplies a value for every field. */
  predicate Suits(fields: seq<string>, cmd: Command) {
    cmd.SetRow? ==> |Tokens(cmd.csv, ':')| >= |fields|
  }

  /** A command reads past the end of a row exactly if it asks for a known field of a known
      row that is too short for it. */
  lemma ReadsPastEndIff(t: Table, cmd: Command)
    requires Named(t.rows)
    ensures OutcomeOf(t, cmd) == ReadPastEnd <==>
            && cmd.GetOne? && cmd.field != ""
            && var k, j := FindName(t.rows, cmd.name), FindField(t.fields, cmd.field);
               k < |t.rows| && j < |t.fields| && j >= |t.rows[k]|
  {
  }

  /** If the loaded rows are wide and every whole-row `set` is, then in every reachable state
      every row stays wide and no command ever reads past the end of a row. */
  lemma {:induction false} WideStaysInBounds(t: Table, requests: seq<string>, last: string)
    requires Clean(t) && Wide(t)
    requires forall i | 0 <= i < |requests| :: Suits(t.fields, Interpret(requests[i]))
    ensures Wide(Execute(t, requests))
    ensures OutcomeOf(Execute(t, requests), Interpret(last)) != ReadPastEnd
    decreases |requests|
  {
    if requests == [] {
      ReadsPastEndIff(t, Interpret(last));
    } else {
      var t1 := Effect(t, Interpret(requests[0]));
      EffectIsClean(t, requests[0]);
      assert Suits(t.fields, Interpret(requests[0]));
      assert Wide(t1) && t1.fields == t.fields;
      assert forall i | 0 <= i < |requests[1..]| :: requests[1..][i] == requests[i + 1];
      WideStaysInBounds(t1, requests[1..], last);
    }
  }
}
