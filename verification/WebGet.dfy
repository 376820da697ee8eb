/** The web reply to every `/get` path: whether the handler runs past its field list, and
    whether the reply is right. */
module WebGet {
  import opened Text
  import opened Splitter
  import opened Store
  import opened Session
  import opened Persistence
  import opened RdbHandler
  import opened EndToEnd

  // ---------- the commands of such a path ----------

  lemma {:induction false} StripPrefix(p: string, s: string)
    requires '\r' !in p && '\n' !in p
    ensures StripEol(p + s) == p + StripEol(s)
  {
    if p == "" {
      assert p + s == s;
    } else {
      assert (p + s)[1..] == p[1..] + s;
      StripPrefix(p[1..], s);
      Assoc([p[0]], p[1..], StripEol(s));
      assert [p[0]] + p[1..] == p;
    }
  }

  lemma FirstArgument(text: string)
    requires |text| > 1 && text[0] == '/' && text[1] != '/'
    ensures Arguments(text) != [] && Arguments(text)[0] != "" && Arguments(text)[0][0] == text[1]
  {
    var tail := text[1..];
    assert Tokens(text, '/') == [text[..0]] + Rest(tail, '/');
    assert Arguments(text) == Rest(tail, '/');
  }

  /** Only listings, lookups and unknown commands start with `/get`. */
  lemma GetCommands(param: string)
    requires "/get" <= param
    ensures var cmd := Interpret(param);
            cmd.GetAll? || cmd.GetOne? || cmd.Unknown?
    ensures StripEol(param) != "" && '\n' !in StripEol(param)
  {
    var text := StripEol(param);
    var rest := param[2..];
    assert param == ['/', 'g'] + rest;
    StripPrefix(['/', 'g'], rest);
    assert text[0] == '/' && text[1] == 'g';
    FirstArgument(text);
    assert Arguments(text)[0][0] == 'g';
  }

  // ---------- records ----------

  /** A line with more values than there are fields. */
  predicate TooLong(fields: seq<string>, line: string) {
    line != "" && |Tokens(line, ':')| > |fields|
  }

  /** The handler runs past its field list exactly if some line is too long. */
  lemma {:induction false} RecordsNoneIff(fields: seq<string>, lines: seq<string>)
    ensures Records(fields, lines).None? <==> exists i :: 0 <= i < |lines| && TooLong(fields, lines[i])
  {
    if lines != [] {
      ZipIsRecord(fields, Tokens(lines[0], ':'));
      RecordsNoneIff(fields, lines[1..]);
      assert forall i | 0 < i < |lines| :: lines[i] == lines[1..][i - 1];
    }
  }

  lemma OneRecord(fields: seq<string>, line: string)
    requires line != ""
    ensures var record := Zip(fields, Tokens(line, ':'));
            Records(fields, [line]) == if record.None? then None else Some([record.value])
  {
    assert [line][1..] == [];
    var record := Zip(fields, Tokens(line, ':'));
    assert record.Some? ==> [record.value] + [] == [record.value];
  }

  lemma OneLine(line: string)
    requires '\n' !in line
    ensures Tokens(line + "\n", '\n') == [line]
  {
    assert [line][1..] == [];
    assert Print([line], '\n') == line + ['\n'] + "" == line + "\n";
    TokensOfPrint([line], '\n');
  }

  // ---------- answers of one line ----------

  /** The answer to a lookup or an unknown command, without its line end. */
  function AnswerLine(t: Table, cmd: Command, text: string): string
    requires Named(t.rows) && OutcomeOf(t, cmd).Answered? && (cmd.GetOne? || cmd.Unknown?)
  {
    if cmd.Unknown? then UNRECOGNIZED + text
    else
      var found := Get(t, cmd.name, cmd.field).text;
      if found == "" then NOT_FOUND + text else found
  }

  lemma FoundIsClean(t: Table, name: string, field: string)
    requires Clean(t) && Get(t, name, field).Found?
    ensures '\n' !in Get(t, name, field).text
  {
    var k := FindName(t.rows, name);
    if k < |t.rows| {
      PrintKeepsFree(t.rows[k], ':', '\n');
    }
  }

  lemma AnswerLineIsClean(t: Table, cmd: Command, text: string)
    requires Clean(t) && OutcomeOf(t, cmd).Answered? && (cmd.GetOne? || cmd.Unknown?)
    requires '\n' !in text && text != ""
    ensures AnswerLine(t, cmd, text) != "" && '\n' !in AnswerLine(t, cmd, text)
    ensures Response(t, cmd, text) == AnswerLine(t, cmd, text) + "\n"
  {
    if cmd.GetOne? {
      FoundIsClean(t, cmd.name, cmd.field);
    }
  }

  /** The reply to such a path: one record, of the answer's pieces under the first fields. */
  lemma OneLineReply(t: Table, param: string)
    requires Clean(t) && "/get" <= param && OutcomeOf(t, Interpret(param)).Answered? && !Interpret(param).GetAll?
    ensures Interpret(param).GetOne? || Interpret(param).Unknown?
    ensures var record := Zip(t.fields, Tokens(AnswerLine(t, Interpret(param), StripEol(param)), ':'));
            ReplyTo(t, param) == if record.None? then Overrun else Reminders([record.value])
  {
    GetCommands(param);
    var line := AnswerLine(t, Interpret(param), StripEol(param));
    AnswerLineIsClean(t, Interpret(param), StripEol(param));
    ReplySplitsAnswer(t, param);
    OneLine(line);
    OneRecord(t.fields, line);
  }

  // ---------- how many values an answer has ----------

  /** The values of a row after printing and splitting: one per value and one per colon. */
  function Width(row: Row): nat {
    if row == [] then 0 else 1 + Count(row[0], ':') + Width(row[1..])
  }

  lemma {:induction false} CountOfPrint(row: Row)
    ensures Count(Print(row, ':'), ':') == Width(row)
  {
    if row != [] {
      var rest := Print(row[1..], ':');
      CountOfPrint(row[1..]);
      CountConcat(row[0] + [':'], rest, ':');
      CountConcat(row[0], [':'], ':');
      assert [':'][1..] == "";
    }
  }

  lemma WidthIsTokens(row: Row)
    requires row != []
    ensures |Reparsed(row)| == Width(row)
  {
    PrintIsNotEmpty(row, ':');
    TokensCount(Print(row, ':'), ':');
    CountOfPrint(row);
  }

  lemma TwoTokens(a: string, b: string, c: string, bc: string, sep: char)
    requires sep !in a && sep !in b && c != "" && bc == b + [sep] + c
    ensures Tokens(a + [sep] + bc, sep) == [a, b] + Tokens(c, sep)
  {
    TokensCons(b, sep, c);
    TokensCons(a, sep, bc);
    assert [a] + ([b] + Tokens(c, sep)) == [a, b] + Tokens(c, sep);
  }

  lemma SpaceBefore(space: string, text: string)
    requires space == " " && text != ""
    ensures |Tokens(space + text, ':')| == Pieces(text, ':')
  {
    TokensCount(space + text, ':');
    assert (space + text)[1..] == text && Last(space + text) == Last(text);
  }

  lemma Regroup(a: string, b: string, c: string, d: string, e: string, f: string)
    ensures (a + b + (c + d + e)) + f == a + b + (c + d + (e + f))
  {
  }

  /** An error text: two pieces, and those of the command line behind a space. */
  lemma ErrorTokens(prefix: string, error: string, what: string, text: string)
    requires ':' !in error && ':' !in what && text != ""
    requires prefix == error + [':'] + (what + [':'] + " ")
    ensures Tokens(prefix + text, ':') == [error, what] + Tokens(" " + text, ':')
    ensures |Tokens(prefix + text, ':')| == 2 + Pieces(text, ':')
  {
    Regroup(error, [':'], what, [':'], " ", text);
    var rest := " " + text;
    TwoTokens(error, what, rest, what + [':'] + rest, ':');
    SpaceBefore(" ", text);
  }

  lemma NotFoundTokens(prefix: string, text: string)
    requires prefix == NOT_FOUND && text != ""
    ensures Tokens(prefix + text, ':') == ["ERROR", " Not found"] + Tokens(" " + text, ':')
    ensures |Tokens(prefix + text, ':')| == 2 + Pieces(text, ':')
  {
    ErrorTokens(prefix, "ERROR", " Not found", text);
  }

  lemma UnrecognizedText(prefix: string, what: string)
    requires prefix == UNRECOGNIZED && what == " Unrecognized command"
    ensures prefix == "ERROR" + [':'] + (what + [':'] + " ")
  {
  }

  lemma UnrecognizedTokens(prefix: string, text: string)
    requires prefix == UNRECOGNIZED && text != ""
    ensures |Tokens(prefix + text, ':')| == 2 + Pieces(text, ':')
  {
    var what := " Unrecognized command";
    UnrecognizedText(prefix, what);
    ErrorTokens(prefix, "ERROR", what, text);
  }

  /** The number of values in an answer of one line, from the store and the command. */
  function AnswerWidth(t: Table, cmd: Command, text: string): nat
    requires Named(t.rows) && (cmd.GetOne? || cmd.Unknown?)
  {
    if cmd.Unknown? then 2 + Pieces(text, ':')
    else
      var k, j := FindName(t.rows, cmd.name), FindField(t.fields, cmd.field);
      if k < |t.rows| && cmd.field == "" then Width(t.rows[k])
      else if k < |t.rows| && j < |t.fields| && j < |t.rows[k]| && t.rows[k][j] != "" then Pieces(t.rows[k][j], ':')
      else 2 + Pieces(text, ':')
  }

  lemma AnswerWidthIsTokens(t: Table, cmd: Command, text: string)
    requires Clean(t) && OutcomeOf(t, cmd).Answered? && (cmd.GetOne? || cmd.Unknown?) && text != ""
    ensures |Tokens(AnswerLine(t, cmd, text), ':')| == AnswerWidth(t, cmd, text)
  {
    NotFoundTokens(NOT_FOUND, text);
    UnrecognizedTokens(UNRECOGNIZED, text);
    if cmd.GetOne? {
      var k, j := FindName(t.rows, cmd.name), FindField(t.fields, cmd.field);
      if k < |t.rows| {
        WidthIsTokens(t.rows[k]);
        PrintIsNotEmpty(t.rows[k], ':');
        if j < |t.rows[k]| {
          TokensCount(t.rows[k][j], ':');
        }
      }
    }
  }

  // ---------- the overrun ----------

  /** The answer has more values than there are fields. */
  predicate TooWide(t: Table, cmd: Command, text: string)
    requires Named(t.rows)
  {
    if cmd.GetAll? then exists i :: 0 <= i < |t.rows| && Width(t.rows[i]) > |t.fields|
    else (cmd.GetOne? || cmd.Unknown?) && AnswerWidth(t, cmd, text) > |t.fields|
  }

  lemma ListingOverrunIff(t: Table, param: string)
    requires Clean(t) && "/get" <= param && Interpret(param).GetAll?
    ensures ReplyTo(t, param) == Overrun <==> exists i :: 0 <= i < |t.rows| && Width(t.rows[i]) > |t.fields|
  {
    ListingReply(t, param);
    var rows := ReparsedRows(t.rows);
    PairedIsPairing(t.fields, rows);
    forall i | 0 <= i < |rows| ensures |rows[i]| == Width(t.rows[i]) {
      WidthIsTokens(t.rows[i]);
    }
  }

  lemma OneLineOverrunIff(t: Table, param: string)
    requires Clean(t) && "/get" <= param && OutcomeOf(t, Interpret(param)).Answered? && !Interpret(param).GetAll?
    ensures ReplyTo(t, param) == Overrun <==> TooWide(t, Interpret(param), StripEol(param))
  {
    GetCommands(param);
    OneLineReply(t, param);
    AnswerWidthIsTokens(t, Interpret(param), StripEol(param));
    ZipIsRecord(t.fields, Tokens(AnswerLine(t, Interpret(param), StripEol(param)), ':'));
  }

  /** For every clean store and every path: the handler runs past its field list if and only
      if the path starts with `/get`, is answered, and the answer, by store and request, has
      more values than there are fields. */
  lemma OverrunIff(t: Table, param: string)
    requires Clean(t)
    ensures ReplyTo(t, param) == Overrun <==>
            && "/get" <= param && OutcomeOf(t, Interpret(param)).Answered?
            && TooWide(t, Interpret(param), StripEol(param))
  {
    if "/get" <= param {
      assert param[1] == 'g';
      if Interpret(param).GetAll? {
        ListingOverrunIff(t, param);
      } else if OutcomeOf(t, Interpret(param)).Answered? {
        OneLineOverrunIff(t, param);
      }
    }
  }

  // ---------- right answers to a lookup ----------

  /** The reply is the one row asked for, under its field names. */
  predicate ShowsRow(reply: RdbReply, fields: seq<string>, row: Row) {
    reply.Reminders? && |reply.records| == 1 && IsRecordOf(reply.records[0], fields, row)
  }

  /** A whole row is shown as it is if and only if it has no colon and is not too wide. */
  lemma RowIsRight(t: Table, param: string, name: string, k: nat)
    requires Clean(t) && "/get" <= param && Interpret(param) == Command.GetOne(name, "")
    requires k == FindName(t.rows, name) < |t.rows|
    ensures ShowsRow(ReplyTo(t, param), t.fields, t.rows[k]) <==> Free(t.rows[k], ':') && |t.rows[k]| <= |t.fields|
  {
    var row := t.rows[k];
    PrintIsNotEmpty(row, ':');
    OneLineReply(t, param);
    ZipIsRecord(t.fields, Reparsed(row));
    ReparsedRow(row);
    var reply := ReplyTo(t, param);
    if ShowsRow(reply, t.fields, row) {
      SameRow(reply.records[0], t.fields, row, Reparsed(row));
    }
  }

  /** A single value is shown under its own name if and only if it belongs to the first field,
      is not empty and has no colon. */
  lemma ValueIsRight(t: Table, param: string, name: string, field: string, k: nat, j: nat)
    requires Clean(t) && "/get" <= param && Interpret(param) == Command.GetOne(name, field) && field != ""
    requires k == FindName(t.rows, name) < |t.rows| && j == FindField(t.fields, field) < |t.fields| && j < |t.rows[k]|
    ensures var v := t.rows[k][j];
            ReplyTo(t, param) == Reminders([[(field, v)]]) <==> j == 0 && v != "" && ':' !in v
  {
    var v, text := t.rows[k][j], StripEol(param);
    GetCommands(param);
    OneLineReply(t, param);
    if v == "" {
      NotFoundTokens(NOT_FOUND, text);
      ZipIsRecord(t.fields, Tokens(NOT_FOUND + text, ':'));
    } else {
      ValueUnderField(t.fields, field, j, v);
    }
  }

  /** A value in the first place of the field list. */
  lemma ValueUnderField(fields: seq<string>, field: string, j: nat, v: string)
    requires j == FindField(fields, field) < |fields| && v != ""
    ensures Zip(fields, Tokens(v, ':')) == Some([(field, v)]) <==> j == 0 && ':' !in v
  {
    var values := Tokens(v, ':');
    ZipIsRecord(fields, values);
    PrintOfTokens(v, ':');
    assert fields[0] == field <==> j == 0;
    if ':' !in v {
      WholeToken(v);
      assert Zip(fields, values).value == [(fields[0], v)];
    }
  }

  lemma WholeToken(v: string)
    requires v != "" && ':' !in v
    ensures Tokens(v, ':') == [v]
  {
    FindAt(v, ':', "");
  }

  /** If there is no such row or no such field, the reply is never the empty list: it shows
      the error text under the field names. */
  lemma MissingIsShown(t: Table, param: string, name: string, field: string)
    requires Clean(t) && "/get" <= param && Interpret(param) == Command.GetOne(name, field)
    requires FindName(t.rows, name) == |t.rows| || (field != "" && FindField(t.fields, field) == |t.fields|)
    ensures ReplyTo(t, param) == Overrun
            || (ReplyTo(t, param).Reminders? && |ReplyTo(t, param).records| == 1
                && IsRecordOf(ReplyTo(t, param).records[0], t.fields,
                              ["ERROR", " Not found"] + Tokens(" " + StripEol(param), ':')))
  {
    GetCommands(param);
    OneLineReply(t, param);
    NotFoundTokens(NOT_FOUND, StripEol(param));
    ZipIsRecord(t.fields, Tokens(NOT_FOUND + StripEol(param), ':'));
  }
}
