/** The web side of the store: the data client (ClientLib) and `rdb_handler`, which split
    the answers of the data server again. */
module RdbHandler {
  import opened Text
  import opened Splitter
  import opened Store
  import opened Session
  import opened Commands

  /** A row as pairs of field name and value. */
  type Record = seq<(string, string)>

  /** `executeCmd`: the response, split into lines. */
  method ExecuteCmd(response: string) returns (result: seq<string>)
    ensures result == Tokens(response, '\n')
  {
    result := [];
    var tokens := Tokens(response, '\n');
    var i := 0;
    while i < |tokens|
      invariant 0 <= i <= |tokens| && result == tokens[..i]
    {
      result := result + [tokens[i]];
      i := i + 1;
    }
  }

  /** Values paired with the field names in order; `None` if there are more values than
      names, when the code would read past the end of the list. */
  function Zip(fields: seq<string>, values: seq<string>): Option<Record> {
    if values == [] then Some([])
    else if fields == [] then None
    else Cons((fields[0], values[0]), Zip(fields[1..], values[1..]))
  }

  /** The rows of a listing: empty lines are skipped, the others split and paired. */
  function Records(fields: seq<string>, lines: seq<string>): Option<seq<Record>> {
    if lines == [] then Some([])
    else
      var rest := Records(fields, lines[1..]);
      if lines[0] == "" then rest
      else
        var record := Zip(fields, Tokens(lines[0], ':'));
        if record.None? then None else Cons(record.value, rest)
  }

  /** The field list the handler fetches first. */
  function FieldNames(response: string): seq<string> {
    Tokens(Tokens(response, '\n')[0], ':')
  }

  datatype RdbReply =
    | FieldList(fields: seq<string>)
    | Reminders(records: seq<Record>)
    | Text(text: string)
    | Failed                               // the server dropped the connection
    | PastRow                              // the server read past the end of a row
    | Overrun                              // more values than fields

  /** All lines, each followed by a carriage return and a newline. */
  function PlainText(lines: seq<string>): string {
    if lines == [] then "" else lines[0] + CRLF + PlainText(lines[1..])
  }

  lemma {:induction false} PlainTextSnoc(lines: seq<string>, line: string)
    ensures PlainText(lines + [line]) == PlainText(lines) + line + CRLF
  {
    if lines == [] {
      assert [] + [line] == [line] && [line][1..] == [];
      assert PlainText([line]) == line + CRLF + "";
    } else {
      assert (lines + [line])[1..] == lines[1..] + [line];
      PlainTextSnoc(lines[1..], line);
    }
  }

  /** The copy of plain lines to the reply. */
  method CopyPlain(lines: seq<string>) returns (text: string)
    ensures text == PlainText(lines)
  {
    text := "";
    var i := 0;
    while i < |lines|
      invariant 0 <= i <= |lines| && text == PlainText(lines[..i])
    {
      PlainTextSnoc(lines[..i], lines[i]);
      assert lines[..i + 1] == lines[..i] + [lines[i]];
      text := text + lines[i] + CRLF;
      i := i + 1;
    }
    assert lines[..i] == lines;
  }

  /** The web reply for a path, in terms of the answers of the data server. */
  function ReplyTo(t: Table, param: string): RdbReply
    requires Named(t.rows)
  {
    var fields := FieldNames(Response(t, Command.Fields, "/fields"));
    var cmd := Interpret(param);
    if param == "/fields" then FieldList(fields)
    else if OutcomeOf(t, cmd).Thrown? then Failed
    else if OutcomeOf(t, cmd).ReadPastEnd? then PastRow
    else
      var lines := Tokens(Response(t, cmd, StripEol(param)), '\n');
      if "/get" <= param then
        var records := Records(fields, lines);
        if records.None? then Overrun else Reminders(records.value)
      else Text(PlainText(lines))
  }

  /** The accumulating loop over the values of one row. */
  method ReadRecord(fields: seq<string>, row: string) returns (record: Option<Record>)
    ensures record == Zip(fields, Tokens(row, ':'))
  {
    var values := Tokens(row, ':');
    var node: Record := [];
    var i := 0;
    AfterNothing(Zip(fields, values));
    assert fields[0..] == fields && values[0..] == values;
    while i < |values|
      invariant 0 <= i <= |values| && i <= |fields|
      invariant Zip(fields, values) == After(node, Zip(fields[i..], values[i..]))
    {
      assert fields[i..] == [] <==> i == |fields|;
      if i == |fields| {
        return None;
      }
      AfterCons(node, (fields[i], values[i]), Zip(fields[i + 1..], values[i + 1..]));
      assert fields[i..][1..] == fields[i + 1..] && values[i..][1..] == values[i + 1..];
      node := node + [(fields[i], values[i])];
      i := i + 1;
    }
    assert values[i..] == [] && node + [] == node;
    record := Some(node);
  }

  /** The accumulating loop over the lines. */
  method ReadRecords(fields: seq<string>, lines: seq<string>) returns (records: Option<seq<Record>>)
    ensures records == Records(fields, lines)
  {
    var children: seq<Record> := [];
    var i := 0;
    AfterNothing(Records(fields, lines));
    assert lines[0..] == lines;
    while i < |lines|
      invariant 0 <= i <= |lines|
      invariant Records(fields, lines) == After(children, Records(fields, lines[i..]))
    {
      assert lines[i..][1..] == lines[i + 1..];
      if lines[i] != "" {
        var record := ReadRecord(fields, lines[i]);
        if record.None? {
          return None;
        }
        AfterCons(children, record.value, Records(fields, lines[i + 1..]));
        children := children + [record.value];
      }
      i := i + 1;
    }
    assert lines[i..] == [] && children + [] == children;
    records := Some(children);
  }

  lemma FieldsCommand(args: seq<string>)
    requires args == ["fields"]
    ensures Dispatch(args) == Command.Fields
  {
  }

  lemma FieldsIsUnderstood()
    ensures StripEol("/fields") == "/fields" && Interpret("/fields") == Command.Fields
  {
    var word, raw := "fields", "/fields";
    OneWordOf(word, raw);
    FieldsCommand([word]);
  }

  /** The first request: the field list. */
  method FetchFields(session: Session, canOpen: bool) returns (fields: seq<string>)
    requires session.db.Valid()
    modifies session`response, session.db`entries, session.db`file, session.db.entries
    ensures session.db.Valid() && session.db.View() == old(session.db.View())
    ensures fields == FieldNames(Response(session.db.View(), Command.Fields, "/fields"))
    ensures session.db.entries == old(session.db.entries)
    ensures session.db.file == old(session.db.file)
  {
    FieldsIsUnderstood();
    var outcome := session.ParseRequest("/fields", canOpen);
    var fieldsCsv := ExecuteCmd(session.response);
    fields := Tokens(fieldsCsv[0], ':');
  }

  /** `rdb_handler::parse`: one or two requests to the data server, then decoding. Each request
      and each answer is assumed to arrive in one piece. */
  method Parse(param: string, session: Session, canOpen: bool) returns (reply: RdbReply)
    requires session.db.Valid()
    modifies session`response, session.db`entries, session.db`file, session.db.entries
    ensures session.db.Valid()
    ensures session.db.View() == if param == "/fields" then old(session.db.View())
                                 else Effect(old(session.db.View()), Interpret(param))
    ensures reply == ReplyTo(old(session.db.View()), param)
    ensures session.db.file == if Interpret(param).Commit? && canOpen then Saved(session.db.View())
                               else old(session.db.file)
  {
    var fields := [];
    if param == "/fields" || "/get" <= param {
      fields := FetchFields(session, canOpen);
    }
    if param == "/fields" {
      FieldsIsUnderstood();
      return FieldList(fields);
    }
    var outcome := session.ParseRequest(param, canOpen);
    if !outcome.Answered? {
      return if outcome.Thrown? then Failed else PastRow;
    }
    var result := ExecuteCmd(session.response);
    if "/get" <= param {
      var records := ReadRecords(fields, result);
      reply := if records.None? then Overrun else Reminders(records.value);
    } else {
      var text := CopyPlain(result);
      reply := Text(text);
    }
  }
}
