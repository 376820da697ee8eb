/** From the store through the data server, the client and `rdb_handler` to the web reply. */
module EndToEnd {
  import opened Text
  import opened Splitter
  import opened Store
  import opened Session
  import opened Commands
  import opened Persistence
  import opened RdbHandler
  import opened HttpReply

  /** The rows as the handler sees them, each re-split from its printed line. */
  function ReparsedRows(rows: seq<Row>): (rs: seq<Row>)
    ensures |rs| == |rows|
    ensures forall i | 0 <= i < |rows| :: rs[i] == Reparsed(rows[i])
  {
    if rows == [] then [] else [Reparsed(rows[0])] + ReparsedRows(rows[1..])
  }

  /** All rows paired with the field names. */
  function Paired(fields: seq<string>, rows: seq<Row>): Option<seq<Record>> {
    if rows == [] then Some([])
    else
      var record := Zip(fields, rows[0]);
      if record.None? then None else Cons(record.value, Paired(fields, rows[1..]))
  }

  /** `records` are exactly `rows`, value by value under its field name. */
  predicate IsPairing(records: seq<Record>, fields: seq<string>, rows: seq<Row>) {
    && |records| == |rows|
    && forall i | 0 <= i < |rows| :: IsRecordOf(records[i], fields, rows[i])
  }

  predicate IsRecordOf(record: Record, fields: seq<string>, row: Row) {
    && |record| == |row| <= |fields|
    && forall j | 0 <= j < |row| :: record[j] == (fields[j], row[j])
  }

  lemma {:induction false} ZipIsRecord(fields: seq<string>, row: Row)
    ensures Zip(fields, row).Some? <==> |row| <= |fields|
    ensures Zip(fields, row).Some? ==> IsRecordOf(Zip(fields, row).value, fields, row)
  {
    if row != [] && fields != [] {
      ZipIsRecord(fields[1..], row[1..]);
      if |row| <= |fields| {
        var r := Zip(fields, row).value;
        forall j | 0 <= j < |row| ensures r[j] == (fields[j], row[j]) {
          assert j > 0 ==> r[j] == Zip(fields[1..], row[1..]).value[j - 1];
        }
      }
    }
  }

  lemma {:induction false} PairedIsPairing(fields: seq<string>, rows: seq<Row>)
    ensures Paired(fields, rows).Some? <==> forall i | 0 <= i < |rows| :: |rows[i]| <= |fields|
    ensures Paired(fields, rows).Some? ==> IsPairing(Paired(fields, rows).value, fields, rows)
  {
    if rows != [] {
      ZipIsRecord(fields, rows[0]);
      PairedIsPairing(fields, rows[1..]);
      assert forall i | 1 <= i < |rows| :: rows[i] == rows[1..][i - 1];
      var p := Paired(fields, rows);
      if p.Some? {
        assert p.value[1..] == Paired(fields, rows[1..]).value;
        assert forall i | 1 <= i < |rows| :: p.value[i] == p.value[1..][i - 1];
      }
    }
  }

  /** The client recovers the listing, followed by the empty line of the terminator. */
  lemma LinesOfListing(t: Table, text: string)
    requires Clean(t)
    ensures Tokens(Response(t, GetAll, text), '\n') == Listing(t.rows) + [""]
  {
    var lines := Listing(t.rows) + [""];
    PrintSnoc(Listing(t.rows), "", '\n');
    assert Print(Listing(t.rows), '\n') + "" + ['\n'] == Print(Listing(t.rows), '\n') + "\n";
    forall i | 0 <= i < |lines| ensures '\n' !in lines[i] {
      if i < |t.rows| {
        PrintKeepsFree(t.rows[i], ':', '\n');
      }
    }
    TokensOfPrint(lines, '\n');
  }

  /** The field list survives printing, the terminator and both splits. */
  lemma FieldsOfAnswer(t: Table)
    requires Clean(t)
    ensures FieldNames(Response(t, Command.Fields, "/fields")) == t.fields
  {
    var line := Print(t.fields, ':');
    PrintKeepsFree(t.fields, ':', '\n');
    assert [line][1..] == [] && Print([line], '\n') == line + ['\n'] + "";
    TokensOfPrint([line], '\n');
    TokensOfPrint(t.fields, ':');
  }

  lemma {:induction false} RecordsOfListing(fields: seq<string>, rows: seq<Row>)
    requires Named(rows)
    ensures Records(fields, Listing(rows) + [""]) == Paired(fields, ReparsedRows(rows))
  {
    var lines := Listing(rows) + [""];
    if rows == [] {
      assert lines == [""] && lines[1..] == [];
    } else {
      assert lines[1..] == Listing(rows[1..]) + [""];
      assert lines[0] == Print(rows[0], ':');
      PrintIsNotEmpty(rows[0], ':');
      RecordsOfListing(fields, rows[1..]);
      assert ReparsedRows(rows)[1..] == ReparsedRows(rows[1..]);
    }
  }

  /** Every value under its field name: rows are no wider than the field list. */
  predicate Narrow(t: Table) {
    forall i | 0 <= i < |t.rows| :: |t.rows[i]| <= |t.fields|
  }

  /** The reply for given records. */
  function AsReply(records: Option<seq<Record>>): RdbReply {
    if records.None? then Overrun else Reminders(records.value)
  }

  /** The web reply to an answered `get` is its answer, split under the store's own fields. */
  lemma ReplySplitsAnswer(t: Table, param: string)
    requires Clean(t) && "/get" <= param && OutcomeOf(t, Interpret(param)).Answered?
    ensures ReplyTo(t, param)
         == AsReply(Records(t.fields, Tokens(Response(t, Interpret(param), StripEol(param)), '\n')))
  {
    FieldsOfAnswer(t);
    assert param[1] == 'g';
    assert param != "/fields";
  }

  /** The web reply to a listing request, for every clean store. */
  lemma ListingReply(t: Table, param: string)
    requires Clean(t) && "/get" <= param && Interpret(param).GetAll?
    ensures ReplyTo(t, param) == AsReply(Paired(t.fields, ReparsedRows(t.rows)))
  {
    ReplySplitsAnswer(t, param);
    LinesOfListing(t, StripEol(param));
    RecordsOfListing(t.fields, t.rows);
  }

  /** A record determines the row it pairs. */
  lemma SameRow(record: Record, fields: seq<string>, row: Row, other: Row)
    requires IsRecordOf(record, fields, row) && IsRecordOf(record, fields, other)
    ensures row == other
  {
    assert forall j | 0 <= j < |row| :: row[j] == record[j].1 && other[j] == record[j].1;
  }

  /** End-to-end fidelity, for every reachable store: the web reply to `/get` lists exactly
      the store's rows under their field names if and only if no value contains a colon and
      no row is wider than the field list. Empty stores and empty values are included. */
  lemma GetIsFaithful(contents: string, requests: seq<string>, param: string)
    requires "/get" <= param && Interpret(param).GetAll?
    ensures var t := Reached(contents, requests);
            var reply := ReplyTo(t, param);
            (reply.Reminders? && IsPairing(reply.records, t.fields, t.rows)) <==> (ColonFree(t) && Narrow(t))
  {
    ReachedIsClean(contents, requests);
    var t := Reached(contents, requests);
    var reply := ReplyTo(t, param);
    ListingReply(t, param);
    PairedIsPairing(t.fields, ReparsedRows(t.rows));
    forall i | 0 <= i < |t.rows| ensures Reparsed(t.rows[i]) == t.rows[i] <==> Free(t.rows[i], ':') {
      ReparsedRow(t.rows[i]);
    }
    if ColonFree(t) && Narrow(t) {
      assert ReparsedRows(t.rows) == t.rows;
    }
    if reply.Reminders? && IsPairing(reply.records, t.fields, t.rows) {
      forall i | 0 <= i < |t.rows| ensures Free(t.rows[i], ':') && |t.rows[i]| <= |t.fields| {
        assert IsRecordOf(reply.records[i], t.fields, ReparsedRows(t.rows)[i]);
        assert IsRecordOf(reply.records[i], t.fields, t.rows[i]);
        SameRow(reply.records[i], t.fields, t.rows[i], Reparsed(t.rows[i]));
      }
    }
  }

  /** The plain path asks for the listing. */
  lemma GetAsksForListing()
    ensures Interpret("/get").GetAll?
  {
    OneWordOf("get", "/get");
  }

  // ---------- from the requests ----------

  /** A whole-row `set` supplies no more values than there are fields. */
  predicate Fitting(fields: seq<string>, cmd: Command) {
    cmd.SetRow? ==> |Tokens(cmd.csv, ':')| <= |fields|
  }

  lemma {:induction false} NarrowRun(t: Table, requests: seq<string>)
    requires Named(t.rows) && Narrow(t)
    requires forall r | r in requests :: Fitting(t.fields, Interpret(r))
    ensures Narrow(Execute(t, requests))
    decreases |requests|
  {
    if requests != [] {
      assert requests[0] in requests;
      var t1 := Effect(t, Interpret(requests[0]));
      assert Narrow(t1) && t1.fields == t.fields;
      NarrowRun(t1, requests[1..]);
    }
  }

  /** If the file and every row set afterwards have no more values than fields, and no
      four-part `set` sends a colon, every listing is faithful. */
  lemma FaithfulRequests(contents: string, requests: seq<string>, param: string)
    requires "/get" <= param && Interpret(param).GetAll?
    requires Narrow(Read(EMPTY, contents))
    requires forall r | r in requests :: Fitting(Read(EMPTY, contents).fields, Interpret(r))
    requires forall r | r in requests :: Interpret(r).SetField? ==> ':' !in Interpret(r).value
    ensures var t := Reached(contents, requests);
            var reply := ReplyTo(t, param);
            reply.Reminders? && IsPairing(reply.records, t.fields, t.rows)
  {
    ReachedIsColonFree(contents, requests);
    NarrowRun(Read(EMPTY, contents), requests);
    GetIsFaithful(contents, requests, param);
  }

  // ---------- through handle_request ----------

  /** The provider of a site speaks for the store `t` about `path`: `parse` fails if the data
      server drops the connection, and otherwise `getResponse` is the reply as JSON text.
      Nothing is said of a reply that would take reading past the end of something. */
  predicate SpeaksFor(site: Site, t: Table, path: string, json: RdbReply -> string)
    requires Named(t.rows) && |path| >= 4
  {
    var reply := ReplyTo(t, path[4..]);
    || reply.PastRow? || reply.Overrun?
    || site.provider(path) == if reply.Failed? then None else Some(Body(reply, json))
  }

  /** Plain text as it is, everything else as JSON text. */
  function Body(reply: RdbReply, json: RdbReply -> string): string {
    if reply.Text? then reply.text else json(reply)
  }

  /** The web request for a listing, from its URI to its reply, for every reachable store: the
      body is the JSON text of a reply that lists exactly the store's rows under their field
      names if and only if no value contains a colon and no row is too wide. */
  lemma WebGetIsFaithful(
      contents: string, requests: seq<string>, site: Site, uri: string, path: string, json: RdbReply -> string,
      given: Reply)
    requires RequestPath(site, uri) == Some(path) && "/rdb/" <= path && site.isValidCall(path)
    requires "/get" <= path[4..] && Interpret(path[4..]).GetAll?
    requires SpeaksFor(site, Reached(contents, requests), path, json)
    ensures var t := Reached(contents, requests);
            var reply := ReplyTo(t, path[4..]);
            var rep := Handled(site, uri, given);
            && (reply.Overrun? || (rep.status == Ok && rep.content == given.content + json(reply)))
            && ((reply.Reminders? && IsPairing(reply.records, t.fields, t.rows)) <==> (ColonFree(t) && Narrow(t)))
  {
    ReachedIsClean(contents, requests);
    ListingReply(Reached(contents, requests), path[4..]);
    GetIsFaithful(contents, requests, path[4..]);
  }

  /** The path `/rdb/get` is such a request. */
  lemma RdbGetAsksForListing()
    ensures "/rdb/" <= "/rdb/get" && "/rdb/get"[4..] == "/get" && Interpret("/rdb/get"[4..]).GetAll?
  {
    GetAsksForListing();
    assert "/rdb/get"[4..] == "/get";
  }

  // ---------- the field list, and commands over the web ----------

  /** The web reply to `/fields` is the store's field list, for every clean store. */
  lemma FieldsReply(t: Table)
    requires Clean(t)
    ensures ReplyTo(t, "/fields") == FieldList(t.fields)
  {
    FieldsOfAnswer(t);
  }

  /** From the URI to the HTTP reply. */
  lemma WebFieldsIsFaithful(t: Table, site: Site, uri: string, path: string, json: RdbReply -> string, given: Reply)
    requires Clean(t) && RequestPath(site, uri) == Some(path) && "/rdb/" <= path && site.isValidCall(path)
    requires path[4..] == "/fields" && SpeaksFor(site, t, path, json)
    ensures Handled(site, uri, given).status == Ok
    ensures Handled(site, uri, given).content == given.content + json(FieldList(t.fields))
  {
    FieldsReply(t);
  }

  /** A text with `\r\n` for every newline. */
  function WithCrlf(s: string): string {
    if s == "" then ""
    else if s[0] == '\n' then CRLF + WithCrlf(s[1..])
    else [s[0]] + WithCrlf(s[1..])
  }

  lemma {:induction false} WithCrlfConcat(a: string, b: string)
    ensures WithCrlf(a + b) == WithCrlf(a) + WithCrlf(b)
  {
    if a == "" {
      assert a + b == b;
    } else {
      assert (a + b)[1..] == a[1..] + b;
      WithCrlfConcat(a[1..], b);
      Assoc(WithCrlf([a[0]]), WithCrlf(a[1..]), WithCrlf(b));
      assert [a[0]][1..] == "" && CRLF + "" == CRLF;
    }
  }

  lemma {:induction false} WithCrlfOfLine(line: string)
    requires '\n' !in line
    ensures WithCrlf(line) == line
  {
    if line != "" {
      WithCrlfOfLine(line[1..]);
      assert [line[0]] + line[1..] == line;
    }
  }

  lemma {:induction false} PlainIsWithCrlf(lines: seq<string>)
    requires Free(lines, '\n')
    ensures PlainText(lines) == WithCrlf(Print(lines, '\n'))
  {
    if lines != [] {
      PlainIsWithCrlf(lines[1..]);
      WithCrlfConcat(lines[0] + ['\n'], Print(lines[1..], '\n'));
      WithCrlfConcat(lines[0], ['\n']);
      WithCrlfOfLine(lines[0]);
      assert ['\n'][1..] == "" && WithCrlf(['\n']) == CRLF + "" == CRLF;
    }
  }

  /** The web reply to any other answered path is the data server's answer, byte for byte but
      for the line ends. */
  lemma CommandReply(t: Table, param: string)
    requires Named(t.rows) && OutcomeOf(t, Interpret(param)).Answered? && !("/get" <= param) && param != "/fields"
    ensures ReplyTo(t, param) == Text(WithCrlf(Response(t, Interpret(param), StripEol(param))))
  {
    var answer := Response(t, Interpret(param), StripEol(param));
    assert EndsWith(answer, '\n');
    PrintOfTokens(answer, '\n');
    PlainIsWithCrlf(Tokens(answer, '\n'));
  }

  /** From the URI to the HTTP reply. */
  lemma WebCommandIsAnswered(t: Table, site: Site, uri: string, path: string, json: RdbReply -> string, given: Reply)
    requires Named(t.rows) && RequestPath(site, uri) == Some(path) && "/rdb/" <= path && site.isValidCall(path)
    requires OutcomeOf(t, Interpret(path[4..])).Answered? && !("/get" <= path[4..]) && path[4..] != "/fields"
    requires SpeaksFor(site, t, path, json)
    ensures Handled(site, uri, given).status == Ok
    ensures Handled(site, uri, given).content
         == given.content + WithCrlf(Response(t, Interpret(path[4..]), StripEol(path[4..])))
  {
    CommandReply(t, path[4..]);
  }
}
