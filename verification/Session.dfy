/** The command protocol of the data server (Server/src/session.cpp). */
module Session {
  import opened Text
  import opened Splitter
  import opened Store

  /** `copy_if` that drops carriage returns and newlines. */
  function StripEol(raw: string): (cmd: string)
    ensures '\r' !in cmd && '\n' !in cmd
  {
    if raw == "" then ""
    else if raw[0] == '\r' || raw[0] == '\n' then StripEol(raw[1..])
    else [raw[0]] + StripEol(raw[1..])
  }

  /** The tokens between slashes; a leading slash adds no empty one. */
  function Arguments(cmd: string): seq<string> {
    var ts := Tokens(cmd, '/');
    if ts[0] == "" then ts[1..] else ts
  }

  datatype Command =
    | Invalid                                                  // an empty line or a single slash
    | GetAll
    | GetOne(name: string, field: string)
    | SetRow(csv: string)
    | SetField(name: string, field: string, value: string)
    | SetArity                                                 // `set` with another number of arguments
    | Delete(name: string)
    | DeleteNothing                                            // `delete` without an argument
    | Fields
    | Commit
    | Unknown

  function Dispatch(args: seq<string>): Command {
    if args == [] then Invalid
    else if args[0] == "get" then
      if |args| < 2 then GetAll else GetOne(args[1], if |args| > 2 then args[2] else "")
    else if args[0] == "set" then
      if |args| == 2 then SetRow(args[1])
      else if |args| == 4 then SetField(args[1], args[2], args[3])
      else SetArity
    else if args[0] == "delete" then
      if |args| < 2 then DeleteNothing else Delete(args[1])
    else if args[0] == "fields" then Fields
    else if args[0] == "commit" then Commit
    else Unknown
  }

  function Interpret(raw: string): Command {
    Dispatch(Arguments(StripEol(raw)))
  }

  /** The name of a whole row: the text before its first colon. */
  function NameOf(csv: string): string {
    csv[..Find(csv, ':')]
  }

  /** The store after a command. */
  function Effect(t: Table, cmd: Command): (t': Table)
    requires Named(t.rows)
    ensures Named(t'.rows)
  {
    match cmd
    case SetRow(csv) => Store.SetRow(t, NameOf(csv), csv)
    case SetField(name, field, value) => Store.SetField(t, name, field, value)
    case Delete(name) => Erase(t, name)
    case _ => t
  }

  /** The store after a whole session, starting from `t`. */
  function Execute(t: Table, requests: seq<string>): (t': Table)
    requires Named(t.rows)
    ensures Named(t'.rows)
    decreases |requests|
  {
    if requests == [] then t else Execute(Effect(t, Interpret(requests[0])), requests[1..])
  }

  /** How a command ends: with an answer, with the exception of `at(1)`, or by reading past
      the end of a row. */
  datatype Outcome = Answered | Thrown | ReadPastEnd

  function OutcomeOf(t: Table, cmd: Command): Outcome
    requires Named(t.rows)
  {
    match cmd
    case DeleteNothing => Thrown
    case GetOne(name, field) => if Get(t, name, field).PastEnd? then ReadPastEnd else Answered
    case _ => Answered
  }

  /** A text copied through `const char *`. */
  function CString(s: string): string {
    s[..Find(s, '\0')]
  }

  /** Copying leaves a text without NUL alone. */
  lemma CStringOfText(s: string)
    requires '\0' !in s
    ensures CString(s) == s
  {
    FindAt(s, '\0', "");
    assert s[..|s|] == s;
  }

  const SUCCESS := "SUCCESS\n"
  const INVALID := "ERROR: Not valid query: "
  const NOT_FOUND := "ERROR: Not found: "
  const UNRECOGNIZED := "ERROR: Unrecognized command: "
  const SET_ROW_FAILED := "Filed to set Entry: "
  const SET_FIELD_FAILED := "Failed to set value: "
  const SET_ARITY := "ERROR: set requires either 2 or 4 parameters"
  const DELETE_FAILED := "ERROR: Failed to delete "
  const COMMIT_FAILED := "Failed to preserve DB: "

  lemma ArityIsText()
    ensures '\0' !in SET_ARITY
  {
  }

  /** The bytes of an answer, with the newline that `do_write` adds. */
  function Response(t: Table, cmd: Command, text: string): string
    requires Named(t.rows) && OutcomeOf(t, cmd).Answered?
  {
    (match cmd
     case Invalid => INVALID + text
     case GetAll => Print(Listing(t.rows), '\n')
     case GetOne(name, field) =>
       var found := Get(t, name, field).text;
       if found == "" then NOT_FOUND + text else found
     case SetRow(_) => SET_ROW_FAILED
     case SetField(name, field, _) => if CanSetField(t, name, field) then SUCCESS else SET_FIELD_FAILED
     case SetArity => SET_ARITY + "\n"
     case Delete(name) =>
       if FindName(t.rows, name) < |t.rows| then SUCCESS else CString(DELETE_FAILED + name + "; ") + "\n"
     case Fields => Print(t.fields, ':')
     case Commit => COMMIT_FAILED
     case _ => UNRECOGNIZED + text)
    + "\n"
  }

  class Session {
    const db: DBTextFile
    var response: string

    constructor (db: DBTextFile)
      ensures this.db == db && response == ""
    {
      this.db := db;
      response := "";
    }

    method CopyFiltered(request: string) returns (cmd: string)
      ensures cmd == StripEol(request)
    {
      cmd := "";
      var i := 0;
      assert request[0..] == request;
      while i < |request|
        invariant 0 <= i <= |request|
        invariant cmd + StripEol(request[i..]) == StripEol(request)
      {
        assert request[i..][1..] == request[i + 1..];
        var ch := request[i];
        if ch != '\r' && ch != '\n' {
          Assoc(cmd, [ch], StripEol(request[i + 1..]));
          cmd := cmd + [ch];
        }
        i := i + 1;
      }
      assert cmd + "" == cmd;
    }

    /** `buildError` */
    method BuildError(message: string)
      modifies this`response
      ensures response == old(response) + (CString(message) + "\n")
      ensures old(response) == "" ==> response == CString(message) + "\n"
    {
      Assoc(response, CString(message), "\n");
      response := response + CString(message);
      response := response + "\n";
    }

    method DoWrite()
      modifies this`response
      ensures response == old(response) + "\n"
    {
      response := response + "\n";
    }

    /** All lines, each followed by a newline. */
    method CopyLines(lines: seq<string>)
      modifies this`response
      ensures response == old(response) + Print(lines, '\n')
    {
      var i := 0;
      while i < |lines|
        invariant 0 <= i <= |lines|
        invariant response == old(response) + Print(lines[..i], '\n')
      {
        PrintSnoc(lines[..i], lines[i], '\n');
        assert lines[..i + 1] == lines[..i] + [lines[i]];
        response := response + lines[i];
        response := response + "\n";
        i := i + 1;
      }
      assert lines[..i] == lines;
    }

    /** The `get` branch. */
    method AnswerGet(cmd: string, args: seq<string>) returns (outcome: Outcome)
      requires db.Valid() && args != [] && args[0] == "get" && response == ""
      modifies this`response
      ensures outcome == OutcomeOf(db.View(), Dispatch(args))
      ensures outcome.Answered? ==> response + "\n" == Response(db.View(), Dispatch(args), cmd)
    {
      outcome := Answered;
      if |args| < 2 {
        var lines := db.GetAll();
        CopyLines(lines);
        assert "" + Print(lines, '\n') == Print(lines, '\n');
      } else {
        var r := db.GetOne(args[1], if |args| > 2 then args[2] else "");
        if r.PastEnd? {
          return ReadPastEnd;
        }
        response := if r.text == "" then NOT_FOUND + cmd else r.text;
      }
    }

    /** `buildError` with a text that contains no NUL. */
    method BuildText(message: string)
      requires response == "" && '\0' !in message
      modifies this`response
      ensures response == message + "\n"
    {
      CStringOfText(message);
      BuildError(message);
    }

    method BuildSuccess()
      requires response == ""
      modifies this`response
      ensures response == SUCCESS
    {
      BuildText("SUCCESS");
      assert SUCCESS == "SUCCESS" + "\n";
    }

    /** The `set` branch with two arguments. */
    method AnswerSetRow(csv: string)
      requires db.Valid() && response == ""
      modifies this`response, db`entries, db.entries
      ensures db.Valid()
      ensures db.View() == Effect(old(db.View()), Command.SetRow(csv))
      ensures response + "\n" == Response(old(db.View()), Command.SetRow(csv), "")
      ensures forall e | e in db.entries :: e in old(db.entries) || fresh(e)
    {
      var ok := db.SetCsv(NameOf(csv), csv);
      response := if ok then SET_ROW_FAILED else SUCCESS;
    }

    /** The `set` branch with four arguments. */
    method AnswerSetField(name: string, field: string, value: string)
      requires db.Valid() && response == ""
      modifies this`response, db.entries
      ensures db.Valid()
      ensures db.View() == Effect(old(db.View()), Command.SetField(name, field, value))
      ensures response + "\n" == Response(old(db.View()), Command.SetField(name, field, value), "")
      ensures forall e | e in db.entries :: e in old(db.entries) || fresh(e)
    {
      var ok := db.SetOne(name, field, value);
      if ok {
        BuildSuccess();
      } else {
        response := SET_FIELD_FAILED;
      }
    }

    /** The `set` branch with another number of arguments. */
    method AnswerSetArity()
      requires db.Valid() && response == ""
      modifies this`response
      ensures response + "\n" == Response(db.View(), SetArity, "")
    {
      ArityIsText();
      BuildText(SET_ARITY);
    }

    /** The `delete` branch. */
    method AnswerDelete(name: string)
      requires db.Valid() && response == ""
      modifies this`response, db`entries
      ensures db.Valid()
      ensures db.View() == Effect(old(db.View()), Delete(name))
      ensures response + "\n" == Response(old(db.View()), Delete(name), "")
      ensures forall e | e in db.entries :: e in old(db.entries) || fresh(e)
    {
      var ok := db.EraseEntry(name);
      if ok {
        BuildSuccess();
      } else {
        var message := DELETE_FAILED + name + "; ";
        BuildError(message);
      }
    }

    /** The branches that only read the store, and the unknown commands. */
    method AnswerOther(cmd: string, args: seq<string>, canOpen: bool)
      requires db.Valid() && args != [] && args[0] !in ["get", "set", "delete"]
      modifies this`response, db`file
      ensures response + "\n" == Response(db.View(), Dispatch(args), cmd)
      ensures db.Valid() && db.View() == old(db.View()) && !Dispatch(args).SetRow?
      ensures db.file == if Dispatch(args).Commit? && canOpen then Saved(db.View()) else old(db.file)
    {
      ghost var t := db.View();
      if args[0] == "fields" {
        response := db.Fields();
      } else if args[0] == "commit" {
        var ok := db.SaveFile(canOpen);
        assert db.View().rows == t.rows;
        response := if ok then SUCCESS else COMMIT_FAILED;
      } else {
        response := UNRECOGNIZED + cmd;
      }
    }

    /** The `set` branch. */
    method AnswerSet(args: seq<string>)
      requires db.Valid() && args != [] && args[0] == "set" && response == ""
      modifies this`response, db`entries, db.entries
      ensures db.Valid()
      ensures db.View() == Effect(old(db.View()), Dispatch(args))
      ensures response + "\n" == Response(old(db.View()), Dispatch(args), "")
      ensures forall e | e in db.entries :: e in old(db.entries) || fresh(e)
      ensures Dispatch(args).SetRow? || db.entries == old(db.entries)
    {
      if |args| == 2 {
        AnswerSetRow(args[1]);
      } else if |args| == 4 {
        AnswerSetField(args[1], args[2], args[3]);
      } else {
        AnswerSetArity();
      }
    }

    /** The branch taken for the first argument, or without any. */
    method Answer(cmd: string, args: seq<string>, canOpen: bool) returns (outcome: Outcome)
      requires db.Valid() && response == ""
      modifies this`response, db`entries, db`file, db.entries
      ensures db.Valid()
      ensures db.View() == Effect(old(db.View()), Dispatch(args))
      ensures outcome == OutcomeOf(old(db.View()), Dispatch(args))
      ensures outcome.Answered? ==> response + "\n" == Response(old(db.View()), Dispatch(args), cmd)
      ensures db.file == if Dispatch(args).Commit? && canOpen then Saved(db.View()) else old(db.file)
      ensures forall e | e in db.entries :: e in old(db.entries) || fresh(e)
      ensures Dispatch(args).SetRow? || Dispatch(args).Delete? || db.entries == old(db.entries)
    {
      outcome := Answered;
      if args == [] {
        response := INVALID + cmd;
      } else if args[0] == "get" {
        outcome := AnswerGet(cmd, args);
      } else if args[0] == "set" {
        AnswerSet(args);
      } else if args[0] == "delete" {
        if |args| < 2 {
          return Thrown;
        }
        AnswerDelete(args[1]);
      } else {
        AnswerOther(cmd, args, canOpen);
      }
    }

    /** One request: `request` holds the bytes read, `canOpen` says whether `save` can open
        its file. */
    method ParseRequest(request: string, canOpen: bool) returns (outcome: Outcome)
      requires db.Valid()
      modifies this`response, db`entries, db`file, db.entries
      ensures db.Valid()
      ensures db.View() == Effect(old(db.View()), Interpret(request))
      ensures outcome == OutcomeOf(old(db.View()), Interpret(request))
      ensures outcome.Answered? ==>
                response == Response(old(db.View()), Interpret(request), StripEol(request))
      ensures db.file == if Interpret(request).Commit? && canOpen then Saved(db.View()) else old(db.file)
      ensures forall e | e in db.entries :: e in old(db.entries) || fresh(e)
      ensures Interpret(request).SetRow? || Interpret(request).Delete? || db.entries == old(db.entries)
    {
      var cmd, args := ReadArguments(request);
      assert Interpret(request) == Dispatch(args);
      ghost var before := db.View();
      response := "";
      assert db.View() == before;
      outcome := Answer(cmd, args, canOpen);
      ghost var after := db.View();
      if outcome.Answered? {
        DoWrite();
        assert db.View() == after;
      }
    }

    /** The filtered line and its tokens, without the empty one before a leading slash. */
    method ReadArguments(request: string) returns (cmd: string, args: seq<string>)
      ensures cmd == StripEol(request) && args == Arguments(cmd)
    {
      cmd := CopyFiltered(request);
      args := Tokens(cmd, '/');
      if args[0] == "" {
        args := args[1..];
      }
    }
  }
}
