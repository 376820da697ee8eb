/** The command protocol as its clients know it: which line is which command, what each
    command changes, and the bytes of its answer. */
module Protocol {
  import opened Text
  import opened Splitter
  import opened Store
  import opened Session
  import opened Commands
  import opened Persistence

  // ---------- lines ----------

  /** Every command, by the arguments of its line. */
  lemma CommandsByArguments(args: seq<string>)
    ensures Dispatch(args).Invalid? <==> args == []
    ensures Dispatch(args).GetAll? <==> args == ["get"]
    ensures Dispatch(args).GetOne? <==> |args| > 1 && args[0] == "get"
    ensures Dispatch(args).GetOne? ==> Dispatch(args).name == args[1]
    ensures Dispatch(args).GetOne? ==> Dispatch(args).field == if |args| > 2 then args[2] else ""
    ensures Dispatch(args).Fields? <==> args != [] && args[0] == "fields"
    ensures Dispatch(args).Commit? <==> args != [] && args[0] == "commit"
    ensures Dispatch(args).Unknown? <==>
              args != [] && args[0] != "get" && args[0] != "set" && args[0] != "delete"
              && args[0] != "fields" && args[0] != "commit"
  {
  }

  /** The commands that change the store, by the arguments of their lines. */
  lemma ChangesByArguments(args: seq<string>)
    ensures Dispatch(args).SetRow? <==> |args| == 2 && args[0] == "set"
    ensures Dispatch(args).SetRow? ==> Dispatch(args).csv == args[1]
    ensures Dispatch(args).SetField? <==> |args| == 4 && args[0] == "set"
    ensures Dispatch(args).SetField? ==> Dispatch(args) == Command.SetField(args[1], args[2], args[3])
    ensures Dispatch(args).SetArity? <==> args != [] && args[0] == "set" && |args| != 2 && |args| != 4
    ensures Dispatch(args).Delete? <==> |args| > 1 && args[0] == "delete"
    ensures Dispatch(args).Delete? ==> Dispatch(args).name == args[1]
    ensures Dispatch(args).DeleteNothing? <==> args == ["delete"]
  {
  }

  /** The arguments of a line of words, wherever line ends were inserted. */
  lemma LineOfWords(words: seq<string>, raw: string)
    requires words != [] && Free(words, '/') && Last(words) != ""
    requires HasEolsInserted(raw, "/" + Join(words, '/'))
    ensures Interpret(raw) == Dispatch(words)
  {
    ArgumentsRoundTrip(words, raw);
  }

  lemma CommitIsUnderstood(raw: string)
    requires HasEolsInserted(raw, "/commit")
    ensures Interpret(raw) == Commit
  {
    assert "/commit" == "/" + Join(["commit"], '/');
    LineOfWords(["commit"], raw);
    CommandsByArguments(["commit"]);
  }

  lemma JoinVerb(verb: string, arg: string, prefix: string)
    requires prefix == "/" + (verb + "/")
    ensures prefix + arg == "/" + Join([verb, arg], '/')
  {
    assert [verb, arg][1..] == [arg];
  }

  lemma DeleteIsUnderstood(name: string, raw: string)
    requires name != "" && '/' !in name && HasEolsInserted(raw, "/delete/" + name)
    ensures Interpret(raw) == Delete(name)
  {
    JoinVerb("delete", name, "/delete/");
    LineOfWords(["delete", name], raw);
    ChangesByArguments(["delete", name]);
  }

  lemma SetRowIsUnderstood(csv: string, raw: string)
    requires csv != "" && '/' !in csv && HasEolsInserted(raw, "/set/" + csv)
    ensures Interpret(raw) == Command.SetRow(csv)
  {
    JoinVerb("set", csv, "/set/");
    LineOfWords(["set", csv], raw);
    ChangesByArguments(["set", csv]);
  }

  lemma GetIsUnderstood(name: string, raw: string)
    requires name != "" && '/' !in name && HasEolsInserted(raw, "/get/" + name)
    ensures Interpret(raw) == GetOne(name, "")
  {
    JoinVerb("get", name, "/get/");
    LineOfWords(["get", name], raw);
    CommandsByArguments(["get", name]);
  }

  lemma GetFieldIsUnderstood(name: string, field: string, raw: string)
    requires field != "" && Free(["get", name, field], '/')
    requires HasEolsInserted(raw, "/" + Join(["get", name, field], '/'))
    ensures Interpret(raw) == GetOne(name, field)
  {
    LineOfWords(["get", name, field], raw);
    CommandsByArguments(["get", name, field]);
  }

  // ---------- answers ----------

  /** A whole-row `set`: the row is stored under its name, in place of the first row of that
      name or at the end, and the answer is the failure text. */
  lemma SetRowAnswer(t: Table, csv: string, text: string)
    requires Named(t.rows)
    ensures var t' := Effect(t, Command.SetRow(csv));
            && Response(t, Command.SetRow(csv), text) == "Filed to set Entry: " + "\n"
            && Get(t', NameOf(csv), "") == Found(if EndsWith(csv, ':') then csv else csv + ":")
            && |t.rows| <= |t'.rows| <= |t.rows| + 1
            && forall i | 0 <= i < |t.rows| && t.rows[i][0] != NameOf(csv) :: t'.rows[i] == t.rows[i]
  {
    var row, k := Tokens(csv, ':'), FindName(t.rows, NameOf(csv));
    var rows := Effect(t, Command.SetRow(csv)).rows;
    FirstToken(csv, ':');
    PrintOfTokens(csv, ':');
    assert rows[k] == row;
    FirstName(rows, NameOf(csv), k);
  }

  /** The place a four-part `set` writes to. */
  predicate HasPlace(t: Table, name: string, field: string, k: nat, j: nat)
    requires Named(t.rows)
  {
    && k < |t.rows| && t.rows[k][0] == name && (forall i | 0 <= i < k :: t.rows[i][0] != name)
    && j < |t.fields| && j < |t.rows[k]| && t.fields[j] == field && (forall i | 0 <= i < j :: t.fields[i] != field)
  }

  /** A four-part `set` with a place: "SUCCESS", that value is stored and nothing else moves. */
  lemma SetFieldSucceeds(t: Table, name: string, field: string, value: string, text: string, k: nat, j: nat)
    requires Named(t.rows) && HasPlace(t, name, field, k, j)
    ensures var t' := Effect(t, Command.SetField(name, field, value));
            && Response(t, Command.SetField(name, field, value), text) == "SUCCESS\n" + "\n"
            && t'.fields == t.fields && |t'.rows| == |t.rows| && |t'.rows[k]| == |t.rows[k]|
            && t'.rows[k][j] == value
            && (forall i | 0 <= i < |t.rows[k]| && i != j :: t'.rows[k][i] == t.rows[k][i])
            && (forall i | 0 <= i < |t.rows| && i != k :: t'.rows[i] == t.rows[i])
  {
    FirstName(t.rows, name, k);
    assert FindField(t.fields, field) == j;
  }

  /** Without one: the failure text, and nothing changes. */
  lemma SetFieldFails(t: Table, name: string, field: string, value: string, text: string)
    requires Named(t.rows) && forall k: nat, j: nat :: !HasPlace(t, name, field, k, j)
    ensures Effect(t, Command.SetField(name, field, value)) == t
    ensures Response(t, Command.SetField(name, field, value), text) == "Failed to set value: " + "\n"
  {
    assert !HasPlace(t, name, field, FindName(t.rows, name), FindField(t.fields, field));
  }

  /** A value that was set is what the next `get` answers. */
  lemma SetThenGet(t: Table, name: string, field: string, value: string, text: string, k: nat, j: nat)
    requires Named(t.rows) && HasPlace(t, name, field, k, j) && (j == 0 ==> value == name)
    requires field != "" && value != ""
    ensures var t' := Effect(t, Command.SetField(name, field, value));
            OutcomeOf(t', GetOne(name, field)).Answered? && Response(t', GetOne(name, field), text) == value + "\n"
  {
    SetFieldSucceeds(t, name, field, value, text, k, j);
    var t' := Effect(t, Command.SetField(name, field, value));
    FirstName(t'.rows, name, k);
    assert FindField(t'.fields, field) == j;
  }

  /** `delete` of a name that is there: "SUCCESS", and the first row of that name is gone. */
  lemma DeleteSucceeds(t: Table, name: string, text: string, k: nat)
    requires Named(t.rows) && k < |t.rows| && t.rows[k][0] == name && forall i | 0 <= i < k :: t.rows[i][0] != name
    ensures var t' := Effect(t, Delete(name));
            && Response(t, Delete(name), text) == "SUCCESS\n" + "\n"
            && t'.fields == t.fields && |t'.rows| == |t.rows| - 1
            && forall i | 0 <= i < |t'.rows| :: t'.rows[i] == t.rows[if i < k then i else i + 1]
  {
    FirstName(t.rows, name, k);
  }

  /** A text with a NUL is cut there. */
  lemma CStringCut(a: string, b: string)
    requires '\0' !in a
    ensures CString(a + ['\0'] + b) == a
  {
    FindAt(a, '\0', b);
    assert (a + ['\0'] + b)[..|a|] == a;
  }

  /** Of a name that is not: the failure text with the name ... */
  lemma DeleteFails(t: Table, name: string, text: string)
    requires Named(t.rows) && forall i | 0 <= i < |t.rows| :: t.rows[i][0] != name
    ensures Effect(t, Delete(name)) == t
    ensures Response(t, Delete(name), text) == CString(DELETE_FAILED + name + "; ") + "\n" + "\n"
  {
    FirstName(t.rows, name, |t.rows|);
  }

  /** ... all of it, or as far as its first NUL. */
  lemma FailureText(prefix: string, name: string)
    requires prefix == "ERROR: Failed to delete "
    ensures prefix == DELETE_FAILED && '\0' !in prefix
    ensures '\0' !in name ==> CString(prefix + name + "; ") == prefix + name + "; "
  {
    if '\0' !in name {
      CStringOfText(prefix + name + "; ");
    }
  }

  lemma FailureTextCut(prefix: string, a: string, b: string)
    requires '\0' !in prefix && '\0' !in a
    ensures CString(prefix + (a + ['\0'] + b) + "; ") == prefix + a
  {
    assert prefix + (a + ['\0'] + b) + "; " == (prefix + a) + ['\0'] + (b + "; ");
    CStringCut(prefix + a, b + "; ");
  }

  /** Lookups: the row, the value, or the error text with the command line. */
  lemma GetAnswer(t: Table, name: string, field: string, text: string)
    requires Named(t.rows) && OutcomeOf(t, GetOne(name, field)).Answered?
    ensures var answer := Response(t, GetOne(name, field), text);
            && (FindName(t.rows, name) == |t.rows| ==> answer == "ERROR: Not found: " + text + "\n")
            && (forall k: nat, j: nat | HasPlace(t, name, field, k, j) && field != "" ::
                  answer == (if t.rows[k][j] == "" then "ERROR: Not found: " + text else t.rows[k][j]) + "\n")
            && (forall k: nat | k < |t.rows| && k == FindName(t.rows, name) && field == "" ::
                  answer == Print(t.rows[k], ':') + "\n")
  {
    var answer := Response(t, GetOne(name, field), text);
    forall k: nat, j: nat | HasPlace(t, name, field, k, j) && field != ""
      ensures answer == (if t.rows[k][j] == "" then "ERROR: Not found: " + text else t.rows[k][j]) + "\n"
    {
      FirstName(t.rows, name, k);
      assert FindField(t.fields, field) == j;
    }
    if FindName(t.rows, name) < |t.rows| {
      PrintIsNotEmpty(t.rows[FindName(t.rows, name)], ':');
    }
  }

  /** The other commands change nothing. */
  lemma OtherAnswers(t: Table, text: string)
    requires Named(t.rows)
    ensures Response(t, Command.Fields, text) == Print(t.fields, ':') + "\n"
    ensures Response(t, Commit, text) == "Failed to preserve DB: " + "\n"
    ensures Response(t, SetArity, text) == "ERROR: set requires either 2 or 4 parameters" + "\n" + "\n"
    ensures Response(t, Unknown, text) == "ERROR: Unrecognized command: " + text + "\n"
    ensures Response(t, Invalid, text) == "ERROR: Not valid query: " + text + "\n"
    ensures Effect(t, Command.Fields) == Effect(t, Commit) == Effect(t, SetArity) == t
    ensures Effect(t, Unknown) == Effect(t, Invalid) == t
  {
  }

  // ---------- commit ----------

  /** `commit`, with line ends anywhere, on a clean store: the file that `ParseRequest` leaves
      behind restores fields and listing, and the store if no value has a colon. */
  lemma CommitPersists(t: Table, raw: string)
    requires Clean(t) && HasEolsInserted(raw, "/commit")
    ensures Interpret(raw) == Commit && Effect(t, Interpret(raw)) == t
    ensures var t' := Read(EMPTY, Saved(t));
            t'.fields == t.fields && Listing(t'.rows) == Listing(t.rows) && (ColonFree(t) ==> t' == t)
  {
    CommitIsUnderstood(raw);
    ReadOfSaved(t);
    forall i | 0 <= i < |t.rows| ensures Print(Reparsed(t.rows[i]), ':') == Print(t.rows[i], ':')
                                 ensures Free(t.rows[i], ':') ==> Reparsed(t.rows[i]) == t.rows[i] {
      ReparsedRow(t.rows[i]);
    }
    if ColonFree(t) {
      assert Read(EMPTY, Saved(t)).rows == t.rows;
    }
  }

  /** A session that is sent `commit` while its file can be opened. */
  method CommitInSession(session: Session, raw: string)
    requires session.db.Valid() && Clean(session.db.View()) && HasEolsInserted(raw, "/commit")
    modifies session`response, session.db`entries, session.db`file, session.db.entries
    ensures session.db.Valid() && session.db.View() == old(session.db.View())
    ensures session.response == "Failed to preserve DB: " + "\n"
    ensures Read(EMPTY, session.db.file).fields == session.db.View().fields
    ensures Listing(Read(EMPTY, session.db.file).rows) == Listing(session.db.View().rows)
  {
    ghost var t := session.db.View();
    CommitPersists(t, raw);
    OtherAnswers(t, StripEol(raw));
    var _ := session.ParseRequest(raw, true);
    assert session.db.View() == t;
    assert session.db.file == Saved(t);
  }

  // ---------- reading a file ----------

  /** The lines of a file, whether the last one is ended or not. */
  lemma LinesOfFile(lines: seq<string>, contents: string)
    requires lines != [] && Free(lines, '\n')
    requires contents == Print(lines, '\n') || (contents == Join(lines, '\n') && (Last(lines) != "" || |lines| == 1))
    ensures Tokens(contents, '\n') == lines
  {
    if contents == Print(lines, '\n') {
      TokensOfPrint(lines, '\n');
    } else {
      TokensOfJoin(lines, '\n');
    }
  }

  /** `values` are what the colons of `line` separate; a final colon ends the last value. */
  predicate IsSplit(values: seq<string>, line: string) {
    values != [] && Free(values, ':') && Print(values, ':') == if EndsWith(line, ':') then line else line + ":"
  }

  /** Any file: the first line is the field list, every other line, the empty ones included, is
      one row behind those already there. */
  lemma ReadAnyFile(t: Table, lines: seq<string>, contents: string)
    requires Named(t.rows) && lines != [] && Free(lines, '\n')
    requires contents == Print(lines, '\n') || (contents == Join(lines, '\n') && (Last(lines) != "" || |lines| == 1))
    ensures var t' := Read(t, contents);
            && IsSplit(t'.fields, lines[0])
            && |t'.rows| == |t.rows| + |lines| - 1
            && (forall i | 0 <= i < |t.rows| :: t'.rows[i] == t.rows[i])
            && forall i | 1 <= i < |lines| :: IsSplit(t'.rows[|t.rows| + i - 1], lines[i])
  {
    LinesOfFile(lines, contents);
    ReadLines(t, lines, contents);
    var t' := Read(t, contents);
    PrintOfTokens(lines[0], ':');
    forall i | 1 <= i < |lines| ensures IsSplit(t'.rows[|t.rows| + i - 1], lines[i]) {
      PrintOfTokens(lines[i], ':');
    }
  }

  lemma ReadLines(t: Table, lines: seq<string>, contents: string)
    requires Named(t.rows) && lines != [] && Tokens(contents, '\n') == lines
    ensures var t' := Read(t, contents);
            && t'.fields == Tokens(lines[0], ':')
            && |t'.rows| == |t.rows| + |lines| - 1
            && (forall i | 0 <= i < |t.rows| :: t'.rows[i] == t.rows[i])
            && forall i | 1 <= i < |lines| :: t'.rows[|t.rows| + i - 1] == Tokens(lines[i], ':')
  {
    var rows := ParseRows(lines[1..]);
    var t' := Read(t, contents);
    forall i | 1 <= i < |lines| ensures t'.rows[|t.rows| + i - 1] == Tokens(lines[i], ':') {
      assert rows[i - 1] == Tokens(lines[1..][i - 1], ':');
    }
  }
}
