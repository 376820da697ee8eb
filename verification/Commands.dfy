/** The command line as clients write it: slashes between arguments, line ends anywhere. */
module Commands {
  import opened Text
  import opened Splitter
  import opened Store
  import opened Session

  predicate IsEol(c: char) {
    c == '\r' || c == '\n'
  }

  /** `raw` is `clean` with carriage returns and newlines inserted anywhere. */
  predicate HasEolsInserted(raw: string, clean: string) {
    if raw == "" then clean == ""
    else if IsEol(raw[0]) then HasEolsInserted(raw[1..], clean)
    else clean != "" && clean[0] == raw[0] && HasEolsInserted(raw[1..], clean[1..])
  }

  lemma {:induction false} StripRemovesInserted(raw: string, clean: string)
    requires HasEolsInserted(raw, clean)
    ensures StripEol(raw) == clean
  {
    if raw != "" {
      if IsEol(raw[0]) {
        StripRemovesInserted(raw[1..], clean);
      } else {
        StripRemovesInserted(raw[1..], clean[1..]);
        assert [clean[0]] + clean[1..] == clean;
      }
    }
  }

  lemma {:induction false} NothingInserted(clean: string)
    requires '\r' !in clean && '\n' !in clean
    ensures HasEolsInserted(clean, clean)
  {
    if clean != "" {
      NothingInserted(clean[1..]);
    }
  }

  /** Tokenising a command line gives its arguments back, wherever line ends were inserted;
      only an empty last argument is lost. */
  lemma ArgumentsRoundTrip(args: seq<string>, raw: string)
    requires args != [] && Free(args, '/')
    requires HasEolsInserted(raw, "/" + Join(args, '/'))
    ensures Arguments(StripEol(raw)) == if Last(args) == "" then Front(args) else args
  {
    var all := [""] + args;
    StripRemovesInserted(raw, "/" + Join(args, '/'));
    assert all[1..] == args;
    assert Join(all, '/') == "/" + Join(args, '/') by { assert "" + ['/'] == "/"; }
    assert Free(all, '/') && Last(all) == Last(args);
    TokensOfJoin(all, '/');
    assert Front(all)[1..] == Front(args);
  }

  /** The leading slash may be left out if the first argument is not empty. */
  lemma ArgumentsWithoutSlash(args: seq<string>, raw: string)
    requires args != [] && Free(args, '/') && args[0] != ""
    requires HasEolsInserted(raw, Join(args, '/'))
    ensures Arguments(StripEol(raw)) == if Last(args) == "" then Front(args) else args
  {
    StripRemovesInserted(raw, Join(args, '/'));
    TokensOfJoin(args, '/');
  }

  /** A four-part `set` line, with line ends anywhere, is understood as written. */
  lemma SetFieldIsUnderstood(name: string, field: string, value: string, raw: string)
    requires Free(["set", name, field, value], '/') && value != ""
    requires HasEolsInserted(raw, "/" + Join(["set", name, field, value], '/'))
    ensures Interpret(raw) == Command.SetField(name, field, value)
  {
    ArgumentsRoundTrip(["set", name, field, value], raw);
  }

  lemma NoTokens(s: string, sep: char)
    ensures Tokens(s, sep) == [""] <==> s == "" || s == [sep]
  {
    TokensCharacterised(s, sep, [""]);
    assert [""][1..] == [] && Print([""], sep) == [sep];
  }

  lemma NoArguments(cmd: string)
    ensures Arguments(cmd) == [] <==> cmd == "" || cmd == ['/']
  {
    var ts := Tokens(cmd, '/');
    NoTokens(cmd, '/');
    assert ts == [ts[0]] + ts[1..];
  }

  lemma InvalidArguments(args: seq<string>)
    ensures Dispatch(args).Invalid? <==> args == []
  {
  }

  /** Only an empty line and a single slash are no query; two slashes are an unknown command. */
  lemma InvalidIff(raw: string)
    ensures Interpret(raw).Invalid? <==> StripEol(raw) == "" || StripEol(raw) == ['/']
  {
    InvalidArguments(Arguments(StripEol(raw)));
    NoArguments(StripEol(raw));
  }

  /** A command line of one word. */
  lemma OneWord(word: string)
    requires word != "" && '/' !in word && '\r' !in word && '\n' !in word
    ensures StripEol(['/'] + word) == ['/'] + word && Arguments(['/'] + word) == [word]
  {
    NothingInserted(['/'] + word);
    StripRemovesInserted(['/'] + word, ['/'] + word);
    ArgumentsRoundTrip([word], ['/'] + word);
  }

  lemma OneWordOf(word: string, raw: string)
    requires word != "" && '/' !in word && '\r' !in word && '\n' !in word
    requires raw != "" && raw[0] == '/' && raw[1..] == word
    ensures StripEol(raw) == raw && Arguments(raw) == [word]
  {
    OneWord(word);
    assert raw == ['/'] + word;
  }

  lemma ThrownArguments(args: seq<string>, t: Table)
    requires Named(t.rows)
    ensures OutcomeOf(t, Dispatch(args)) == Thrown <==> args == ["delete"]
  {
  }

  /** A request ends in an exception if and only if it is `delete` without an argument. */
  lemma ThrownIff(t: Table, raw: string)
    requires Named(t.rows)
    ensures OutcomeOf(t, Interpret(raw)) == Thrown <==> Arguments(StripEol(raw)) == ["delete"]
  {
    ThrownArguments(Arguments(StripEol(raw)), t);
  }

  lemma DeleteExample(t: Table)
    requires Named(t.rows)
    ensures OutcomeOf(t, Interpret("/delete")) == Thrown
  {
    OneWordOf("delete", "/delete");
    ThrownIff(t, "/delete");
  }
}
