/** The language the request parser accepts, as syntax trees with a spelling and a
    meaning, after sections 2.2, 3.1, 4.2 and 5.1 of RFC 1945. */
module HttpGrammar {
  import opened Text
  import opened Decimal
  import opened HttpRequest

  // Classes of bytes, by what they contain.

  /** Letters, digits and the marks that separate nothing (section 2.2 of RFC 1945). */
  predicate TokenByte(c: char) {
    || 'a' <= c <= 'z' || 'A' <= c <= 'Z' || '0' <= c <= '9'
    || c == '!' || c == '#' || c == '$' || c == '%' || c == '&' || c == '\'' || c == '*' || c == '+'
    || c == '-' || c == '.' || c == '^' || c == '_' || c == '`' || c == '|' || c == '~'
  }

  /** Printable bytes, the space, and everything beyond ASCII. */
  predicate TextByte(c: char) {
    32 <= c as int <= 126 || 128 <= c as int
  }

  predicate UriByte(c: char) {
    33 <= c as int <= 126 || 128 <= c as int
  }

  predicate BlankByte(c: char) {
    c as int == 32 || c as int == 9
  }

  /** The parser's own classes have the same bytes. */
  lemma SameClasses(c: char)
    ensures IsTokenChar(c) <==> TokenByte(c)
    ensures IsCtl(c) <==> !TextByte(c)
    ensures UriByte(c) <==> TextByte(c) && c != ' '
    ensures IsBlank(c) <==> BlankByte(c)
  {
  }

  /** A continuation line: its leading blanks and the rest, which may be empty. */
  datatype Fold = Fold(blanks: string, text: string) {
    predicate WellFormed() {
      && blanks != "" && AreBlanks(blanks)
      && IsFieldText(text)
      && (text != "" ==> !BlankByte(text[0]))
    }
  }

  /** A header field: name, text of its first line, continuation lines. */
  datatype Field = Field(name: string, first: string, folds: seq<Fold>) {
    predicate WellFormed() {
      IsToken(name) && IsFieldText(first) && AllFolds(folds)
    }
  }

  /** A request; the version numbers are kept as written. */
  datatype Syntax = Syntax(verb: string, uri: string, major: string, minor: string, fields: seq<Field>) {
    predicate WellFormed() {
      && IsToken(verb)
      && IsUri(uri)
      && IsNumeral(major) && major != ""
      && IsNumeral(minor) && minor != ""
      && AllFields(fields)
    }
  }

  predicate AreTokenChars(s: string) {
    forall c | c in s :: TokenByte(c)
  }

  predicate IsToken(s: string) {
    s != "" && AreTokenChars(s)
  }

  predicate AreBlanks(s: string) {
    forall c | c in s :: BlankByte(c)
  }

  predicate IsFieldText(s: string) {
    forall c | c in s :: TextByte(c)
  }

  predicate IsUri(s: string) {
    forall c | c in s :: UriByte(c)
  }

  predicate AllFolds(folds: seq<Fold>) {
    folds == [] || (folds[0].WellFormed() && AllFolds(folds[1..]))
  }

  predicate AllFields(fields: seq<Field>) {
    fields == [] || (fields[0].WellFormed() && AllFields(fields[1..]))
  }

  // ---------- spelling ----------

  function SpellFolds(folds: seq<Fold>): string {
    if folds == [] then "" else folds[0].blanks + (folds[0].text + (CRLF + SpellFolds(folds[1..])))
  }

  function SpellField(f: Field): string {
    f.name + (": " + (f.first + (CRLF + SpellFolds(f.folds))))
  }

  function SpellFields(fields: seq<Field>): string {
    if fields == [] then "" else SpellField(fields[0]) + SpellFields(fields[1..])
  }

  function SpellSection(fields: seq<Field>): string {
    CRLF + (SpellFields(fields) + CRLF)
  }

  function SpellVersion(major: string, minor: string, fields: seq<Field>): string {
    major + ("." + (minor + SpellSection(fields)))
  }

  function Spell(s: Syntax): string {
    s.verb + (" " + (s.uri + (" HTTP/" + SpellVersion(s.major, s.minor, s.fields))))
  }

  // ---------- meaning ----------

  /** The non-blank parts of the continuation lines, with no separator. */
  function FoldedText(folds: seq<Fold>): string {
    if folds == [] then "" else folds[0].text + FoldedText(folds[1..])
  }

  function FieldMeaning(f: Field): Header {
    Header(f.name, f.first + FoldedText(f.folds))
  }

  function FieldsMeaning(fields: seq<Field>): (hs: seq<Header>)
    ensures |hs| == |fields|
  {
    if fields == [] then [] else [FieldMeaning(fields[0])] + FieldsMeaning(fields[1..])
  }

  function Meaning(s: Syntax): Message
    requires s.WellFormed()
  {
    Message(s.verb, s.uri, Value(s.major), Value(s.minor), FieldsMeaning(s.fields))
  }

  // ---------- what may follow a header line ----------

  /** Continuation lines, further fields, and the blank line. */
  datatype Tail = Tail(folds: seq<Fold>, fields: seq<Field>) {
    predicate WellFormed() {
      AllFolds(folds) && AllFields(fields)
    }
  }

  function SpellLines(k: Tail): string {
    SpellFolds(k.folds) + (SpellFields(k.fields) + CRLF)
  }

  function SpellTail(k: Tail): string {
    CRLF + SpellLines(k)
  }

  /** `msg` after the rest `text` of a header line and the tail `k` have been read. */
  function Extend(msg: Message, text: string, k: Tail): Message
    requires msg.headers != []
  {
    var h := Last(msg.headers);
    var h' := h.(value := h.value + text + FoldedText(k.folds));
    msg.(headers := Front(msg.headers) + [h'] + FieldsMeaning(k.fields))
  }

  lemma ExtendByNothing(msg: Message, fields: seq<Field>)
    requires msg.headers != []
    ensures Extend(msg, "", Tail([], fields)) == msg.(headers := msg.headers + FieldsMeaning(fields))
  {
    var h := Last(msg.headers);
    assert h.value + "" + "" == h.value;
    assert Front(msg.headers) + [h] == msg.headers;
  }

  lemma ExtendByFold(msg: Message, t: string, k1: Tail, k: Tail)
    requires msg.headers != [] && k.fields == k1.fields && FoldedText(k.folds) == t + FoldedText(k1.folds)
    ensures Extend(msg, "", k) == Extend(msg, t, k1)
  {
    var v := Last(msg.headers).value;
    assert v + "" + (t + FoldedText(k1.folds)) == v + t + FoldedText(k1.folds);
  }

  lemma ExtendByOne(msg: Message, c: char, t: string, k: Tail)
    requires msg.headers != []
    ensures Extend(AppendToValue(msg, c), t, k) == Extend(msg, [c] + t, k)
  {
    var h := Last(msg.headers);
    assert Front(AppendToValue(msg, c).headers) == Front(msg.headers);
    assert (h.value + [c]) + t == h.value + ([c] + t);
  }

  /** `msg` with `n` appended to the name of its last header. */
  function Rename(msg: Message, n: string): Message
    requires msg.headers != []
  {
    var h := Last(msg.headers);
    msg.(headers := Front(msg.headers) + [h.(name := h.name + n)])
  }

  lemma RenameByOne(msg: Message, c: char, n: string)
    requires msg.headers != []
    ensures Rename(AppendToName(msg, c), n) == Rename(msg, [c] + n)
    ensures Rename(msg, "") == msg
  {
    var h := Last(msg.headers);
    assert Front(AppendToName(msg, c).headers) == Front(msg.headers);
    assert (h.name + [c]) + n == h.name + ([c] + n);
    assert h.name + "" == h.name;
  }

  lemma ExtendByField(msg: Message, msg1: Message, c: char, n: string, t: string, k: Tail)
    requires msg1 == msg.(headers := msg.headers + [Header([c], "")])
    ensures Extend(Rename(msg1, n), t, k)
         == msg.(headers := msg.headers + ([Header([c] + n, t + FoldedText(k.folds))] + FieldsMeaning(k.fields)))
  {
    var h := Header([c] + n, "");
    assert Front(msg1.headers) == msg.headers;
    assert Rename(msg1, n).headers == msg.headers + [h] && Front(msg.headers + [h]) == msg.headers;
    assert "" + t == t;
  }

  // Texts of a field and of a fold, grouped from the right.

  lemma RegroupField(name: string, sep: string, first: string, eol: string, folds: string, fields: string)
    ensures (name + (sep + (first + (eol + folds)))) + fields + eol
         == name + (sep + (first + (eol + (folds + (fields + eol)))))
  {
  }

  lemma RegroupFold(blanks: string, text: string, eol: string, folds: string, rest: string)
    ensures (blanks + (text + (eol + folds))) + rest == blanks + (text + (eol + (folds + rest)))
  {
  }
}
