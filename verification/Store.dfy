/** The text store (DataProvider/DBTextFile): an ordered list of rows of strings with
    first-match lookup by the first value, kept in a colon-separated text file. */
module Store {
  import opened Text
  import opened Splitter

  type Row = seq<string>

  /** The value of a store. */
  datatype Table = Table(fields: seq<string>, rows: seq<Row>)

  const EMPTY := Table([], [])

  /** Every row has a name, so `getValue(0)` is in bounds. */
  predicate Named(rows: seq<Row>) {
    forall i | 0 <= i < |rows| :: rows[i] != []
  }

  /** `std::find_if` on the name: the first row with that name, or the number of rows. */
  function FindName(rows: seq<Row>, name: string): (k: nat)
    requires Named(rows)
    ensures k <= |rows|
    ensures k < |rows| ==> rows[k][0] == name
    ensures forall i | 0 <= i < k :: rows[i][0] != name
  {
    if rows == [] || rows[0][0] == name then 0
    else
      assert forall i | 0 < i < FindName(rows[1..], name) + 1 :: rows[i] == rows[1..][i - 1];
      FindName(rows[1..], name) + 1
  }

  lemma FirstName(rows: seq<Row>, name: string, k: nat)
    requires Named(rows) && k <= |rows|
    requires forall i | 0 <= i < k :: rows[i][0] != name
    requires k < |rows| ==> rows[k][0] == name
    ensures FindName(rows, name) == k
  {
  }

  /** `std::find` on the field list. */
  function FindField(fields: seq<string>, field: string): (k: nat)
    ensures k <= |fields|
    ensures k < |fields| ==> fields[k] == field
    ensures forall i | 0 <= i < k :: fields[i] != field
  {
    if fields == [] || fields[0] == field then 0
    else
      assert forall i | 0 < i < FindField(fields[1..], field) + 1 :: fields[i] == fields[1..][i - 1];
      FindField(fields[1..], field) + 1
  }

  /** `set(name, csv)`: replace the row of that name, or append one. */
  function SetRow(t: Table, name: string, csv: string): (t': Table)
    requires Named(t.rows)
    ensures Named(t'.rows)
  {
    var k := FindName(t.rows, name);
    if k == |t.rows| then t.(rows := t.rows + [Tokens(csv, ':')])
    else t.(rows := t.rows[k := Tokens(csv, ':')])
  }

  /** `set(name, field, value)`: whether it succeeds ... */
  predicate CanSetField(t: Table, name: string, field: string)
    requires Named(t.rows)
  {
    var k, j := FindName(t.rows, name), FindField(t.fields, field);
    k < |t.rows| && j < |t.fields| && j < |t.rows[k]|
  }

  /** ... and the store afterwards. */
  function SetField(t: Table, name: string, field: string, value: string): (t': Table)
    requires Named(t.rows)
    ensures Named(t'.rows)
  {
    if !CanSetField(t, name, field) then t
    else
      var k, j := FindName(t.rows, name), FindField(t.fields, field);
      t.(rows := t.rows[k := t.rows[k][j := value]])
  }

  function Erase(t: Table, name: string): (t': Table)
    requires Named(t.rows)
    ensures Named(t'.rows)
  {
    var k := FindName(t.rows, name);
    if k == |t.rows| then t else t.(rows := t.rows[..k] + t.rows[k + 1..])
  }

  /** The answer of `get(name, field)`; `PastEnd` stands for reading past the end of a
      row, which the code does not check. */
  datatype Lookup = Found(text: string) | PastEnd

  function Get(t: Table, name: string, field: string): Lookup
    requires Named(t.rows)
  {
    var k, j := FindName(t.rows, name), FindField(t.fields, field);
    if k == |t.rows| then Found("")
    else if field == "" then Found(Print(t.rows[k], ':'))
    else if j == |t.fields| then Found("")
    else if j < |t.rows[k]| then Found(t.rows[k][j])
    else PastEnd
  }

  /** `get()`: every row printed. */
  function Listing(rows: seq<Row>): (lines: seq<string>)
    ensures |lines| == |rows|
    ensures forall i | 0 <= i < |rows| :: lines[i] == Print(rows[i], ':')
  {
    if rows == [] then [] else [Print(rows[0], ':')] + Listing(rows[1..])
  }

  /** The rows of a list of lines. */
  function ParseRows(lines: seq<string>): (rows: seq<Row>)
    ensures |rows| == |lines| && Named(rows)
    ensures forall i | 0 <= i < |lines| :: rows[i] == Tokens(lines[i], ':')
  {
    if lines == [] then [] else [Tokens(lines[0], ':')] + ParseRows(lines[1..])
  }

  /** `read`: the first line replaces the field list, the others are appended as rows. */
  function Read(t: Table, contents: string): (t': Table)
    requires Named(t.rows)
    ensures Named(t'.rows)
  {
    var lines := Tokens(contents, '\n');
    Table(Tokens(lines[0], ':'), t.rows + ParseRows(lines[1..]))
  }

  /** `save`: what is written to the file. */
  function Saved(t: Table): string {
    Print(t.fields, ':') + "\n" + Print(Listing(t.rows), '\n')
  }

  lemma {:induction false} ListingSnoc(rows: seq<Row>, row: Row)
    ensures Listing(rows + [row]) == Listing(rows) + [Print(row, ':')]
  {
    if rows != [] {
      assert (rows + [row])[1..] == rows[1..] + [row];
      ListingSnoc(rows[1..], row);
    }
  }

  class Entry {
    var values: seq<string>

    constructor (line: string)
      ensures values == Tokens(line, ':')
    {
      values := Tokens(line, ':');
    }

    /** The source leaves the bound to its callers. */
    function GetValue(idx: nat): string
      requires idx < |values|
      reads this
    {
      values[idx]
    }

    method SetEntry(entry: Entry) returns (ok: bool)
      modifies this
      ensures ok && values == old(entry.values)
    {
      values := entry.values;
      ok := true;
    }

    method SetValue(idx: nat, value: string) returns (ok: bool)
      modifies this
      ensures ok <==> idx < |old(values)|
      ensures values == if ok then old(values)[idx := value] else old(values)
    {
      if idx >= |values| {
        return false;
      }
      values := values[idx := value];
      ok := true;
    }

    method AsString() returns (oss: string)
      ensures oss == Print(values, ':')
    {
      oss := "";
      var i := 0;
      while i < |values|
        invariant 0 <= i <= |values|
        invariant oss == Print(values[..i], ':')
      {
        PrintSnoc(values[..i], values[i], ':');
        assert values[..i + 1] == values[..i] + [values[i]];
        oss := oss + values[i] + ":";
        i := i + 1;
      }
      assert values[..i] == values;
    }
  }

  class DBTextFile {
    var fields: seq<string>
    var entries: seq<Entry>
    var file: string   // contents of the file at dbPath

    ghost predicate Valid()
      reads this, entries
    {
      && (forall i, j | 0 <= i < j < |entries| :: entries[i] != entries[j])
      && (forall i | 0 <= i < |entries| :: entries[i].values != [])
    }

    ghost function View(): (t: Table)
      reads this, entries
      ensures |t.rows| == |entries|
    {
      Table(fields, seq(|entries|, i requires 0 <= i < |entries| reads this, entries => entries[i].values))
    }

    constructor (file: string)
      ensures Valid() && View() == EMPTY && this.file == file && entries == []
    {
      fields, entries := [], [];
      this.file := file;
    }

    /** The `find_if` loops of the class. */
    method FindEntry(name: string) returns (k: nat)
      requires Valid()
      ensures k == FindName(View().rows, name)
    {
      ghost var rows := View().rows;
      k := 0;
      while k < |entries| && entries[k].GetValue(0) != name
        invariant k <= |entries|
        invariant forall i | 0 <= i < k :: rows[i][0] != name
      {
        k := k + 1;
      }
      FirstName(rows, name, k);
    }

    method FindFieldIndex(field: string) returns (k: nat)
      ensures k == FindField(fields, field)
    {
      k := 0;
      while k < |fields| && fields[k] != field
        invariant k <= |fields|
        invariant forall i | 0 <= i < k :: fields[i] != field
      {
        k := k + 1;
      }
    }

    method Fields() returns (reply: string)
      ensures reply == Print(fields, ':')
    {
      reply := "";
      var i := 0;
      while i < |fields|
        invariant 0 <= i <= |fields|
        invariant reply == Print(fields[..i], ':')
      {
        PrintSnoc(fields[..i], fields[i], ':');
        assert fields[..i + 1] == fields[..i] + [fields[i]];
        reply := reply + fields[i] + ":";
        i := i + 1;
      }
      assert fields[..i] == fields;
    }

    method GetAll() returns (response: seq<string>)
      requires Valid()
      ensures response == Listing(View().rows)
    {
      response := [];
      ghost var rows := View().rows;
      var i := 0;
      while i < |entries|
        invariant 0 <= i <= |entries|
        invariant response == Listing(rows[..i])
      {
        var line := entries[i].AsString();
        ListingSnoc(rows[..i], rows[i]);
        assert rows[..i + 1] == rows[..i] + [rows[i]];
        response := response + [line];
        i := i + 1;
      }
      assert rows[..i] == rows;
    }

    method GetOne(name: string, field: string) returns (r: Lookup)
      requires Valid()
      ensures r == Get(View(), name, field)
    {
      var k := FindEntry(name);
      if k == |entries| {
        return Found("");
      }
      if field == "" {
        var s := entries[k].AsString();
        return Found(s);
      }
      var j := FindFieldIndex(field);
      if j == |fields| {
        return Found("");
      }
      if j >= |entries[k].values| {
        return PastEnd;
      }
      return Found(entries[k].GetValue(j));
    }

    /** `entries_.emplace_back(line)` */
    method Append(line: string)
      requires Valid()
      modifies this`entries
      ensures Valid()
      ensures |entries| == |old(entries)| + 1 && entries[..|old(entries)|] == old(entries) && fresh(Last(entries))
      ensures View() == old(View()).(rows := old(View()).rows + [Tokens(line, ':')])
    {
      var entry := new Entry(line);
      entries := entries + [entry];
    }

    method SetCsv(name: string, csv: string) returns (ok: bool)
      requires Valid()
      modifies this`entries, entries
      ensures Valid() && ok
      ensures View() == old(SetRow(View(), name, csv))
      ensures forall e | e in entries :: e in old(entries) || fresh(e)
    {
      var k := FindEntry(name);
      if k == |entries| {
        Append(csv);
      } else {
        var entry := new Entry(csv);
        var _ := entries[k].SetEntry(entry);
      }
      ok := true;
    }

    method SetOne(name: string, field: string, value: string) returns (ok: bool)
      requires Valid()
      modifies entries
      ensures Valid()
      ensures ok == old(CanSetField(View(), name, field))
      ensures View() == old(SetField(View(), name, field, value))
    {
      var k := FindEntry(name);
      if k == |entries| {
        return false;
      }
      var j := FindFieldIndex(field);
      if j == |fields| {
        return false;
      }
      ok := entries[k].SetValue(j, value);
    }

    method EraseEntry(name: string) returns (ok: bool)
      requires Valid()
      modifies this`entries
      ensures Valid()
      ensures ok == (FindName(old(View().rows), name) < |old(View().rows)|)
      ensures View() == old(Erase(View(), name))
      ensures forall e | e in entries :: e in old(entries)
    {
      var k := FindEntry(name);
      if k == |entries| {
        return false;
      }
      RemoveAt(k);
      ok := true;
    }

    /** `entries_.erase` */
    method RemoveAt(k: nat)
      requires Valid() && k < |entries|
      modifies this`entries
      ensures Valid()
      ensures View() == old(View()).(rows := old(View()).rows[..k] + old(View()).rows[k + 1..])
      ensures forall e | e in entries :: e in old(entries)
    {
      ghost var es, rows := entries, View().rows;
      entries := entries[..k] + entries[k + 1..];
      assert forall i | 0 <= i < |entries| :: entries[i] == es[if i < k then i else i + 1];
      assert View().rows == rows[..k] + rows[k + 1..];
    }

    /** The loop of `read` over the lines after the first. */
    method AppendAll(lines: seq<string>)
      requires Valid()
      modifies this`entries
      ensures Valid()
      ensures View() == old(View()).(rows := old(View()).rows + ParseRows(lines))
      ensures forall e | e in entries :: e in old(entries) || fresh(e)
    {
      ghost var before, rows := View(), ParseRows(lines);
      var i := 0;
      while i < |lines|
        invariant 0 <= i <= |lines|
        invariant Valid()
        invariant View() == before.(rows := before.rows + rows[..i])
        invariant forall e | e in entries :: e in old(entries) || fresh(e)
      {
        label here:
        assert rows[..i + 1] == rows[..i] + [rows[i]];
        Append(lines[i]);
        assert forall e | e in entries :: e in old@here(entries) || e == Last(entries);
        i := i + 1;
      }
      assert rows[..i] == rows;
    }

    /** `read`; whether the file can be opened is not up to the program. */
    method ReadFile(canOpen: bool) returns (ok: bool)
      requires Valid()
      modifies this`fields, this`entries
      ensures Valid() && ok == canOpen
      ensures View() == if canOpen then Read(old(View()), file) else old(View())
      ensures forall e | e in entries :: e in old(entries) || fresh(e)
    {
      if !canOpen {
        return false;
      }
      var lines := Tokens(file, '\n');
      ghost var rows := View().rows;
      fields := Tokens(lines[0], ':');
      assert View().rows == rows;
      AppendAll(lines[1..]);
      ok := true;
    }

    /** The bytes `save` writes to its stream. */
    method Write() returns (os: string)
      requires Valid()
      ensures os == Saved(View())
    {
      os := Fields();
      os := os + "\n";
      ghost var head := os;
      ghost var rows := View().rows;
      var i := 0;
      while i < |entries|
        invariant 0 <= i <= |entries|
        invariant os == head + Print(Listing(rows[..i]), '\n')
      {
        var line := entries[i].AsString();
        ListingSnoc(rows[..i], rows[i]);
        PrintSnoc(Listing(rows[..i]), line, '\n');
        assert rows[..i + 1] == rows[..i] + [rows[i]];
        os := os + line + "\n";
        i := i + 1;
      }
      assert rows[..i] == rows;
    }

    /** `save` writes the file and then reports failure in every case. */
    method SaveFile(canOpen: bool) returns (ok: bool)
      requires Valid()
      modifies this`file
      ensures !ok
      ensures file == if canOpen then Saved(View()) else old(file)
    {
      ghost var t := View();
      if canOpen {
        file := Write();
      }
      assert View().rows == t.rows;
      ok := false;
    }
  }
}
