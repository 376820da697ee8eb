/** The store as an insertion-ordered map from names to rows. */
module OrderedMap {
  import opened Text
  import opened Splitter
  import opened Store
  import opened Session

  /** Keys in the order of their first insertion, and the row of each key. */
  datatype OrderedMap = OrderedMap(keys: seq<string>, rows: map<string, Row>)

  // ---------- the map's own operations ----------

  function Put(m: OrderedMap, k: string, row: Row): OrderedMap {
    OrderedMap(if k in m.rows then m.keys else m.keys + [k], m.rows[k := row])
  }

  function Without(keys: seq<string>, k: string): seq<string> {
    if keys == [] then []
    else if keys[0] == k then Without(keys[1..], k)
    else [keys[0]] + Without(keys[1..], k)
  }

  function Drop(m: OrderedMap, k: string): OrderedMap {
    OrderedMap(Without(m.keys, k), m.rows - {k})
  }

  function Replaced(keys: seq<string>, k: string, v: string): (r: seq<string>)
    ensures |r| == |keys|
    ensures forall i | 0 <= i < |keys| :: r[i] == if keys[i] == k then v else keys[i]
  {
    if keys == [] then []
    else [if keys[0] == k then v else keys[0]] + Replaced(keys[1..], k, v)
  }

  /** Change the key `k` to `v` in place. */
  function Rename(m: OrderedMap, k: string, v: string, row: Row): OrderedMap {
    OrderedMap(Replaced(m.keys, k, v), (m.rows - {k})[v := row])
  }

  /** `set` with three arguments: succeeds if key, field and value exist. */
  predicate MapCanSetField(m: OrderedMap, fields: seq<string>, name: string, field: string) {
    var j := FindField(fields, field);
    name in m.rows && j < |fields| && j < |m.rows[name]|
  }

  function MapEffect(m: OrderedMap, fields: seq<string>, cmd: Command): OrderedMap {
    match cmd
    case SetRow(csv) => Put(m, NameOf(csv), Tokens(csv, ':'))
    case SetField(name, field, value) =>
      if !MapCanSetField(m, fields, name, field) then m
      else
        var j := FindField(fields, field);
        var row := m.rows[name][j := value];
        if j == 0 then Rename(m, name, value, row) else Put(m, name, row)
    case Delete(name) => if name in m.rows then Drop(m, name) else m
    case _ => m
  }

  function MapGet(m: OrderedMap, fields: seq<string>, name: string, field: string): Lookup {
    var j := FindField(fields, field);
    if name !in m.rows then Found("")
    else if field == "" then Found(Print(m.rows[name], ':'))
    else if j == |fields| then Found("")
    else if j < |m.rows[name]| then Found(m.rows[name][j])
    else PastEnd
  }

  // ---------- abstraction ----------

  /** The row that lookup by name finds, for every name: the first one counts. */
  function Index(rows: seq<Row>): map<string, Row>
    requires Named(rows)
  {
    if rows == [] then map[] else Index(rows[1..])[rows[0][0] := rows[0]]
  }

  function Names(rows: seq<Row>): (names: seq<string>)
    requires Named(rows)
    ensures |names| == |rows|
  {
    if rows == [] then [] else [rows[0][0]] + Names(rows[1..])
  }

  /** No two rows have the same name. */
  predicate Distinct(rows: seq<Row>)
    requires Named(rows)
  {
    rows == [] || (rows[0][0] !in Index(rows[1..]) && Distinct(rows[1..]))
  }

  function Abstract(rows: seq<Row>): OrderedMap
    requires Named(rows)
  {
    OrderedMap(Names(rows), Index(rows))
  }

  lemma {:induction false} IndexIsNames(rows: seq<Row>, name: string)
    requires Named(rows)
    ensures name in Index(rows) <==> exists i :: 0 <= i < |rows| && rows[i][0] == name
  {
    if rows != [] {
      IndexIsNames(rows[1..], name);
      if i :| 0 <= i < |rows| && rows[i][0] == name {
        assert i > 0 ==> rows[1..][i - 1] == rows[i];
      }
      if i :| 0 <= i < |rows[1..]| && rows[1..][i][0] == name {
        assert rows[i + 1][0] == name;
      }
    }
  }

  /** `Distinct` says what its name says. */
  lemma {:induction false} DistinctIsPairwise(rows: seq<Row>)
    requires Named(rows)
    ensures Distinct(rows) <==> forall i, j | 0 <= i < j < |rows| :: rows[i][0] != rows[j][0]
  {
    if rows != [] {
      DistinctIsPairwise(rows[1..]);
      IndexIsNames(rows[1..], rows[0][0]);
      assert forall j | 0 < j < |rows| :: rows[1..][j - 1] == rows[j];
    }
  }

  /** Lookup by name and lookup in the map agree. */
  lemma {:induction false} FindIsLookup(rows: seq<Row>, name: string)
    requires Named(rows)
    ensures var k := FindName(rows, name);
            && (k < |rows| <==> name in Index(rows))
            && (k < |rows| ==> Index(rows)[name] == rows[k])
  {
    if rows != [] {
      FindIsLookup(rows[1..], name);
    }
  }

  // ---------- one command ----------

  /** The three-part `set` that would give a row the name of another row. */
  predicate Clashes(t: Table, cmd: Command)
    requires Named(t.rows)
  {
    && cmd.SetField? && CanSetField(t, cmd.name, cmd.field)
    && FindField(t.fields, cmd.field) == 0
    && cmd.value != cmd.name && FindName(t.rows, cmd.value) < |t.rows|
  }

  // Row lists and maps, one change at a time.

  lemma {:induction false} AppendRow(rows: seq<Row>, row: Row)
    requires Named(rows) && Distinct(rows) && row != [] && row[0] !in Index(rows)
    ensures Distinct(rows + [row])
    ensures Index(rows + [row]) == Index(rows)[row[0] := row]
    ensures Names(rows + [row]) == Names(rows) + [row[0]]
  {
    if rows == [] {
      assert [] + [row] == [row] && [row][1..] == [];
    } else {
      assert (rows + [row])[1..] == rows[1..] + [row];
      AppendRow(rows[1..], row);
    }
  }

  /** Replacing the row found for `name` by one of the same name. */
  lemma {:induction false} ReplaceRow(rows: seq<Row>, name: string, row: Row)
    requires Named(rows) && Distinct(rows) && row != [] && row[0] == name && name in Index(rows)
    ensures FindName(rows, name) < |rows|
    ensures var rows' := rows[FindName(rows, name) := row];
            Distinct(rows') && Index(rows') == Index(rows)[name := row] && Names(rows') == Names(rows)
  {
    FindIsLookup(rows, name);
    var k := FindName(rows, name);
    var rows' := rows[k := row];
    if k == 0 {
      assert rows'[1..] == rows[1..];
    } else {
      assert rows'[1..] == rows[1..][k - 1 := row];
      ReplaceRow(rows[1..], name, row);
    }
  }

  /** Removing an element other than the first, seen from the front. */
  lemma RemovedTail(rows: seq<Row>, rows': seq<Row>, k: nat)
    requires 0 < k < |rows| && rows' == rows[..k] + rows[k + 1..]
    ensures rows' == [rows[0]] + rows'[1..]
    ensures rows'[1..] == rows[1..][..k - 1] + rows[1..][k..]
  {
  }

  /** Removing the row found for `name`. */
  lemma {:induction false} RemoveRow(rows: seq<Row>, name: string)
    requires Named(rows) && Distinct(rows) && name in Index(rows)
    ensures FindName(rows, name) < |rows|
    ensures var k := FindName(rows, name);
            var rows' := rows[..k] + rows[k + 1..];
            Named(rows') && Index(rows') == Index(rows) - {name} && Distinct(rows')
  {
    FindIsLookup(rows, name);
    var k := FindName(rows, name);
    var rows' := rows[..k] + rows[k + 1..];
    if k == 0 {
      assert rows' == rows[1..];
    } else {
      RemovedTail(rows, rows', k);
      RemoveRow(rows[1..], name);
    }
  }

  lemma {:induction false} RemoveRowNames(rows: seq<Row>, name: string)
    requires Named(rows) && Distinct(rows) && name in Index(rows)
    ensures FindName(rows, name) < |rows|
    ensures var k := FindName(rows, name);
            Named(rows[..k] + rows[k + 1..]) && Names(rows[..k] + rows[k + 1..]) == Without(Names(rows), name)
  {
    FindIsLookup(rows, name);
    var k := FindName(rows, name);
    var rows' := rows[..k] + rows[k + 1..];
    if k == 0 {
      assert rows' == rows[1..];
      NamesWithout(rows[1..], name);
    } else {
      RemovedTail(rows, rows', k);
      RemoveRowNames(rows[1..], name);
    }
  }

  lemma {:induction false} NamesWithout(rows: seq<Row>, name: string)
    requires Named(rows) && name !in Index(rows)
    ensures Without(Names(rows), name) == Names(rows)
    ensures forall v: string :: Replaced(Names(rows), name, v) == Names(rows)
  {
    if rows != [] {
      NamesWithout(rows[1..], name);
    }
  }

  /** Giving the row found for `name` another name keeps names distinct exactly if no row has
      that name yet. */
  lemma {:induction false} RenameRow(rows: seq<Row>, name: string, row: Row)
    requires Named(rows) && Distinct(rows) && row != [] && row[0] != name && name in Index(rows)
    ensures FindName(rows, name) < |rows|
    ensures var rows' := rows[FindName(rows, name) := row];
            && (Distinct(rows') <==> row[0] !in Index(rows))
            && Index(rows').Keys == Index(rows).Keys - {name} + {row[0]}
            && (row[0] !in Index(rows) ==> Index(rows') == (Index(rows) - {name})[row[0] := row])
  {
    FindIsLookup(rows, name);
    var k := FindName(rows, name);
    var rows' := rows[k := row];
    assert rows'[1..] == if k == 0 then rows[1..] else rows[1..][k - 1 := row];
    if k > 0 {
      RenameRow(rows[1..], name, row);
    }
  }

  lemma {:induction false} RenameRowNames(rows: seq<Row>, name: string, row: Row)
    requires Named(rows) && Distinct(rows) && row != [] && name in Index(rows)
    ensures FindName(rows, name) < |rows|
    ensures Names(rows[FindName(rows, name) := row]) == Replaced(Names(rows), name, row[0])
  {
    FindIsLookup(rows, name);
    var k := FindName(rows, name);
    var rows' := rows[k := row];
    assert rows'[1..] == if k == 0 then rows[1..] else rows[1..][k - 1 := row];
    if k == 0 {
      NamesWithout(rows[1..], name);
    } else {
      RenameRowNames(rows[1..], name, row);
    }
  }

  lemma SetRowRefines(t: Table, csv: string)
    requires Named(t.rows) && Distinct(t.rows)
    ensures var rows' := Store.SetRow(t, NameOf(csv), csv).rows;
            Distinct(rows') && Abstract(rows') == Put(Abstract(t.rows), NameOf(csv), Tokens(csv, ':'))
  {
    FirstToken(csv, ':');
    FindIsLookup(t.rows, NameOf(csv));
    if NameOf(csv) in Index(t.rows) {
      ReplaceRow(t.rows, NameOf(csv), Tokens(csv, ':'));
    } else {
      AppendRow(t.rows, Tokens(csv, ':'));
    }
  }

  lemma SetFieldRefines(t: Table, name: string, field: string, value: string)
    requires Named(t.rows) && Distinct(t.rows)
    ensures var cmd := Command.SetField(name, field, value);
            var rows' := Effect(t, cmd).rows;
            && (Distinct(rows') <==> !Clashes(t, cmd))
            && (!Clashes(t, cmd) ==> Abstract(rows') == MapEffect(Abstract(t.rows), t.fields, cmd))
  {
    FindIsLookup(t.rows, name);
    FindIsLookup(t.rows, value);
    if CanSetField(t, name, field) {
      var k, j := FindName(t.rows, name), FindField(t.fields, field);
      var row := t.rows[k][j := value];
      if j == 0 && value != name {
        RenameRow(t.rows, name, row);
        RenameRowNames(t.rows, name, row);
      } else {
        ReplaceRow(t.rows, name, row);
        RenameToItself(Abstract(t.rows), name, row);
      }
    }
  }

  /** Renaming a key to itself changes nothing but its row. */
  lemma RenameToItself(m: OrderedMap, name: string, row: Row)
    requires name in m.rows
    ensures Rename(m, name, name, row) == Put(m, name, row)
  {
    assert Replaced(m.keys, name, name) == m.keys;
    assert (m.rows - {name})[name := row] == m.rows[name := row];
  }

  /** One command on a store with distinct names: names stay distinct exactly if the command
      is not a clashing rename, and then the store changes as the map does. */
  lemma CommandRefines(t: Table, cmd: Command)
    requires Named(t.rows) && Distinct(t.rows)
    ensures Distinct(Effect(t, cmd).rows) <==> !Clashes(t, cmd)
    ensures !Clashes(t, cmd) ==> Abstract(Effect(t, cmd).rows) == MapEffect(Abstract(t.rows), t.fields, cmd)
    ensures Effect(t, cmd).fields == t.fields
  {
    match cmd
    case SetRow(csv) => SetRowRefines(t, csv);
    case SetField(name, field, value) => SetFieldRefines(t, name, field, value);
    case Delete(name) =>
      FindIsLookup(t.rows, name);
      if name in Index(t.rows) {
        RemoveRow(t.rows, name);
        RemoveRowNames(t.rows, name);
      }
    case _ =>
  }

  /** What the commands report is what the map says. */
  lemma AnswersAgree(t: Table, name: string, field: string)
    requires Named(t.rows) && Distinct(t.rows)
    ensures var m := Abstract(t.rows);
            && Get(t, name, field) == MapGet(m, t.fields, name, field)
            && (CanSetField(t, name, field) <==> MapCanSetField(m, t.fields, name, field))
            && (FindName(t.rows, name) < |t.rows| <==> name in m.rows)
  {
    FindIsLookup(t.rows, name);
  }

  /** The listing of a map: every row printed, in the order of the keys. */
  function MapListing(keys: seq<string>, rows: map<string, Row>): Option<seq<string>> {
    if keys == [] then Some([])
    else if keys[0] !in rows then None
    else
      var rest := MapListing(keys[1..], rows);
      if rest.None? then None else Some([Print(rows[keys[0]], ':')] + rest.value)
  }

  lemma {:induction false} ListingAgrees(rows: seq<Row>, all: map<string, Row>)
    requires Named(rows) && Distinct(rows)
    requires forall k | k in Index(rows) :: k in all && all[k] == Index(rows)[k]
    ensures MapListing(Names(rows), all) == Some(Listing(rows))
  {
    if rows != [] {
      assert rows[0][0] in Index(rows);
      ListingAgrees(rows[1..], all);
    }
  }

  // ---------- whole runs ----------

  function MapExecute(m: OrderedMap, fields: seq<string>, requests: seq<string>): OrderedMap
    decreases |requests|
  {
    if requests == [] then m else MapExecute(MapEffect(m, fields, Interpret(requests[0])), fields, requests[1..])
  }

  /** No request of the run is a clashing rename in the state in which it is executed. */
  predicate NeverClashes(t: Table, requests: seq<string>)
    requires Named(t.rows)
    decreases |requests|
  {
    || requests == []
    || (!Clashes(t, Interpret(requests[0])) && NeverClashes(Effect(t, Interpret(requests[0])), requests[1..]))
  }

  /** Over whole runs without a clashing rename the store is an insertion-ordered map. */
  lemma {:induction false} RunRefines(t: Table, requests: seq<string>)
    requires Named(t.rows) && Distinct(t.rows) && NeverClashes(t, requests)
    ensures var t' := Execute(t, requests);
            var m := MapExecute(Abstract(t.rows), t.fields, requests);
            && t'.fields == t.fields
            && Distinct(t'.rows)
            && Abstract(t'.rows) == m
            && MapListing(m.keys, m.rows) == Some(Listing(t'.rows))
    decreases |requests|
  {
    if requests != [] {
      CommandRefines(t, Interpret(requests[0]));
      RunRefines(Effect(t, Interpret(requests[0])), requests[1..]);
    } else {
      ListingAgrees(t.rows, Index(t.rows));
    }
  }

  /** A run, cut after its first request or later. */
  lemma ExecuteFrom(t: Table, requests: seq<string>, n: nat)
    requires Named(t.rows) && 0 < n <= |requests|
    ensures Execute(t, requests[..n]) == Execute(Effect(t, Interpret(requests[0])), requests[1..][..n - 1])
  {
    assert requests[..n][1..] == requests[1..][..n - 1];
  }

  predicate DistinctAfter(t: Table, requests: seq<string>, n: nat)
    requires Named(t.rows) && n <= |requests|
  {
    Distinct(Execute(t, requests[..n]).rows)
  }

  /** Names stay distinct throughout a run if and only if it has no clashing rename. */
  lemma {:induction false} DistinctThroughoutIff(t: Table, requests: seq<string>)
    requires Named(t.rows) && Distinct(t.rows)
    ensures NeverClashes(t, requests) <==> forall n | 0 <= n <= |requests| :: DistinctAfter(t, requests, n)
    decreases |requests|
  {
    assert requests[..0] == [] && DistinctAfter(t, requests, 0);
    if requests != [] {
      var t1, rest := Effect(t, Interpret(requests[0])), requests[1..];
      CommandRefines(t, Interpret(requests[0]));
      forall n | 0 < n <= |requests| ensures DistinctAfter(t, requests, n) == DistinctAfter(t1, rest, n - 1) {
        ExecuteFrom(t, requests, n);
      }
      assert DistinctAfter(t, requests, 1) == Distinct(t1.rows);
      if Distinct(t1.rows) {
        DistinctThroughoutIff(t1, rest);
        assert forall n | 0 <= n <= |rest| :: DistinctAfter(t1, rest, n) == DistinctAfter(t, requests, n + 1);
      }
    }
  }

  /** A clash is possible: renaming "b" to "a" leaves two rows named "a". */
  lemma ClashExample()
    ensures var t := Table(["name"], [["a"], ["b"]]);
            var cmd := Command.SetField("b", "name", "a");
            Distinct(t.rows) && Clashes(t, cmd) && !Distinct(Effect(t, cmd).rows)
  {
    var t := Table(["name"], [["a"], ["b"]]);
    FirstName(t.rows, "b", 1);
    FirstName(t.rows, "a", 0);
    DistinctIsPairwise(t.rows);
    CommandRefines(t, Command.SetField("b", "name", "a"));
  }
}
