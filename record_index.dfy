/** The two ways the microarray script indexes the rows of a tab-separated
    file: by assignment, where a later row with the same key replaces an
    earlier one (`d[key] = value`), and by grouping, where every row with a
    key adds one value to that key's list in row order. A row is given as its
    fields, already stripped and split on tabs; the first character of the
    line it was read from is the first character of its first field. */
module RecordIndex {

  type Row = seq<string>

  /** The first character of the row's line is one of `markers`. */
  predicate StartsWith(row: Row, markers: set<char>)
  {
    |row| > 0 && |row[0]| > 0 && row[0][0] in markers
  }

  /** A comment row (marker `#`). */
  predicate IsComment(row: Row)
  {
    StartsWith(row, {'#'})
  }

  /** A header row (marker `p` or `A`). */
  predicate IsHeader(row: Row)
  {
    StartsWith(row, {'p', 'A'})
  }

  /** The row's first field is `k`. */
  predicate KeyIs(row: Row, k: string)
  {
    |row| > 0 && row[0] == k
  }

  /** Every kept row has a key field and the fields `value` reads. */
  ghost predicate Applicable<V>(rows: seq<Row>, keep: Row -> bool, value: Row --> V)
  {
    forall i :: 0 <= i < |rows| && keep(rows[i]) ==> |rows[i]| > 0 && value.requires(rows[i])
  }

  /** Starting from `init`, assign `m[row[0]] := value(row)` for every kept
      row, first row first. */
  function IndexRows<V>(init: map<string, V>, rows: seq<Row>, keep: Row -> bool, value: Row --> V): map<string, V>
    requires Applicable(rows, keep, value)
    decreases |rows|
  {
    if rows == [] then init
    else
      var last := rows[|rows| - 1];
      var m := IndexRows(init, rows[..|rows| - 1], keep, value);
      if keep(last) then m[last[0] := value(last)] else m
  }

  /** A key is present after indexing iff it was present before or some
      kept row carries it; a lookup of any other key misses. */
  lemma {:induction false} IndexRowsKeys<V>(init: map<string, V>, rows: seq<Row>, keep: Row -> bool, value: Row --> V, k: string)
    requires Applicable(rows, keep, value)
    ensures k in IndexRows(init, rows, keep, value) <==>
            k in init || exists i :: 0 <= i < |rows| && keep(rows[i]) && KeyIs(rows[i], k)
    decreases |rows|
  {
    if rows != [] {
      var front := rows[..|rows| - 1];
      IndexRowsKeys(init, front, keep, value, k);
      if exists i :: 0 <= i < |front| && keep(front[i]) && KeyIs(front[i], k) {
        var i :| 0 <= i < |front| && keep(front[i]) && KeyIs(front[i], k);
        assert rows[i] == front[i];
      }
      if exists i :: 0 <= i < |rows| && keep(rows[i]) && KeyIs(rows[i], k) {
        var i :| 0 <= i < |rows| && keep(rows[i]) && KeyIs(rows[i], k);
        if i < |front| {
          assert front[i] == rows[i];
        }
      }
    }
  }

  /** The value of a key is that of the last kept row carrying it. */
  lemma {:induction false} IndexRowsLastWins<V>(init: map<string, V>, rows: seq<Row>, keep: Row -> bool, value: Row --> V, i: nat)
    requires Applicable(rows, keep, value)
    requires i < |rows| && keep(rows[i])
    requires forall j :: i < j < |rows| && keep(rows[j]) ==> !KeyIs(rows[j], rows[i][0])
    ensures rows[i][0] in IndexRows(init, rows, keep, value)
    ensures IndexRows(init, rows, keep, value)[rows[i][0]] == value(rows[i])
    decreases |rows|
  {
    var front := rows[..|rows| - 1];
    if i < |rows| - 1 {
      assert front[i] == rows[i];
      forall j | i < j < |front| && keep(front[j])
        ensures !KeyIs(front[j], front[i][0])
      {
        assert front[j] == rows[j];
      }
      IndexRowsLastWins(init, front, keep, value, i);
    }
  }

  /** A key no kept row carries keeps its initial entry, or stays absent. */
  lemma {:induction false} IndexRowsUntouched<V>(init: map<string, V>, rows: seq<Row>, keep: Row -> bool, value: Row --> V, k: string)
    requires Applicable(rows, keep, value)
    requires forall j :: 0 <= j < |rows| && keep(rows[j]) ==> !KeyIs(rows[j], k)
    ensures k in IndexRows(init, rows, keep, value) <==> k in init
    ensures k in init ==> IndexRows(init, rows, keep, value)[k] == init[k]
    decreases |rows|
  {
    if rows != [] {
      var front := rows[..|rows| - 1];
      forall j | 0 <= j < |front| && keep(front[j])
        ensures !KeyIs(front[j], k)
      {
        assert front[j] == rows[j];
      }
      IndexRowsUntouched(init, front, keep, value, k);
    }
  }

  /** Every kept row has the fields `key` and `value` read. */
  ghost predicate Groupable<V>(rows: seq<Row>, keep: Row -> bool, key: Row --> string, value: Row --> V)
  {
    forall i :: 0 <= i < |rows| && keep(rows[i]) ==> key.requires(rows[i]) && value.requires(rows[i])
  }

  /** The values of the kept rows whose key is `k`, in row order. */
  function Group<V>(rows: seq<Row>, keep: Row -> bool, key: Row --> string, value: Row --> V, k: string): seq<V>
    requires Groupable(rows, keep, key, value)
    decreases |rows|
  {
    if rows == [] then []
    else
      (if keep(rows[0]) && key(rows[0]) == k then [value(rows[0])] else [])
      + Group(rows[1..], keep, key, value, k)
  }

  /** The keys of the kept rows. */
  function GroupKeys<V>(rows: seq<Row>, keep: Row -> bool, key: Row --> string, value: Row --> V): set<string>
    requires Groupable(rows, keep, key, value)
  {
    set i | 0 <= i < |rows| && keep(rows[i]) :: key(rows[i])
  }

  /** The list stored under `k`, or the empty list. */
  function Lookup<V>(m: map<string, seq<V>>, k: string): seq<V>
  {
    if k in m then m[k] else []
  }

  /** Every key of `init` and every key of a kept row, mapped to its old list
      followed by the values of its rows in row order. */
  function GroupAll<V>(init: map<string, seq<V>>, rows: seq<Row>, keep: Row -> bool, key: Row --> string, value: Row --> V): map<string, seq<V>>
    requires Groupable(rows, keep, key, value)
  {
    map k | k in init.Keys + GroupKeys(rows, keep, key, value) :: Lookup(init, k) + Group(rows, keep, key, value, k)
  }

  /** Grouping a file in two parts groups the first part, then the second:
      each key's values keep file row order. */
  lemma {:induction false} GroupAppend<V>(a: seq<Row>, b: seq<Row>, keep: Row -> bool, key: Row --> string, value: Row --> V, k: string)
    requires Groupable(a, keep, key, value) && Groupable(b, keep, key, value)
    ensures Groupable(a + b, keep, key, value)
    ensures Group(a + b, keep, key, value, k) == Group(a, keep, key, value, k) + Group(b, keep, key, value, k)
    decreases |a|
  {
    assert forall i :: 0 <= i < |a + b| ==> (a + b)[i] == if i < |a| then a[i] else b[i - |a|];
    if a != [] {
      assert (a + b)[1..] == a[1..] + b;
      assert Groupable(a[1..], keep, key, value) by {
        forall i | 0 <= i < |a[1..]| && keep(a[1..][i])
          ensures key.requires(a[1..][i]) && value.requires(a[1..][i])
        {
          assert a[1..][i] == a[i + 1];
        }
      }
      GroupAppend(a[1..], b, keep, key, value, k);
    } else {
      assert a + b == b;
    }
  }

  /** A key has a non-empty group exactly when a kept row carries it. */
  lemma {:induction false} GroupNonEmpty<V>(rows: seq<Row>, keep: Row -> bool, key: Row --> string, value: Row --> V, k: string)
    requires Groupable(rows, keep, key, value)
    ensures Group(rows, keep, key, value, k) != [] <==> k in GroupKeys(rows, keep, key, value)
    decreases |rows|
  {
    if rows != [] {
      var tail := rows[1..];
      assert Groupable(tail, keep, key, value) by {
        forall i | 0 <= i < |tail| && keep(tail[i])
          ensures key.requires(tail[i]) && value.requires(tail[i])
        {
          assert tail[i] == rows[i + 1];
        }
      }
      GroupNonEmpty(tail, keep, key, value, k);
      if k in GroupKeys(tail, keep, key, value) {
        var i :| 0 <= i < |tail| && keep(tail[i]) && key(tail[i]) == k;
        assert rows[i + 1] == tail[i];
      }
      if k in GroupKeys(rows, keep, key, value) {
        var i :| 0 <= i < |rows| && keep(rows[i]) && key(rows[i]) == k;
        if i > 0 {
          assert tail[i - 1] == rows[i];
        }
      }
    }
  }

  /** The keys after one more row: its key is added if the row is kept. */
  lemma {:induction false} GroupKeysAppendOne<V>(rows: seq<Row>, row: Row, keep: Row -> bool, key: Row --> string, value: Row --> V)
    requires Groupable(rows, keep, key, value)
    requires keep(row) ==> key.requires(row) && value.requires(row)
    ensures Groupable(rows + [row], keep, key, value)
    ensures GroupKeys(rows + [row], keep, key, value) ==
            if keep(row) then GroupKeys(rows, keep, key, value) + {key(row)} else GroupKeys(rows, keep, key, value)
  {
    var all := rows + [row];
    assert forall i :: 0 <= i < |rows| ==> all[i] == rows[i];
    assert all[|rows|] == row;
  }

  /** Adding one row to a grouped index appends its value to its key's list,
      creating the list on first sight of the key. */
  lemma {:induction false} GroupAllStep<V>(init: map<string, seq<V>>, rows: seq<Row>, row: Row, keep: Row -> bool, key: Row --> string, value: Row --> V)
    requires Groupable(rows, keep, key, value)
    requires keep(row) ==> key.requires(row) && value.requires(row)
    ensures Groupable(rows + [row], keep, key, value)
    ensures GroupAll(init, rows + [row], keep, key, value) ==
            var m := GroupAll(init, rows, keep, key, value);
            if keep(row) then m[key(row) := Lookup(m, key(row)) + [value(row)]] else m
  {
    GroupKeysAppendOne(rows, row, keep, key, value);
    var m := GroupAll(init, rows, keep, key, value);
    var m' := GroupAll(init, rows + [row], keep, key, value);
    var t := if keep(row) then m[key(row) := Lookup(m, key(row)) + [value(row)]] else m;
    assert m'.Keys == t.Keys by {
      assert m.Keys == init.Keys + GroupKeys(rows, keep, key, value);
      assert m'.Keys == init.Keys + GroupKeys(rows + [row], keep, key, value);
    }
    forall k | k in m'
      ensures k in t && m'[k] == t[k]
    {
      GroupValueStep(init, rows, row, keep, key, value, k);
      if k !in m {
        GroupNonEmpty(rows, keep, key, value, k);
      }
    }
    assert m' == t;
  }

  /** One key's list after one more row. */
  lemma {:induction false} GroupValueStep<V>(init: map<string, seq<V>>, rows: seq<Row>, row: Row, keep: Row -> bool, key: Row --> string, value: Row --> V, k: string)
    requires Groupable(rows, keep, key, value)
    requires keep(row) ==> key.requires(row) && value.requires(row)
    ensures Groupable(rows + [row], keep, key, value)
    ensures Lookup(init, k) + Group(rows + [row], keep, key, value, k) ==
            Lookup(init, k) + Group(rows, keep, key, value, k) + (if keep(row) && key(row) == k then [value(row)] else [])
  {
    GroupAppend(rows, [row], keep, key, value, k);
    assert Group([row], keep, key, value, k) == if keep(row) && key(row) == k then [value(row)] else [];
  }

  /** Grouping no rows leaves the index as it was. */
  lemma GroupAllNoRows<V>(init: map<string, seq<V>>, keep: Row -> bool, key: Row --> string, value: Row --> V)
    ensures GroupAll(init, [], keep, key, value) == init
  {
    assert GroupKeys([], keep, key, value) == {};
    forall k | k in init
      ensures Lookup(init, k) + Group([], keep, key, value, k) == init[k]
    {
      assert Group([], keep, key, value, k) == [];
    }
  }
}
