/** Maps listed as rows, highest rank first, with nothing left out or repeated. */
module Ranking {
  import opened Sequences
  import opened Sums

  datatype Row<V> = Row(key: string, value: V)

  /** `rows` are the bindings of `m`, each once. */
  ghost predicate Lists<V>(rows: seq<Row<V>>, m: map<string, V>) {
    (forall i :: 0 <= i < |rows| ==> rows[i].key in m && m[rows[i].key] == rows[i].value) &&
    (forall i, j :: 0 <= i < j < |rows| ==> rows[i].key != rows[j].key) &&
    (forall k :: k in m ==> Keyed(rows, k))
  }

  predicate Descending<V>(rows: seq<Row<V>>, rank: V -> real) {
    forall i, j :: 0 <= i < j < |rows| ==> rank(rows[j].value) <= rank(rows[i].value)
  }

  /** A stable insertion: behind the rows that rank as high. */
  function InsertRow<V>(row: Row<V>, rows: seq<Row<V>>, rank: V -> real): seq<Row<V>>
    decreases |rows|
  {
    if rows == [] then [row]
    else if rank(rows[|rows| - 1].value) < rank(row.value) then
      InsertRow(row, rows[..|rows| - 1], rank) + [rows[|rows| - 1]]
    else rows + [row]
  }

  function Inserted<V>(rows: seq<Row<V>>, n: nat, row: Row<V>): seq<Row<V>>
    requires n <= |rows|
  {
    rows[..n] + ([row] + rows[n..])
  }

  lemma CutOff<T>(s: seq<T>, n: nat)
    requires n < |s|
    ensures s[n..] == s[..|s| - 1][n..] + [s[|s| - 1]] && s[..n] == s[..|s| - 1][..n]
  {
  }

  lemma {:induction false} InsertKeeps<V>(row: Row<V>, rows: seq<Row<V>>, rank: V -> real) returns (n: nat)
    requires Descending(rows, rank)
    ensures n <= |rows| && InsertRow(row, rows, rank) == Inserted(rows, n, row)
    ensures forall i :: 0 <= i < n ==> rank(row.value) <= rank(rows[i].value)
    ensures forall i :: n <= i < |rows| ==> rank(rows[i].value) < rank(row.value)
    decreases |rows|
  {
    n := |rows|;
    if rows != [] {
      var front, last := rows[..|rows| - 1], rows[|rows| - 1];
      if rank(last.value) < rank(row.value) {
        n := InsertKeeps(row, front, rank);
        CutOff(rows, n);
        Regroup(front[..n], [row] + front[n..], [last]);
        Regroup([row], front[n..], [last]);
      }
    }
  }

  lemma InsertedAt<V>(rows: seq<Row<V>>, n: nat, row: Row<V>)
    requires n <= |rows|
    ensures var more := Inserted(rows, n, row);
            |more| == |rows| + 1 && more[n] == row &&
            (forall i :: 0 <= i < n ==> more[i] == rows[i]) &&
            (forall i :: n < i < |more| ==> more[i] == rows[i - 1])
  {
  }

  predicate Keyed<V>(rows: seq<Row<V>>, k: string) {
    exists i :: 0 <= i < |rows| && rows[i].key == k
  }

  lemma ListsMore<V>(rows: seq<Row<V>>, m: map<string, V>, k: string, v: V, n: nat)
    requires Lists(rows, m) && k !in m && n <= |rows|
    ensures Lists(Inserted(rows, n, Row(k, v)), m[k := v])
  {
    var more := Inserted(rows, n, Row(k, v));
    InsertedAt(rows, n, Row(k, v));
    forall x | x in m[k := v] ensures Keyed(more, x) {
      if x == k {
        assert more[n].key == x;
      } else {
        assert Keyed(rows, x);
        var j :| 0 <= j < |rows| && rows[j].key == x;
        assert more[if j < n then j else j + 1].key == x;
      }
    }
  }

  lemma DescendingMore<V>(rows: seq<Row<V>>, n: nat, row: Row<V>, rank: V -> real)
    requires Descending(rows, rank) && n <= |rows|
    requires forall i :: 0 <= i < n ==> rank(row.value) <= rank(rows[i].value)
    requires forall i :: n <= i < |rows| ==> rank(rows[i].value) < rank(row.value)
    ensures Descending(Inserted(rows, n, row), rank)
  {
    InsertedAt(rows, n, row);
  }

  /** The bindings of a map in whatever order it yields them, then sorted. */
  method Ranked<V>(m: map<string, V>, rank: V -> real) returns (rows: seq<Row<V>>)
    ensures Lists(rows, m) && Descending(rows, rank)
  {
    rows := [];
    var left := m.Keys;
    ghost var done: map<string, V> := map[];
    while left != {}
      invariant left <= m.Keys && done.Keys == m.Keys - left
      invariant forall k :: k in done ==> done[k] == m[k]
      invariant Lists(rows, done) && Descending(rows, rank)
      decreases |left|
    {
      var k :| k in left;
      var more := InsertRow(Row(k, m[k]), rows, rank);
      ghost var n := InsertKeeps(Row(k, m[k]), rows, rank);
      ListsMore(rows, done, k, m[k], n);
      DescendingMore(rows, n, Row(k, m[k]), rank);
      rows, left, done := more, left - {k}, done[k := m[k]];
    }
    assert done == m;
  }

  // ----------------------------------------------------------------- adding a list up

  lemma FrontLists<V>(rows: seq<Row<V>>, m: map<string, V>)
    requires Lists(rows, m) && rows != []
    ensures Lists(rows[..|rows| - 1], m - {rows[|rows| - 1].key})
  {
    var front, last := rows[..|rows| - 1], rows[|rows| - 1];
    forall k | k in m - {last.key} ensures Keyed(front, k) {
      assert Keyed(rows, k);
      var i :| 0 <= i < |rows| && rows[i].key == k;
      assert i < |front| && front[i].key == k;
    }
  }

  function Amounts<V>(m: map<string, V>, amount: V -> real): map<string, real> {
    map k | k in m :: amount(m[k])
  }

  function Counts<V>(m: map<string, V>, count: V -> nat): map<string, nat> {
    map k | k in m :: count(m[k])
  }

  function OfRow<V, T>(f: V -> T): Row<V> -> T {
    (row: Row<V>) => f(row.value)
  }

  /** The rows of a list add up to what the map holds. */
  lemma {:induction false} ListTotal<V>(rows: seq<Row<V>>, m: map<string, V>, amount: V -> real)
    requires Lists(rows, m)
    ensures SumReal(OfRow(amount), rows) == Total(Amounts(m, amount))
    decreases |rows|
  {
    if rows == [] {
      assert m == map[];
    } else {
      var k := rows[|rows| - 1].key;
      FrontLists(rows, m);
      ListTotal(rows[..|rows| - 1], m - {k}, amount);
      TotalWithout(Amounts(m, amount), k);
      assert Amounts(m, amount) - {k} == Amounts(m - {k}, amount);
    }
  }

  lemma {:induction false} ListCount<V>(rows: seq<Row<V>>, m: map<string, V>, count: V -> nat)
    requires Lists(rows, m)
    ensures SumInt(OfRow(count), rows) == TotalCount(Counts(m, count))
    decreases |rows|
  {
    if rows == [] {
      assert m == map[];
    } else {
      var k := rows[|rows| - 1].key;
      FrontLists(rows, m);
      ListCount(rows[..|rows| - 1], m - {k}, count);
      TotalCountWithout(Counts(m, count), k);
      assert Counts(m, count) - {k} == Counts(m - {k}, count);
    }
  }
}
