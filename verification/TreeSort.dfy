/** Sorting the rows before building: a stable sort, and what it does to the siblings at every level. */
module TreeSort {
  import opened BuildTree
  import opened Options

  predicate Sorted(rows: seq<Row>) {
    forall j, k :: 0 <= j < k < |rows| ==> rows[j].key <= rows[k].key
  }

  /** Puts r behind every row that does not sort after it. */
  function Insert(rows: seq<Row>, r: Row): seq<Row> {
    if rows == [] || rows[|rows| - 1].key <= r.key then rows + [r]
    else Insert(rows[..|rows| - 1], r) + [rows[|rows| - 1]]
  }

  function StableSort(rows: seq<Row>): seq<Row> {
    if rows == [] then [] else Insert(StableSort(rows[..|rows| - 1]), rows[|rows| - 1])
  }

  function Keep(rows: seq<Row>, f: Row -> bool): seq<Row> {
    if rows == [] then []
    else
      var n := |rows| - 1;
      if f(rows[n]) then Keep(rows[..n], f) + [rows[n]] else Keep(rows[..n], f)
  }

  lemma {:induction false} InsertAdds(rows: seq<Row>, r: Row)
    ensures multiset(Insert(rows, r)) == multiset(rows) + multiset{r}
  {
    if !(rows == [] || rows[|rows| - 1].key <= r.key) {
      var n := |rows| - 1;
      InsertAdds(rows[..n], r);
      assert rows == rows[..n] + [rows[n]];
    }
  }

  lemma {:induction false} InsertSorted(rows: seq<Row>, r: Row)
    requires Sorted(rows)
    ensures Sorted(Insert(rows, r))
  {
    if !(rows == [] || rows[|rows| - 1].key <= r.key) {
      var n := |rows| - 1;
      InsertSorted(rows[..n], r);
      InsertAdds(rows[..n], r);
      forall x | x in Insert(rows[..n], r) ensures x.key <= rows[n].key {
        assert x in multiset(rows[..n]) + multiset{r};
      }
    }
  }

  lemma {:induction false} SortSorts(rows: seq<Row>)
    ensures Sorted(StableSort(rows))
  {
    if rows != [] {
      var n := |rows| - 1;
      SortSorts(rows[..n]);
      InsertSorted(StableSort(rows[..n]), rows[n]);
    }
  }

  lemma {:induction false} SortRearranges(rows: seq<Row>)
    ensures multiset(StableSort(rows)) == multiset(rows)
  {
    if rows != [] {
      var n := |rows| - 1;
      SortRearranges(rows[..n]);
      InsertAdds(StableSort(rows[..n]), rows[n]);
      assert rows == rows[..n] + [rows[n]];
    }
  }

  /** The sort orders the rows by key and only rearranges them. */
  lemma SortOrders(rows: seq<Row>)
    ensures Sorted(StableSort(rows)) && multiset(StableSort(rows)) == multiset(rows)
  {
    SortSorts(rows);
    SortRearranges(rows);
  }

  lemma KeepSnoc(rows: seq<Row>, r: Row, f: Row -> bool)
    ensures Keep(rows + [r], f) == if f(r) then Keep(rows, f) + [r] else Keep(rows, f)
  {
    assert (rows + [r])[..|rows|] == rows;
  }

  lemma {:induction false} KeepIn(rows: seq<Row>, f: Row -> bool)
    ensures forall x :: x in Keep(rows, f) ==> x in rows && f(x)
  {
    if rows != [] {
      KeepIn(rows[..|rows| - 1], f);
    }
  }

  lemma InsertLast(rows: seq<Row>, r: Row)
    requires forall x :: x in rows ==> x.key <= r.key
    ensures Insert(rows, r) == rows + [r]
  {
  }

  lemma InsertBefore(rows: seq<Row>, r: Row, last: Row)
    requires r.key < last.key
    ensures Insert(rows + [last], r) == Insert(rows, r) + [last]
  {
    assert (rows + [last])[..|rows|] == rows;
  }

  lemma {:induction false} KeepInsert(rows: seq<Row>, r: Row, f: Row -> bool)
    requires Sorted(rows)
    ensures Keep(Insert(rows, r), f) == if f(r) then Insert(Keep(rows, f), r) else Keep(rows, f)
  {
    if rows == [] || rows[|rows| - 1].key <= r.key {
      KeepSnoc(rows, r, f);
      KeepIn(rows, f);
      InsertLast(Keep(rows, f), r);
    } else {
      var n := |rows| - 1;
      var last := rows[n];
      assert rows == rows[..n] + [last];
      KeepInsert(rows[..n], r, f);
      KeepSnoc(rows[..n], last, f);
      KeepSnoc(Insert(rows[..n], r), last, f);
      InsertBefore(Keep(rows[..n], f), r, last);
    }
  }

  /** Sorting commutes with selecting: the selected rows of the sorted list are the sorted selected rows. */
  lemma {:induction false} SortKeep(rows: seq<Row>, f: Row -> bool)
    ensures Keep(StableSort(rows), f) == StableSort(Keep(rows, f))
  {
    if rows != [] {
      var n := |rows| - 1;
      assert rows == rows[..n] + [rows[n]];
      SortKeep(rows[..n], f);
      SortOrders(rows[..n]);
      KeepInsert(StableSort(rows[..n]), rows[n], f);
      KeepSnoc(rows[..n], rows[n], f);
      if f(rows[n]) {
        var kept := Keep(rows[..n], f);
        assert (kept + [rows[n]])[..|kept|] == kept;
      }
    }
  }

  lemma {:induction false} SortOfEquals(rows: seq<Row>, key: int)
    requires forall x :: x in rows ==> x.key == key
    ensures StableSort(rows) == rows
  {
    if rows != [] {
      var n := |rows| - 1;
      SortOfEquals(rows[..n], key);
      assert rows == rows[..n] + [rows[n]];
      InsertLast(rows[..n], rows[n]);
    }
  }

  /** Stable: rows with the same key keep their order. */
  lemma SortIsStable(rows: seq<Row>, key: int)
    ensures Keep(StableSort(rows), (r: Row) => r.key == key) == Keep(rows, (r: Row) => r.key == key)
  {
    var f := (r: Row) => r.key == key;
    SortKeep(rows, f);
    KeepIn(rows, f);
    SortOfEquals(Keep(rows, f), key);
  }

  // ---------------------------------------------------------------- siblings

  lemma SameIds(rows: seq<Row>, id: int)
    ensures HasId(StableSort(rows), id) <==> HasId(rows, id)
  {
    SortOrders(rows);
    var sorted := StableSort(rows);
    if k :| 0 <= k < |rows| && rows[k].id == id {
      assert rows[k] in multiset(rows) && rows[k] in multiset(sorted);
      var j :| 0 <= j < |sorted| && sorted[j] == rows[k];
    }
    if k :| 0 <= k < |sorted| && sorted[k].id == id {
      assert sorted[k] in multiset(sorted) && sorted[k] in multiset(rows);
      var j :| 0 <= j < |rows| && rows[j] == sorted[k];
    }
  }

  lemma {:induction false} FilterIsKeep(all: seq<Row>, n: nat, up: Option<int>)
    requires n <= |all|
    ensures Filter(Adopted(all)[..n], up) == Keep(all[..n], (r: Row) => HangsUnder(all, r) == up)
    decreases n
  {
    if n > 0 {
      FilterIsKeep(all, n - 1, up);
      assert Adopted(all)[..n][..n - 1] == Adopted(all)[..n - 1];
      assert all[..n][..n - 1] == all[..n - 1];
    }
  }

  lemma {:induction false} KeepSame(rows: seq<Row>, f: Row -> bool, g: Row -> bool)
    requires forall r: Row :: f(r) == g(r)
    ensures Keep(rows, f) == Keep(rows, g)
  {
    if rows != [] {
      KeepSame(rows[..|rows| - 1], f, g);
    }
  }

  /** At every level the siblings of the forest built from sorted rows are the original siblings, stably sorted. */
  lemma SiblingsStablySorted(rows: seq<Row>, up: Option<int>)
    ensures Filter(Adopted(StableSort(rows)), up) == StableSort(Filter(Adopted(rows), up))
  {
    var sorted := StableSort(rows);
    FilterIsKeep(sorted, |sorted|, up);
    FilterIsKeep(rows, |rows|, up);
    assert Adopted(sorted)[..|sorted|] == Adopted(sorted) && sorted[..|sorted|] == sorted;
    assert Adopted(rows)[..|rows|] == Adopted(rows) && rows[..|rows|] == rows;
    var f := (r: Row) => HangsUnder(sorted, r) == up;
    var g := (r: Row) => HangsUnder(rows, r) == up;
    forall r: Row ensures f(r) == g(r) {
      if r.parentId.Some? {
        SameIds(rows, r.parentId.value);
      }
    }
    KeepSame(sorted, f, g);
    SortKeep(rows, g);
  }

  lemma TwicePresent(rows: seq<Row>, j: nat, k: nat)
    requires j < k < |rows|
    ensures rows[j] == rows[k] ==> multiset(rows)[rows[j]] >= 2
  {
    assert rows == rows[..k] + rows[k..];
    assert rows[j] in rows[..k] && rows[k] in rows[k..];
    assert multiset(rows) == multiset(rows[..k]) + multiset(rows[k..]);
  }

  lemma SortedRowIsRow(rows: seq<Row>, j: nat) returns (k: nat)
    requires j < |rows|
    ensures k < |rows| && |StableSort(rows)| == |rows| && rows[k] == StableSort(rows)[j]
  {
    var sorted := StableSort(rows);
    SortOrders(rows);
    assert |sorted| == |multiset(sorted)| == |multiset(rows)| == |rows|;
    assert sorted[j] in multiset(sorted) && sorted[j] in multiset(rows);
    k :| 0 <= k < |rows| && rows[k] == sorted[j];
  }

  lemma SortKeepsUnique(rows: seq<Row>)
    requires UniqueRows(rows)
    ensures UniqueRows(StableSort(rows))
  {
    var sorted := StableSort(rows);
    SortOrders(rows);
    assert |sorted| == |multiset(sorted)| == |multiset(rows)| == |rows|;
    forall j, k | 0 <= j < k < |sorted| ensures sorted[j].id != sorted[k].id {
      UniqueCount(rows, sorted[j]);
      TwicePresent(sorted, j, k);
      var a := SortedRowIsRow(rows, j);
      var b := SortedRowIsRow(rows, k);
    }
  }

  lemma LinksSubset(a: seq<Row>, b: seq<Row>)
    requires forall r :: r in a ==> r in b
    ensures Links(AsNamed(a)) <= Links(AsNamed(b))
  {
    forall e | e in Links(AsNamed(a)) ensures e in Links(AsNamed(b)) {
      var k :| 0 <= k < |a| && e == (a[k].parentId, Some(a[k].id));
      assert a[k] in a && a[k] in b;
      var j :| 0 <= j < |b| && b[j] == a[k];
      LinkAt(AsNamed(b), AsNamed(b)[j]);
    }
  }

  lemma SortKeepsLinks(rows: seq<Row>)
    ensures Links(AsNamed(StableSort(rows))) == Links(AsNamed(rows))
  {
    var sorted := StableSort(rows);
    SortOrders(rows);
    assert forall r :: r in sorted <==> r in multiset(sorted);
    assert forall r :: r in rows <==> r in multiset(rows);
    LinksSubset(rows, sorted);
    LinksSubset(sorted, rows);
  }
}
