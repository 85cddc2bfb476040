/** What nested serialization means: which child is listed under which parent, and in which order. */
module NestedRecords {
  import opened Digraph
  import opened Options
  import opened RelationText
  import opened Serializers
  import opened Texts

  /** The rows of a SELECT over distinct entity classes: one column per class. */
  predicate Typed(rows: seq<Row>, layout: seq<string>) {
    && (forall j, k :: 0 <= j < k < |layout| ==> layout[j] != layout[k])
    && (forall i :: 0 <= i < |rows| ==> TypedRow(rows[i], layout))
  }

  predicate TypedRow(row: Row, layout: seq<string>) {
    && |row| == |layout|
    && (forall j :: 0 <= j < |row| && row[j].Some? ==> row[j].value.cls == layout[j])
  }

  ghost predicate OneSource(plan: Plan) {
    forall e :: e in EdgesOf(plan.graph) ==> e.1 in plan.reverse && plan.reverse[e.1] == e.0
  }

  /** No later relation of the class has the field key of relation j. */
  predicate LastWithKey(plan: Plan, s: string, j: nat)
    requires j < |Targets(plan.graph, s)|
  {
    forall k :: j < k < |Targets(plan.graph, s)| ==> KeyAt(plan, s, k) != KeyAt(plan, s, j)
  }

  function KeyAt(plan: Plan, s: string, j: nat): string
    requires j < |Targets(plan.graph, s)|
  {
    RelationKey(plan, s, Targets(plan.graph, s)[j].0, Targets(plan.graph, s)[j].1)
  }

  /** The row belongs to the main object and carries both the parent and the child. */
  ghost predicate Carries(row: Row, main: int, parent: string, pid: int, child: Obj) {
    && MainRow(row, main)
    && (exists j :: 1 <= j < |row| && row[j] == Some(child))
    && (exists k :: 0 <= k < |row| && row[k].Some? && row[k].value.cls == parent && row[k].value.id == Some(pid))
  }

  /** Row n is the first one that carries the parent together with this child's id, and carries this object. */
  ghost predicate FirstCarrier(rows: seq<Row>, main: int, parent: string, pid: int, child: Obj, n: nat) {
    && n < |rows|
    && Carries(rows[n], main, parent, pid, child)
    && (forall i, o :: 0 <= i < n && Carries(rows[i], main, parent, pid, o) && o.cls == child.cls ==> o.id != child.id)
  }

  /**
   * The list holds exactly the children of one class that some row carries with the parent, each id once,
   * as the object of its first row, in the order of those first rows.
   */
  ghost predicate Exact(rows: seq<Row>, main: int, parent: string, pid: int, cls: string, objs: seq<Obj>) {
    && (exists firsts: seq<nat> :: Increasing(firsts) && Firsts(rows, main, parent, pid, cls, objs, firsts))
    && AllSeen(rows, main, parent, pid, cls, objs)
  }

  ghost predicate AllSeen(rows: seq<Row>, main: int, parent: string, pid: int, cls: string, objs: seq<Obj>) {
    forall i, o :: 0 <= i < |rows| && Carries(rows[i], main, parent, pid, o) && o.cls == cls && o.id.Some? ==>
      o.id.value in IdsOf(objs)
  }

  predicate Increasing(firsts: seq<nat>) {
    forall j, k :: 0 <= j < k < |firsts| ==> firsts[j] < firsts[k]
  }

  ghost predicate Firsts(rows: seq<Row>, main: int, parent: string, pid: int, cls: string, objs: seq<Obj>,
                         firsts: seq<nat>)
  {
    && |firsts| == |objs|
    && (forall k :: 0 <= k < |objs| ==> objs[k].cls == cls && objs[k].id.Some?)
    && (forall k :: 0 <= k < |objs| ==> FirstCarrier(rows, main, parent, pid, objs[k], firsts[k]))
  }

  // ---------------------------------------------------------------- the columns of a typed result

  predicate Fits(idxs: map<string, nat>, layout: seq<string>) {
    forall c :: c in idxs ==> idxs[c] < |layout| && layout[idxs[c]] == c
  }

  lemma {:induction false} NoteColumnsFits(idxs: map<string, nat>, row: Row, n: nat, layout: seq<string>)
    requires Fits(idxs, layout) && TypedRow(row, layout) && n <= |row|
    ensures Fits(NoteColumns(idxs, row, n), layout)
    ensures idxs.Keys <= NoteColumns(idxs, row, n).Keys
    ensures forall j :: 0 <= j < n && row[j].Some? ==> row[j].value.cls in NoteColumns(idxs, row, n)
  {
    if n > 0 {
      NoteColumnsFits(idxs, row, n - 1, layout);
    }
  }

  lemma {:induction false} ColumnsFit(rows: seq<Row>, layout: seq<string>)
    requires Typed(rows, layout)
    ensures Fits(ColumnsOf(rows), layout)
    ensures forall i, j :: 0 <= i < |rows| && 0 <= j < |rows[i]| && rows[i][j].Some? ==>
              rows[i][j].value.cls in ColumnsOf(rows)
  {
    if rows != [] {
      var n := |rows| - 1;
      ColumnsFit(rows[..n], layout);
      NoteColumnsFits(ColumnsOf(rows[..n]), rows[n], |rows[n]|, layout);
      forall i, j | 0 <= i < |rows| && 0 <= j < |rows[i]| && rows[i][j].Some?
        ensures rows[i][j].value.cls in ColumnsOf(rows)
      {
        if i < n {
          assert rows[..n][i] == rows[i];
        }
      }
    }
  }

  predicate InRow(row: Row, cls: string, j: nat) {
    j < |row| && row[j].Some? && row[j].value.cls == cls
  }

  predicate HasClass(row: Row, cls: string) {
    exists j :: 0 <= j < |row| && InRow(row, cls, j)
  }

  lemma {:induction false} NoteColumnsExactly(idxs: map<string, nat>, row: Row, n: nat, cls: string)
    requires n <= |row|
    ensures cls in idxs ==> cls in NoteColumns(idxs, row, n) && NoteColumns(idxs, row, n)[cls] == idxs[cls]
    ensures cls !in NoteColumns(idxs, row, n) ==> forall j :: 0 <= j < n ==> !InRow(row, cls, j)
    ensures cls !in idxs && cls in NoteColumns(idxs, row, n) ==>
      var c := NoteColumns(idxs, row, n)[cls];
      c < n && InRow(row, cls, c) && forall j :: 0 <= j < c ==> !InRow(row, cls, j)
  {
    if n > 0 {
      NoteColumnsExactly(idxs, row, n - 1, cls);
    }
  }

  /** This is where the class is seen first, row by row and from left to right. */
  predicate FirstSeen(rows: seq<Row>, cls: string, i: nat, column: nat) {
    && i < |rows| && InRow(rows[i], cls, column)
    && (forall j :: 0 <= j < column ==> !InRow(rows[i], cls, j))
    && (forall k :: 0 <= k < i ==> !HasClass(rows[k], cls))
  }

  /** The column of a class is the one in which it is seen first. */
  lemma {:induction false} ColumnsExactly(rows: seq<Row>, cls: string) returns (i: nat)
    ensures cls in ColumnsOf(rows) <==> exists k :: 0 <= k < |rows| && HasClass(rows[k], cls)
    ensures cls in ColumnsOf(rows) ==> FirstSeen(rows, cls, i, ColumnsOf(rows)[cls])
  {
    i := 0;
    if rows != [] {
      var n := |rows| - 1;
      var front := rows[..n];
      i := ColumnsExactly(front, cls);
      NoteColumnsExactly(ColumnsOf(front), rows[n], |rows[n]|, cls);
      assert forall k :: 0 <= k < n ==> rows[k] == front[k];
      if cls in ColumnsOf(front) {
        assert HasClass(rows[i], cls);
      } else {
        i := n;
        if cls in ColumnsOf(rows) {
          assert HasClass(rows[n], cls);
        }
      }
    }
  }

  lemma {:induction false} OfClassNone(items: seq<Option<Obj>>, cls: string)
    requires forall j :: 0 <= j < |items| && items[j].Some? ==> items[j].value.cls != cls
    ensures OfClass(items, cls) == []
  {
    if items != [] {
      OfClassNone(items[..|items| - 1], cls);
    }
  }

  lemma {:induction false} OfClassTyped(items: seq<Option<Obj>>, layout: seq<string>, cls: string)
    requires |items| == |layout|
    requires forall j, k :: 0 <= j < k < |layout| ==> layout[j] != layout[k]
    requires forall j :: 0 <= j < |items| && items[j].Some? ==> items[j].value.cls == layout[j]
    ensures |OfClass(items, cls)| <= 1
    ensures forall o :: o in OfClass(items, cls) ==> o.cls == cls && exists j :: 0 <= j < |items| && items[j] == Some(o)
    ensures forall j :: 0 <= j < |items| && items[j].Some? && items[j].value.cls == cls ==>
              OfClass(items, cls) == [items[j].value]
  {
    if items != [] {
      var n := |items| - 1;
      OfClassTyped(items[..n], layout[..n], cls);
      assert forall j :: 0 <= j < n ==> items[..n][j] == items[j];
      if items[n].Some? && items[n].value.cls == cls {
        assert forall o :: o in OfClass(items[..n], cls) ==> o.cls == cls;
        OfClassNone(items[..n], cls);
      }
      forall o | o in OfClass(items, cls) ensures exists j :: 0 <= j < |items| && items[j] == Some(o) {
        if o in OfClass(items[..n], cls) {
          var j :| 0 <= j < n && items[..n][j] == Some(o);
          assert items[j] == Some(o);
        } else {
          assert items[n] == Some(o);
        }
      }
    }
  }

  /** In a typed row the children of a parent are at most one object, namely the one carried with it. */
  lemma RowKidsTyped(plan: Plan, idxs: map<string, nat>, row: Row, layout: seq<string>, main: int,
                     parent: string, pid: int, cls: string)
    requires TypedRow(row, layout) && Typed([], layout) && Fits(idxs, layout) && parent in idxs
    requires cls in plan.reverse && plan.reverse[cls] == parent
    ensures var kids := RowKids(plan, idxs, row, main, cls, pid);
      && |kids| <= 1
      && (forall o :: o in kids ==> o.cls == cls && Carries(row, main, parent, pid, o))
      && (forall o :: Carries(row, main, parent, pid, o) && o.cls == cls ==> kids == [o])
  {
    if row != [] {
      OfClassTyped(row[1..], layout[1..], cls);
      var kids := RowKids(plan, idxs, row, main, cls, pid);
      forall o | o in kids ensures Carries(row, main, parent, pid, o) {
        var j :| 0 <= j < |row[1..]| && row[1..][j] == Some(o);
        assert row[j + 1] == Some(o);
        assert row[idxs[parent]].Some?;
      }
      forall o | Carries(row, main, parent, pid, o) && o.cls == cls ensures kids == [o] {
        var j :| 1 <= j < |row| && row[j] == Some(o);
        var k :| 0 <= k < |row| && row[k].Some? && row[k].value.cls == parent && row[k].value.id == Some(pid);
        assert layout[k] == layout[idxs[parent]];
        assert row[1..][j - 1] == Some(o);
      }
    }
  }

  // ---------------------------------------------------------------- the list of children is exact

  lemma FirstCarrierGrows(rows: seq<Row>, row: Row, main: int, parent: string, pid: int, child: Obj, n: nat)
    requires FirstCarrier(rows, main, parent, pid, child, n)
    ensures FirstCarrier(rows + [row], main, parent, pid, child, n)
  {
    assert forall i :: 0 <= i < |rows| ==> (rows + [row])[i] == rows[i];
  }

  /** A new last row carries first what no row before it carries. */
  lemma LastCarriesFirst(rows: seq<Row>, row: Row, main: int, parent: string, pid: int, objs: seq<Obj>, o: Obj)
    requires Exact(rows, main, parent, pid, o.cls, objs)
    requires Carries(row, main, parent, pid, o) && o.id.Some? && o.id.value !in IdsOf(objs)
    ensures FirstCarrier(rows + [row], main, parent, pid, o, |rows|)
  {
    var all := rows + [row];
    assert all[|rows|] == row;
    assert forall i :: 0 <= i < |rows| ==> all[i] == rows[i];
  }

  lemma AllSeenSnoc(rows: seq<Row>, row: Row, main: int, parent: string, pid: int, cls: string,
                    objs: seq<Obj>, o: Obj)
    requires Exact(rows, main, parent, pid, cls, objs) && o.id.Some?
    requires forall p :: Carries(row, main, parent, pid, p) && p.cls == cls ==> p == o
    ensures AllSeen(rows + [row], main, parent, pid, cls, objs + [o])
  {
    var all := rows + [row];
    IdsSnoc(objs, o);
    forall i, p | 0 <= i < |all| && Carries(all[i], main, parent, pid, p) && p.cls == cls && p.id.Some?
      ensures p.id.value in IdsOf(objs + [o])
    {
      assert i < |rows| ==> all[i] == rows[i];
    }
  }

  lemma FirstsLonger(rows: seq<Row>, row: Row, main: int, parent: string, pid: int, cls: string,
                     objs: seq<Obj>, firsts: seq<nat>, o: Obj)
    requires Increasing(firsts) && Firsts(rows, main, parent, pid, cls, objs, firsts) && o.cls == cls && o.id.Some?
    requires FirstCarrier(rows + [row], main, parent, pid, o, |rows|)
    ensures Increasing(firsts + [|rows|])
    ensures Firsts(rows + [row], main, parent, pid, cls, objs + [o], firsts + [|rows|])
  {
    forall k | 0 <= k < |objs|
      ensures firsts[k] < |rows| && FirstCarrier(rows + [row], main, parent, pid, objs[k], firsts[k])
    {
      FirstCarrierGrows(rows, row, main, parent, pid, objs[k], firsts[k]);
    }
  }

  lemma FirstsSnoc(rows: seq<Row>, row: Row, main: int, parent: string, pid: int, cls: string,
                   objs: seq<Obj>, o: Obj)
    requires Exact(rows, main, parent, pid, cls, objs)
    requires Carries(row, main, parent, pid, o) && o.cls == cls && o.id.Some? && o.id.value !in IdsOf(objs)
    requires forall p :: Carries(row, main, parent, pid, p) && p.cls == cls ==> p == o
    ensures Exact(rows + [row], main, parent, pid, cls, objs + [o])
  {
    var firsts: seq<nat> :| Increasing(firsts) && Firsts(rows, main, parent, pid, cls, objs, firsts);
    LastCarriesFirst(rows, row, main, parent, pid, objs, o);
    FirstsLonger(rows, row, main, parent, pid, cls, objs, firsts, o);
    AllSeenSnoc(rows, row, main, parent, pid, cls, objs, o);
  }

  lemma FirstsKeep(rows: seq<Row>, row: Row, main: int, parent: string, pid: int, cls: string, objs: seq<Obj>)
    requires Exact(rows, main, parent, pid, cls, objs)
    requires forall p :: Carries(row, main, parent, pid, p) && p.cls == cls && p.id.Some? ==> p.id.value in IdsOf(objs)
    ensures Exact(rows + [row], main, parent, pid, cls, objs)
  {
    var all := rows + [row];
    var firsts: seq<nat> :| Increasing(firsts) && Firsts(rows, main, parent, pid, cls, objs, firsts);
    forall k | 0 <= k < |objs| ensures FirstCarrier(all, main, parent, pid, objs[k], firsts[k]) {
      FirstCarrierGrows(rows, row, main, parent, pid, objs[k], firsts[k]);
    }
    assert Firsts(all, main, parent, pid, cls, objs, firsts);
    forall i, p | 0 <= i < |all| && Carries(all[i], main, parent, pid, p) && p.cls == cls && p.id.Some?
      ensures p.id.value in IdsOf(objs)
    {
      assert i < |rows| ==> all[i] == rows[i];
    }
  }

  lemma {:induction false} UniqueIds(objs: seq<Obj>)
    ensures IdsOf(Unique(objs)) == IdsOf(objs)
  {
    if objs != [] {
      var n := |objs| - 1;
      UniqueIds(objs[..n]);
      assert objs == objs[..n] + [objs[n]];
      IdsSnoc(objs[..n], objs[n]);
      IdsSnoc(Unique(objs[..n]), objs[n]);
    }
  }

  lemma UniqueSnoc(objs: seq<Obj>, o: Obj)
    ensures Unique(objs + [o]) == if o.id.Some? && o.id.value !in IdsOf(objs) then Unique(objs) + [o] else Unique(objs)
  {
    assert (objs + [o])[..|objs|] == objs;
  }

  lemma KidsStep(rows: seq<Row>, row: Row, main: int, parent: string, pid: int, cls: string,
                 before: seq<Obj>, added: seq<Obj>)
    requires Exact(rows, main, parent, pid, cls, Unique(before)) && |added| <= 1
    requires forall o :: o in added ==> o.cls == cls && Carries(row, main, parent, pid, o)
    requires forall o :: Carries(row, main, parent, pid, o) && o.cls == cls ==> added == [o]
    ensures Exact(rows + [row], main, parent, pid, cls, Unique(before + added))
  {
    UniqueIds(before);
    if added == [] {
      assert before + added == before;
      FirstsKeep(rows, row, main, parent, pid, cls, Unique(before));
    } else {
      var o := added[0];
      assert o in added && added == [o];
      UniqueSnoc(before, o);
      if o.id.Some? && o.id.value !in IdsOf(before) {
        FirstsSnoc(rows, row, main, parent, pid, cls, Unique(before), o);
      } else {
        FirstsKeep(rows, row, main, parent, pid, cls, Unique(before));
      }
    }
  }

  lemma {:induction false} KidsExact(plan: Plan, idxs: map<string, nat>, rows: seq<Row>, layout: seq<string>, main: int,
                                     parent: string, pid: int, cls: string)
    requires Typed(rows, layout) && Fits(idxs, layout) && parent in idxs
    requires cls in plan.reverse && plan.reverse[cls] == parent
    ensures Exact(rows, main, parent, pid, cls, Unique(Kids(plan, idxs, rows, main, cls, pid)))
  {
    if rows == [] {
      assert Increasing([]) && Firsts([], main, parent, pid, cls, [], []);
    } else {
      var front, row := rows[..|rows| - 1], rows[|rows| - 1];
      assert rows == front + [row];
      KidsExact(plan, idxs, front, layout, main, parent, pid, cls);
      RowKidsTyped(plan, idxs, row, layout, main, parent, pid, cls);
      KidsStep(front, row, main, parent, pid, cls,
               Kids(plan, idxs, front, main, cls, pid), RowKids(plan, idxs, row, main, cls, pid));
    }
  }

  // ---------------------------------------------------------------- records at any depth

  function Subs(f: Field): seq<Rec> {
    match f
    case Empty => []
    case One(r) => [r]
    case List(rs) => rs
  }

  /** The record found by following relation fields and list positions down from a record. */
  function At(r: Rec, path: seq<(string, nat)>): Option<Rec>
    decreases |path|
  {
    if path == [] then Some(r)
    else
      var (key, i) := path[0];
      if key in r.fields && i < |Subs(r.fields[key])| then At(Subs(r.fields[key])[i], path[1..]) else None
  }

  /** A record that the recursion built: all its relation fields are those of its own class and id. */
  ghost predicate Built(q: Query, r: Rec) {
    && r.obj.id.Some?
    && r.obj.cls in ColumnsOf(q.rows)
    && BuildEnds(q, r.obj.cls, r.obj.id.value)
    && r.fields == FieldsOf(q, r.obj.cls, r.obj.id.value, |Targets(q.plan.graph, r.obj.cls)|)
  }

  lemma {:induction false} OfClassSane(items: seq<Option<Obj>>, cls: string)
    ensures forall o :: o in OfClass(items, cls) ==> o.cls == cls && Some(o) in items
  {
    if items != [] {
      OfClassSane(items[..|items| - 1], cls);
    }
  }

  lemma {:induction false} KidsSane(plan: Plan, idxs: map<string, nat>, rows: seq<Row>, main: int, cls: string, pid: int)
    requires forall i, j :: 0 <= i < |rows| && 0 <= j < |rows[i]| && rows[i][j].Some? ==> rows[i][j].value.cls in idxs
    ensures forall o :: o in Kids(plan, idxs, rows, main, cls, pid) ==> o.cls == cls && cls in idxs
  {
    if rows != [] {
      var n := |rows| - 1;
      KidsSane(plan, idxs, rows[..n], main, cls, pid);
      if rows[n] != [] {
        OfClassSane(rows[n][1..], cls);
        forall o | o in RowKids(plan, idxs, rows[n], main, cls, pid) ensures o.cls == cls && cls in idxs {
          var j :| 0 <= j < |rows[n][1..]| && rows[n][1..][j] == Some(o);
          assert rows[n][j + 1] == Some(o);
        }
      }
    }
  }

  /** Children are objects of the rows, of the class they are listed for. */
  lemma ChildrenSane(q: Query, layout: seq<string>, cls: string, pid: int)
    requires Typed(q.rows, layout)
    ensures forall o :: o in Children(q, cls, pid) ==> o.cls == cls && cls in ColumnsOf(q.rows)
  {
    ColumnsFit(q.rows, layout);
    KidsSane(q.plan, ColumnsOf(q.rows), q.rows, q.main, cls, pid);
  }

  lemma {:induction false} BuildAllBuilt(q: Query, cls: string, pid: int, k: nat, objs: seq<Obj>)
    requires BuildEnds(q, cls, pid) && k < |Targets(q.plan.graph, cls)|
    requires forall o :: o in objs ==> o in Children(q, TargetAt(q, cls, k), pid) && o.id.Some?
    requires forall o :: o in objs ==> o.cls == TargetAt(q, cls, k) && o.cls in ColumnsOf(q.rows)
    ensures forall i :: 0 <= i < |objs| ==> Built(q, BuildAll(q, cls, pid, k, objs)[i])
    decreases |objs|
  {
    if objs != [] {
      var o := objs[|objs| - 1];
      BuildAllBuilt(q, cls, pid, k, objs[..|objs| - 1]);
      ChildEdge(q, cls, pid, k, o);
    }
  }

  lemma BuildBuilt(q: Query, layout: seq<string>, cls: string, pid: int, k: nat)
    requires BuildEnds(q, cls, pid) && k < |Targets(q.plan.graph, cls)| && Typed(q.rows, layout)
    ensures forall r :: r in Build(q, cls, pid, k) ==> Built(q, r)
  {
    var target := TargetAt(q, cls, k);
    UniqueSane(Children(q, target, pid));
    ChildrenSane(q, layout, target, pid);
    BuildAllBuilt(q, cls, pid, k, Unique(Children(q, target, pid)));
  }

  lemma {:induction false} SubsBuilt(q: Query, layout: seq<string>, cls: string, pid: int, n: nat, key: string)
    requires BuildEnds(q, cls, pid) && n <= |Targets(q.plan.graph, cls)| && Typed(q.rows, layout)
    requires key in FieldsOf(q, cls, pid, n)
    ensures forall r :: r in Subs(FieldsOf(q, cls, pid, n)[key]) ==> Built(q, r)
    decreases n
  {
    if key == KeyAt(q.plan, cls, n - 1) {
      BuildBuilt(q, layout, cls, pid, n - 1);
    } else {
      SubsBuilt(q, layout, cls, pid, n - 1, key);
    }
  }

  /** Every record below a built record is built. */
  lemma {:induction false} AtBuilt(q: Query, layout: seq<string>, cls: string, pid: int, r: Rec,
                                   path: seq<(string, nat)>)
    requires BuildEnds(q, cls, pid) && Typed(q.rows, layout)
    requires r.fields == FieldsOf(q, cls, pid, |Targets(q.plan.graph, cls)|)
    requires path != [] && At(r, path).Some?
    ensures Built(q, At(r, path).value)
    decreases |path|
  {
    var (key, i) := path[0];
    SubsBuilt(q, layout, cls, pid, |Targets(q.plan.graph, cls)|, key);
    var below := Subs(r.fields[key])[i];
    assert Built(q, below);
    if |path| > 1 {
      AtBuilt(q, layout, below.obj.cls, below.obj.id.value, below, path[1..]);
    }
  }

  lemma {:induction false} FieldValue(q: Query, cls: string, pid: int, n: nat, j: nat)
    requires BuildEnds(q, cls, pid) && j < n <= |Targets(q.plan.graph, cls)|
    requires forall k :: j < k < n ==> KeyAt(q.plan, cls, k) != KeyAt(q.plan, cls, j)
    ensures KeyAt(q.plan, cls, j) in FieldsOf(q, cls, pid, n)
    ensures FieldsOf(q, cls, pid, n)[KeyAt(q.plan, cls, j)]
         == FieldOf(Targets(q.plan.graph, cls)[j].1, Build(q, cls, pid, j))
    decreases n
  {
    var (target, kind) := Targets(q.plan.graph, cls)[n - 1];
    assert KeyAt(q.plan, cls, n - 1) == RelationKey(q.plan, cls, target, kind);
    if j < n - 1 {
      FieldValue(q, cls, pid, n - 1, j);
    }
  }

  /** Of relations that share a field key the last one is shown, and the others are not. */
  lemma SharedKeyShowsLast(q: Query, cls: string, pid: int, i: nat, j: nat)
    requires BuildEnds(q, cls, pid) && i <= j < |Targets(q.plan.graph, cls)|
    requires KeyAt(q.plan, cls, i) == KeyAt(q.plan, cls, j) && LastWithKey(q.plan, cls, j)
    ensures var fields := FieldsOf(q, cls, pid, |Targets(q.plan.graph, cls)|);
      && KeyAt(q.plan, cls, i) in fields
      && fields[KeyAt(q.plan, cls, i)] == FieldOf(Targets(q.plan.graph, cls)[j].1, Build(q, cls, pid, j))
  {
    FieldValue(q, cls, pid, |Targets(q.plan.graph, cls)|, j);
  }

  function ObjsOf(recs: seq<Rec>): seq<Obj> {
    seq(|recs|, k requires 0 <= k < |recs| => recs[k].obj)
  }

  /** A relation to many shows a list of these objects; one to a single object shows the first, or nothing. */
  predicate Displays(field: Field, kind: Kind, objs: seq<Obj>) {
    match kind
    case O2M => field.List? && ObjsOf(field.recs) == objs
    case M2M => field.List? && ObjsOf(field.recs) == objs
    case M2O => if objs == [] then field.Empty? else field.One? && field.rec.obj == objs[0]
    case O2O => if objs == [] then field.Empty? else field.One? && field.rec.obj == objs[0]
  }

  /** Field j of a record shows an exact list: all of it, or its first element, by the kind of relation. */
  ghost predicate FieldExact(q: Query, cls: string, pid: int, r: Rec, j: nat)
    requires j < |Targets(q.plan.graph, cls)|
  {
    && KeyAt(q.plan, cls, j) in r.fields
    && exists objs :: Displays(r.fields[KeyAt(q.plan, cls, j)], Targets(q.plan.graph, cls)[j].1, objs)
         && Exact(q.rows, q.main, cls, pid, TargetAt(q, cls, j), objs)
  }

  lemma FieldDisplays(kind: Kind, recs: seq<Rec>)
    ensures Displays(FieldOf(kind, recs), kind, ObjsOf(recs))
  {
  }

  lemma FieldIsExact(q: Query, layout: seq<string>, cls: string, pid: int, r: Rec, j: nat)
    requires BuildEnds(q, cls, pid) && OneSource(q.plan) && Typed(q.rows, layout)
    requires cls in ColumnsOf(q.rows) && j < |Targets(q.plan.graph, cls)| && LastWithKey(q.plan, cls, j)
    requires r.fields == FieldsOf(q, cls, pid, |Targets(q.plan.graph, cls)|)
    ensures FieldExact(q, cls, pid, r, j)
  {
    FieldValue(q, cls, pid, |Targets(q.plan.graph, cls)|, j);
    BuildIsExact(q, layout, cls, pid, j);
    ShownExact(q, cls, pid, r, j, Build(q, cls, pid, j));
  }

  lemma ShownExact(q: Query, cls: string, pid: int, r: Rec, j: nat, recs: seq<Rec>)
    requires j < |Targets(q.plan.graph, cls)| && KeyAt(q.plan, cls, j) in r.fields
    requires r.fields[KeyAt(q.plan, cls, j)] == FieldOf(Targets(q.plan.graph, cls)[j].1, recs)
    requires Exact(q.rows, q.main, cls, pid, TargetAt(q, cls, j), ObjsOf(recs))
    ensures FieldExact(q, cls, pid, r, j)
  {
    FieldDisplays(Targets(q.plan.graph, cls)[j].1, recs);
  }

  lemma BuildObjs(q: Query, cls: string, pid: int, j: nat)
    requires BuildEnds(q, cls, pid) && j < |Targets(q.plan.graph, cls)|
    ensures ObjsOf(Build(q, cls, pid, j)) == Unique(Children(q, TargetAt(q, cls, j), pid))
  {
    UniqueSane(Children(q, TargetAt(q, cls, j), pid));
    assert Build(q, cls, pid, j) == BuildAll(q, cls, pid, j, Unique(Children(q, TargetAt(q, cls, j), pid)));
  }

  lemma BuildIsExact(q: Query, layout: seq<string>, cls: string, pid: int, j: nat)
    requires BuildEnds(q, cls, pid) && OneSource(q.plan) && Typed(q.rows, layout)
    requires cls in ColumnsOf(q.rows) && j < |Targets(q.plan.graph, cls)|
    ensures Exact(q.rows, q.main, cls, pid, TargetAt(q, cls, j), ObjsOf(Build(q, cls, pid, j)))
  {
    var target := TargetAt(q, cls, j);
    assert (cls, target) in EdgesOf(q.plan.graph);
    ColumnsFit(q.rows, layout);
    KidsExact(q.plan, ColumnsOf(q.rows), q.rows, layout, q.main, cls, pid, target);
    BuildObjs(q, cls, pid, j);
  }

  /**
   * At any depth of a main object's record, every relation field lists exactly the children that some row of
   * that main object carries together with the record's own object, if no later relation has the same key.
   */
  lemma NestedIsExact(q: Query, layout: seq<string>, mainName: string, path: seq<(string, nat)>, j: nat)
    requires BuildEnds(q, mainName, q.main) && OneSource(q.plan) && Typed(q.rows, layout)
    requires q.plan.graph != map[] && q.main in MainKeys(q.rows)
    requires path != [] && At(RecordOf(q, mainName), path).Some?
    requires var r := At(RecordOf(q, mainName), path).value;
      j < |Targets(q.plan.graph, r.obj.cls)| && LastWithKey(q.plan, r.obj.cls, j)
    ensures var r := At(RecordOf(q, mainName), path).value;
      r.obj.id.Some? && FieldExact(q, r.obj.cls, r.obj.id.value, r, j)
  {
    var root := RecordOf(q, mainName);
    AtBuilt(q, layout, mainName, q.main, root, path);
    var r := At(root, path).value;
    FieldIsExact(q, layout, r.obj.cls, r.obj.id.value, r, j);
  }

  /** The same for the main record itself, when its id is a number other than 0. */
  lemma RootIsExact(q: Query, layout: seq<string>, j: nat)
    requires q.plan.graph != map[] && q.main in MainKeys(q.rows) && FirstMain(q.rows, q.main).id == Some(q.main)
    requires BuildEnds(q, FirstMain(q.rows, q.main).cls, q.main) && OneSource(q.plan) && Typed(q.rows, layout)
    requires j < |Targets(q.plan.graph, FirstMain(q.rows, q.main).cls)|
    requires LastWithKey(q.plan, FirstMain(q.rows, q.main).cls, j)
    ensures var cls := FirstMain(q.rows, q.main).cls;
      FieldExact(q, cls, q.main, RecordOf(q, cls), j)
  {
    ColumnsFit(q.rows, layout);
    FirstMainSeen(q.rows, q.main);
    var cls := FirstMain(q.rows, q.main).cls;
    FieldIsExact(q, layout, cls, q.main, RecordOf(q, cls), j);
  }

  /**
   * The main record of an object with id v is exact if and only if v is not 0 or there is nothing to list:
   * an id of 0 is keyed by the address, under which no child is found.
   */
  lemma RootExactIff(q: Query, layout: seq<string>, v: int, j: nat)
    requires q.plan.graph != map[] && q.main in MainKeys(q.rows) && q.main != 0
    requires BuildEnds(q, FirstMain(q.rows, q.main).cls, q.main) && OneSource(q.plan) && Typed(q.rows, layout)
    requires forall i :: 0 <= i < |q.rows| && MainRow(q.rows[i], q.main) ==> q.rows[i][0].value.id == Some(v)
    requires j < |Targets(q.plan.graph, FirstMain(q.rows, q.main).cls)|
    requires LastWithKey(q.plan, FirstMain(q.rows, q.main).cls, j)
    ensures var cls := FirstMain(q.rows, q.main).cls;
      FieldExact(q, cls, v, RecordOf(q, cls), j) <==> v != 0 || NothingCarried(q, cls, v, TargetAt(q, cls, j))
  {
    FirstMainSeen(q.rows, q.main);
    if v != 0 {
      RootIsExact(q, layout, j);
    } else {
      FalsyRoot(q, layout, j);
    }
  }

  lemma FalsyRoot(q: Query, layout: seq<string>, j: nat)
    requires q.plan.graph != map[] && q.main in MainKeys(q.rows) && q.main != 0
    requires BuildEnds(q, FirstMain(q.rows, q.main).cls, q.main) && OneSource(q.plan) && Typed(q.rows, layout)
    requires forall i :: 0 <= i < |q.rows| && MainRow(q.rows[i], q.main) ==> q.rows[i][0].value.id == Some(0)
    requires j < |Targets(q.plan.graph, FirstMain(q.rows, q.main).cls)|
    requires LastWithKey(q.plan, FirstMain(q.rows, q.main).cls, j)
    ensures var cls := FirstMain(q.rows, q.main).cls;
      FieldExact(q, cls, 0, RecordOf(q, cls), j) <==> NothingCarried(q, cls, 0, TargetAt(q, cls, j))
  {
    var cls := FirstMain(q.rows, q.main).cls;
    assert (cls, TargetAt(q, cls, j)) in EdgesOf(q.plan.graph);
    ColumnsFit(q.rows, layout);
    FirstMainSeen(q.rows, q.main);
    var i :| 0 <= i < |q.rows| && MainRow(q.rows[i], q.main) && q.rows[i][0].value == FirstMain(q.rows, q.main);
    assert q.rows[i][0].value.cls == layout[0];
    FalsyMainHasNoChildren(q, cls, j);
    FieldValue(q, cls, q.main, |Targets(q.plan.graph, cls)|, j);
    EmptyFieldExact(q, cls, RecordOf(q, cls), j);
  }

  lemma EmptyFieldExact(q: Query, cls: string, r: Rec, j: nat)
    requires j < |Targets(q.plan.graph, cls)| && KeyAt(q.plan, cls, j) in r.fields
    requires r.fields[KeyAt(q.plan, cls, j)] == FieldOf(Targets(q.plan.graph, cls)[j].1, [])
    ensures FieldExact(q, cls, 0, r, j) <==> NothingCarried(q, cls, 0, TargetAt(q, cls, j))
  {
    var (target, kind) := Targets(q.plan.graph, cls)[j];
    assert ObjsOf([]) == [];
    if FieldExact(q, cls, 0, r, j) {
      var objs: seq<Obj> :| Displays(r.fields[KeyAt(q.plan, cls, j)], kind, objs)
        && Exact(q.rows, q.main, cls, 0, target, objs);
      ExactEmptyIff(q, cls, 0, target, objs);
    }
    if NothingCarried(q, cls, 0, target) {
      EmptyExact(q, cls, 0, target);
      FieldDisplays(kind, []);
    }
  }

  // ---------------------------------------------------------------- relations that share a field key

  predicate IsSingle(kind: Kind) {
    kind == M2O || kind == O2O
  }

  /** An exact list is empty exactly when no row carries a child, and its objects are of their class. */
  lemma ExactEmptyIff(q: Query, parent: string, pid: int, cls: string, objs: seq<Obj>)
    requires Exact(q.rows, q.main, parent, pid, cls, objs)
    ensures objs == [] <==> NothingCarried(q, parent, pid, cls)
    ensures forall k :: 0 <= k < |objs| ==> objs[k].cls == cls
  {
    var firsts: seq<nat> :| Increasing(firsts) && Firsts(q.rows, q.main, parent, pid, cls, objs, firsts);
    if objs != [] {
      assert FirstCarrier(q.rows, q.main, parent, pid, objs[0], firsts[0]);
      assert Carries(q.rows[firsts[0]], q.main, parent, pid, objs[0]) && objs[0].id.Some?;
    }
  }

  /** A field that shows one list displays another, with a different first object, only if both are empty. */
  lemma SameShown(kind: Kind, recs: seq<Rec>, other: Kind, objs: seq<Obj>)
    requires recs != [] && objs != [] ==> recs[0].obj != objs[0]
    ensures Displays(FieldOf(kind, recs), other, objs) <==>
              recs == [] && objs == [] && IsSingle(kind) == IsSingle(other)
  {
    assert recs != [] ==> ObjsOf(recs)[0] == recs[0].obj;
  }

  lemma EmptyExact(q: Query, parent: string, pid: int, cls: string)
    requires NothingCarried(q, parent, pid, cls)
    ensures Exact(q.rows, q.main, parent, pid, cls, [])
  {
    assert Increasing([]) && Firsts(q.rows, q.main, parent, pid, cls, [], []);
  }

  /** Field i of a record that shows the exact list of another class in its place. */
  lemma OverwrittenExactIff(q: Query, cls: string, pid: int, r: Rec, i: nat, other: string, kind: Kind, recs: seq<Rec>)
    requires i < |Targets(q.plan.graph, cls)| && TargetAt(q, cls, i) != other
    requires KeyAt(q.plan, cls, i) in r.fields && r.fields[KeyAt(q.plan, cls, i)] == FieldOf(kind, recs)
    requires Exact(q.rows, q.main, cls, pid, other, ObjsOf(recs))
    ensures FieldExact(q, cls, pid, r, i) <==>
      && NothingCarried(q, cls, pid, TargetAt(q, cls, i)) && NothingCarried(q, cls, pid, other)
      && IsSingle(Targets(q.plan.graph, cls)[i].1) == IsSingle(kind)
  {
    var (target, own) := Targets(q.plan.graph, cls)[i];
    ExactEmptyIff(q, cls, pid, other, ObjsOf(recs));
    assert ObjsOf(recs) == [] <==> recs == [];
    if FieldExact(q, cls, pid, r, i) {
      var mine: seq<Obj> :| Displays(FieldOf(kind, recs), own, mine) && Exact(q.rows, q.main, cls, pid, target, mine);
      ExactEmptyIff(q, cls, pid, target, mine);
      if recs != [] && mine != [] {
        assert ObjsOf(recs)[0].cls == other && mine[0].cls == target;
      }
      SameShown(kind, recs, own, mine);
    }
    if NothingCarried(q, cls, pid, target) && NothingCarried(q, cls, pid, other) && IsSingle(own) == IsSingle(kind) {
      EmptyExact(q, cls, pid, target);
      SameShown(kind, recs, own, []);
    }
  }

  /**
   * Of two relations that share a field key the earlier one's field is exact if and only if no row carries a
   * child of either and both show nothing in the same way: both as one missing child, or both as an empty list.
   */
  lemma SharedKeyExactIff(q: Query, layout: seq<string>, cls: string, pid: int, r: Rec, i: nat, j: nat)
    requires BuildEnds(q, cls, pid) && OneSource(q.plan) && Typed(q.rows, layout)
    requires cls in ColumnsOf(q.rows) && i < j < |Targets(q.plan.graph, cls)|
    requires KeyAt(q.plan, cls, i) == KeyAt(q.plan, cls, j) && LastWithKey(q.plan, cls, j)
    requires TargetAt(q, cls, i) != TargetAt(q, cls, j)
    requires r.fields == FieldsOf(q, cls, pid, |Targets(q.plan.graph, cls)|)
    ensures FieldExact(q, cls, pid, r, i) <==>
      && NothingCarried(q, cls, pid, TargetAt(q, cls, i)) && NothingCarried(q, cls, pid, TargetAt(q, cls, j))
      && IsSingle(Targets(q.plan.graph, cls)[i].1) == IsSingle(Targets(q.plan.graph, cls)[j].1)
  {
    SharedKeyShowsLast(q, cls, pid, i, j);
    BuildIsExact(q, layout, cls, pid, j);
    OverwrittenExactIff(q, cls, pid, r, i, TargetAt(q, cls, j), Targets(q.plan.graph, cls)[j].1,
                        Build(q, cls, pid, j));
  }

  /** A child that a row carries is lost from the main record if a later relation has its field key. */
  lemma CarriedIsLost(q: Query, layout: seq<string>, cls: string, i: nat, j: nat, o: Obj)
    requires q.plan.graph != map[] && q.main in MainKeys(q.rows) && BuildEnds(q, cls, q.main)
    requires OneSource(q.plan) && Typed(q.rows, layout)
    requires cls in ColumnsOf(q.rows) && i < j < |Targets(q.plan.graph, cls)|
    requires KeyAt(q.plan, cls, i) == KeyAt(q.plan, cls, j) && LastWithKey(q.plan, cls, j)
    requires TargetAt(q, cls, i) != TargetAt(q, cls, j)
    requires q.rows != [] && Carries(q.rows[0], q.main, cls, q.main, o) && o.cls == TargetAt(q, cls, i) && o.id.Some?
    ensures !FieldExact(q, cls, q.main, RecordOf(q, cls), i)
  {
    SharedKeyExactIff(q, layout, cls, q.main, RecordOf(q, cls), i, j);
  }

  predicate DistinctTargets(targets: seq<(string, Kind)>) {
    forall i, j :: 0 <= i < j < |targets| ==> targets[i].0 != targets[j].0
  }

  lemma {:induction false} SetTargetDistinct(targets: seq<(string, Kind)>, target: string, kind: Kind)
    requires DistinctTargets(targets)
    ensures DistinctTargets(SetTarget(targets, target, kind))
  {
    if targets != [] && targets[0].0 != target {
      var later := SetTarget(targets[1..], target, kind);
      SetTargetDistinct(targets[1..], target, kind);
      forall k | 0 <= k < |later| ensures later[k].0 != targets[0].0 {
        SetTargetNames(targets[1..], target, kind);
        NameAt(later, later[k].0);
        NameAt(targets[1..], targets[0].0);
      }
    }
  }

  /** Two relations of one class in a plan always have different targets. */
  lemma {:induction false} PlanTargetsDistinct(relations: seq<Relation>, cls: string)
    ensures DistinctTargets(Targets(PlanOf(relations).graph, cls))
  {
    if relations != [] {
      var front, r := relations[..|relations| - 1], relations[|relations| - 1];
      PlanTargetsDistinct(front, cls);
      if r.source == cls {
        SetTargetDistinct(Targets(PlanOf(front).graph, cls), r.target, r.kind);
      }
    }
  }

  /** One row with a user, a role and a menu, both joined under the field name x. */
  function TwoUnderOneName(): Query {
    Query(PlanOf([Relation("user", M2M, "role", "x"), Relation("user", M2M, "menu", "x")]),
          [[Some(Obj("user", Some(1), 77, 0)), Some(Obj("role", Some(5), 78, 0)), Some(Obj("menu", Some(6), 79, 0))]],
          1)
  }

  lemma LowerFour(s: string, t: string)
    requires |s| == 4 && |t| == 4 && forall k :: 0 <= k < 4 ==> LowerChar(s[k]) == t[k]
    ensures Lower(s) == t
  {
  }

  lemma NamedText(target: string, lower: string)
    requires ClassName(target) && Lower(target) == lower
    ensures ParseRelation(PartsText("User", M2M, target) + [':'] + "x") == Some(Relation("user", M2M, lower, "x"))
  {
    RelationRead("User", M2M, target, "x", "", "", "", "");
    LowerFour("User", "user");
    assert "" + PartsText("User", M2M, target) + "" == PartsText("User", M2M, target);
    assert "" + "x" + "" == "x";
  }

  lemma NamedTextSpelled(target: string)
    requires |target| == 4
    ensures PartsText("User", M2M, target) + [':'] + "x"
         == ['U', 's', 'e', 'r', '-', 'm', '2', 'm', '-', target[0], target[1], target[2], target[3], ':', 'x']
  {
    assert "User" == ['U', 's', 'e', 'r'] && "m2m" == ['m', '2', 'm'];
  }

  lemma RoleText()
    ensures ParseRelation("User-m2m-Role:x") == Some(Relation("user", M2M, "role", "x"))
  {
    LowerFour("Role", "role");
    NamedText("Role", "role");
    NamedTextSpelled("Role");
  }

  lemma MenuText()
    ensures ParseRelation("User-m2m-Menu:x") == Some(Relation("user", M2M, "menu", "x"))
  {
    LowerFour("Menu", "menu");
    NamedText("Menu", "menu");
    NamedTextSpelled("Menu");
  }

  /** The texts from which these relations are read. */
  lemma TwoUnderOneNameTexts()
    ensures ParseRelation("User-m2m-Role:x") == Some(Relation("user", M2M, "role", "x"))
    ensures ParseRelation("User-m2m-Menu:x") == Some(Relation("user", M2M, "menu", "x"))
  {
    RoleText();
    MenuText();
  }

  lemma TwoUnderOneNamePlan()
    ensures TwoUnderOneName().plan == Plan(map["user" := [("role", M2M), ("menu", M2M)]],
                                           map["role" := "user", "menu" := "user"],
                                           map[("user", "role") := "x", ("user", "menu") := "x"])
  {
    var first, second := Relation("user", M2M, "role", "x"), Relation("user", M2M, "menu", "x");
    assert [first, second][..1] == [first] && [first][..0] == [];
    assert PlanOf([first]) == Plan(map["user" := [("role", M2M)]], map["role" := "user"], map[("user", "role") := "x"]);
    assert [("role", M2M)][1..] == [];
    assert SetTarget([("role", M2M)], "menu", M2M) == [("role", M2M), ("menu", M2M)];
  }

  lemma TwoUnderOneNameFits()
    ensures var q := TwoUnderOneName();
      && q.main in MainKeys(q.rows) && FirstMain(q.rows, q.main).cls == "user"
      && Typed(q.rows, ["user", "role", "menu"]) && "user" in ColumnsOf(q.rows)
      && Carries(q.rows[0], 1, "user", 1, Obj("role", Some(5), 78, 0))
  {
    var q := TwoUnderOneName();
    var row := q.rows[0];
    assert MainKey(row[0].value) in MainKeys(q.rows);
    assert row[1] == Some(Obj("role", Some(5), 78, 0)) && row[0].value.cls == "user";
    ColumnsFit(q.rows, ["user", "role", "menu"]);
  }

  lemma TwoUnderOneNameEnds()
    ensures var q := TwoUnderOneName();
      && BuildEnds(q, "user", 1) && OneSource(q.plan) && |Targets(q.plan.graph, "user")| == 2
      && TargetAt(q, "user", 0) == "role" && TargetAt(q, "user", 1) == "menu"
      && KeyAt(q.plan, "user", 0) == KeyAt(q.plan, "user", 1) && q.plan.graph != map[]
  {
    var q := TwoUnderOneName();
    TwoUnderOneNamePlan();
    StarIsAcyclic(EdgesOf(q.plan.graph), "user");
    AcyclicRelationsEnd(q, "user", 1);
  }

  /** It meets all that the theorem asks for; the role is carried and is not in the user's record. */
  lemma TwoUnderOneNameLosesRole()
    ensures var q := TwoUnderOneName();
      && q.main in MainKeys(q.rows) && FirstMain(q.rows, q.main).cls == "user"
      && BuildEnds(q, "user", 1) && OneSource(q.plan) && Typed(q.rows, ["user", "role", "menu"])
      && |Targets(q.plan.graph, "user")| == 2 && KeyAt(q.plan, "user", 0) == KeyAt(q.plan, "user", 1)
      && Carries(q.rows[0], 1, "user", 1, Obj("role", Some(5), 78, 0))
      && !FieldExact(q, "user", 1, RecordOf(q, "user"), 0)
  {
    TwoUnderOneNameFits();
    TwoUnderOneNameEnds();
    CarriedIsLost(TwoUnderOneName(), ["user", "role", "menu"], "user", 0, 1, Obj("role", Some(5), 78, 0));
  }

  ghost predicate NothingCarried(q: Query, parent: string, pid: int, cls: string) {
    forall i, o :: 0 <= i < |q.rows| && Carries(q.rows[i], q.main, parent, pid, o) && o.cls == cls ==> o.id.None?
  }

  /** A user with id 0 at some address, joined with one role. */
  function ZeroUser(address: int): Query {
    Query(PlanOf([Relation("user", M2M, "role", "")]),
          [[Some(Obj("user", Some(0), address, 0)), Some(Obj("role", Some(5), 1, 0))]], address)
  }

  /** It meets all that the theorem asks for, but the role is missing from the user's record. */
  lemma ZeroUserLosesRole(address: int)
    requires address != 0
    ensures var q := ZeroUser(address);
      && q.plan.graph != map[] && q.main in MainKeys(q.rows) && FirstMain(q.rows, q.main).cls == "user"
      && OneSource(q.plan) && Typed(q.rows, ["user", "role"]) && BuildEnds(q, "user", q.main)
      && |Targets(q.plan.graph, "user")| == 1 && LastWithKey(q.plan, "user", 0)
      && Carries(q.rows[0], q.main, "user", 0, Obj("role", Some(5), 1, 0))
      && !FieldExact(q, "user", 0, RecordOf(q, "user"), 0)
  {
    var q := ZeroUser(address);
    var relation := Relation("user", M2M, "role", "");
    assert [relation][..0] == [];
    assert q.plan == Plan(map["user" := [("role", M2M)]], map["role" := "user"], map[]);
    PlanEdges([relation]);
    StarIsAcyclic(EdgesOf(q.plan.graph), "user");
    var row := q.rows[0];
    assert MainKey(row[0].value) in MainKeys(q.rows);
    AcyclicRelationsEnd(q, "user", q.main);
    assert row[1] == Some(Obj("role", Some(5), 1, 0)) && row[0].value.cls == "user";
    assert Carries(row, q.main, "user", 0, Obj("role", Some(5), 1, 0));
    FalsyRoot(q, ["user", "role"], 0);
  }

  /** The main object of a record is that of the first row with its key. */
  lemma {:induction false} FirstMainSeen(rows: seq<Row>, main: int)
    requires main in MainKeys(rows)
    ensures exists i :: 0 <= i < |rows| && MainRow(rows[i], main) && rows[i][0].value == FirstMain(rows, main)
              && forall j :: 0 <= j < i ==> !MainRow(rows[j], main)
  {
    if MainRow(rows[0], main) {
      assert rows[0][0].value == FirstMain(rows, main);
    } else {
      var i :| 0 <= i < |rows| && MainRow(rows[i], main);
      assert rows[1..][i - 1] == rows[i];
      FirstMainSeen(rows[1..], main);
      var k :| 0 <= k < |rows[1..]| && MainRow(rows[1..][k], main) && rows[1..][k][0].value == FirstMain(rows[1..], main)
        && forall j :: 0 <= j < k ==> !MainRow(rows[1..][j], main);
      assert rows[k + 1] == rows[1..][k];
      assert forall j :: 1 <= j <= k ==> rows[j] == rows[1..][j - 1];
    }
  }

  /**
   * A main object whose id is 0 or missing is keyed by its address, and then no child is found under it,
   * whatever the rows carry.
   */
  lemma FalsyMainHasNoChildren(q: Query, cls: string, k: nat)
    requires BuildEnds(q, cls, q.main) && q.main != 0 && k < |Targets(q.plan.graph, cls)|
    requires var target := TargetAt(q, cls, k);
      target in q.plan.reverse && q.plan.reverse[target] == cls && ParentColumn(q.plan, ColumnsOf(q.rows), target) == 0
    requires forall i :: 0 <= i < |q.rows| && MainRow(q.rows[i], q.main) ==> q.rows[i][0].value.id in {None, Some(0)}
    ensures Build(q, cls, q.main, k) == []
  {
    NoKids(q.plan, ColumnsOf(q.rows), q.rows, q.main, TargetAt(q, cls, k));
  }

  lemma {:induction false} NoKids(plan: Plan, idxs: map<string, nat>, rows: seq<Row>, main: int, target: string)
    requires main != 0 && target in plan.reverse && ParentColumn(plan, idxs, target) == 0
    requires forall i :: 0 <= i < |rows| && MainRow(rows[i], main) ==> rows[i][0].value.id in {None, Some(0)}
    ensures Kids(plan, idxs, rows, main, target, main) == []
  {
    if rows != [] {
      NoKids(plan, idxs, rows[..|rows| - 1], main, target);
    }
  }

  // ---------------------------------------------------------------- what the relation list means

  function Pairs(relations: seq<Relation>): set<(string, string)> {
    set i | 0 <= i < |relations| :: (relations[i].source, relations[i].target)
  }

  function Names(targets: seq<(string, Kind)>): set<string> {
    if targets == [] then {} else {targets[0].0} + Names(targets[1..])
  }

  lemma {:induction false} NameAt(targets: seq<(string, Kind)>, name: string)
    ensures name in Names(targets) <==> exists k :: 0 <= k < |targets| && targets[k].0 == name
  {
    if targets != [] {
      NameAt(targets[1..], name);
      if k :| 0 <= k < |targets[1..]| && targets[1..][k].0 == name {
        assert targets[k + 1].0 == name;
      }
      if k :| 0 <= k < |targets| && targets[k].0 == name {
        assert k > 0 ==> targets[1..][k - 1].0 == name;
      }
    }
  }

  lemma {:induction false} SetTargetNames(targets: seq<(string, Kind)>, target: string, kind: Kind)
    ensures Names(SetTarget(targets, target, kind)) == Names(targets) + {target}
  {
    if targets != [] && targets[0].0 != target {
      SetTargetNames(targets[1..], target, kind);
      assert SetTarget(targets, target, kind)[1..] == SetTarget(targets[1..], target, kind);
    }
  }

  lemma EdgeIffName(graph: map<string, seq<(string, Kind)>>, s: string, t: string)
    ensures (s, t) in EdgesOf(graph) <==> t in Names(Targets(graph, s))
  {
    NameAt(Targets(graph, s), t);
    if k :| 0 <= k < |Targets(graph, s)| && Targets(graph, s)[k].0 == t {
      assert graph[s][k].0 == t;
    }
  }

  lemma AddRelationEdges(plan: Plan, r: Relation)
    ensures EdgesOf(AddRelation(plan, r).graph) == EdgesOf(plan.graph) + {(r.source, r.target)}
  {
    SetTargetNames(Targets(plan.graph, r.source), r.target, r.kind);
    var g := AddRelation(plan, r).graph;
    forall e: (string, string)
      ensures e in EdgesOf(g) <==> e in EdgesOf(plan.graph) + {(r.source, r.target)}
    {
      EdgeIffName(g, e.0, e.1);
      EdgeIffName(plan.graph, e.0, e.1);
    }
  }

  /** The graph has an edge for each relation; with one source per target the reverse map agrees with it. */
  lemma {:induction false} PlanEdges(relations: seq<Relation>)
    ensures EdgesOf(PlanOf(relations).graph) == Pairs(relations)
    ensures (forall i, j :: 0 <= i < |relations| && 0 <= j < |relations| && relations[i].target == relations[j].target ==>
               relations[i].source == relations[j].source)
            ==> OneSource(PlanOf(relations))
  {
    if relations == [] {
      assert Pairs(relations) == {};
    } else {
      var front, r := relations[..|relations| - 1], relations[|relations| - 1];
      assert relations == front + [r];
      PlanEdges(front);
      AddRelationEdges(PlanOf(front), r);
      assert forall i :: 0 <= i < |front| ==> relations[i] == front[i];
      assert Pairs(relations) == Pairs(front) + {(r.source, r.target)};
    }
  }
}
