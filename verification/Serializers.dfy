/** Grouping the rows of a join query into one nested record per main object. */
module Serializers {
  import opened Digraph
  import opened Options
  import opened RelationText

  /** An ORM object: its class name in lower case, its `id`, its address (Python's `id()`), its columns. */
  datatype Obj = Obj(cls: string, id: Option<int>, addr: int, columns: int)

  type Row = seq<Option<Obj>>

  datatype Plan = Plan(graph: map<string, seq<(string, Kind)>>,
                       reverse: map<string, string>,
                       names: map<(string, string), string>)

  datatype Rec = Rec(obj: Obj, fields: map<string, Field>)

  datatype Field = Empty | One(rec: Rec) | List(recs: seq<Rec>)

  datatype Outcome =
    | Nothing
    | Unmapped
    | Single(rec: Rec)
    | Many(recs: seq<Rec>)

  // ---------------------------------------------------------------- relation definitions

  function Targets(graph: map<string, seq<(string, Kind)>>, source: string): seq<(string, Kind)> {
    if source in graph then graph[source] else []
  }

  /** A dictionary entry keeps its place when it is set again. */
  function SetTarget(targets: seq<(string, Kind)>, target: string, kind: Kind): seq<(string, Kind)> {
    if targets == [] then [(target, kind)]
    else if targets[0].0 == target then [(target, kind)] + targets[1..]
    else [targets[0]] + SetTarget(targets[1..], target, kind)
  }

  function AddRelation(plan: Plan, r: Relation): Plan {
    Plan(plan.graph[r.source := SetTarget(Targets(plan.graph, r.source), r.target, r.kind)],
         plan.reverse[r.target := r.source],
         if r.custom != "" then plan.names[(r.source, r.target) := r.custom] else plan.names)
  }

  function PlanOf(relations: seq<Relation>): Plan {
    if relations == [] then Plan(map[], map[], map[])
    else AddRelation(PlanOf(relations[..|relations| - 1]), relations[|relations| - 1])
  }

  function RelationKey(plan: Plan, source: string, target: string, kind: Kind): string {
    if (source, target) in plan.names && plan.names[(source, target)] != "" then plan.names[(source, target)]
    else if kind == O2O || kind == M2O then target
    else target + "s"
  }

  ghost function EdgesOf(graph: map<string, seq<(string, Kind)>>): set<(string, string)> {
    set s, k | s in graph && 0 <= k < |graph[s]| :: (s, graph[s][k].0)
  }

  method ParseRelationships(texts: seq<string>) returns (plan: Plan)
    ensures plan == PlanOf(Relations(texts))
  {
    plan := Plan(map[], map[], map[]);
    for i := 0 to |texts|
      invariant plan == PlanOf(Relations(texts[..i]))
    {
      assert texts[..i + 1][..i] == texts[..i];
      var relation := ParseRelation(texts[i]);
      if relation.Some? {
        ghost var front := Relations(texts[..i]);
        assert (front + [relation.value])[..|front|] == front;
        plan := AddRelation(plan, relation.value);
      }
    }
    assert texts[..|texts|] == texts;
  }

  // ---------------------------------------------------------------- keys, columns, duplicates

  /** `getattr(obj, 'id', None) or id(obj)`: an id of 0 gives way to the address, like a missing one. */
  function MainKey(o: Obj): int {
    if o.id.Some? && o.id.value != 0 then o.id.value else o.addr
  }

  predicate MainRow(row: Row, main: int) {
    row != [] && row[0].Some? && MainKey(row[0].value) == main
  }

  function NoteColumns(idxs: map<string, nat>, row: Row, n: nat): map<string, nat>
    requires n <= |row|
  {
    if n == 0 then idxs
    else
      var before := NoteColumns(idxs, row, n - 1);
      if row[n - 1].Some? && row[n - 1].value.cls !in before
      then before[row[n - 1].value.cls := n - 1]
      else before
  }

  /** The column in which each class is seen first. */
  function ColumnsOf(rows: seq<Row>): map<string, nat> {
    if rows == [] then map[]
    else NoteColumns(ColumnsOf(rows[..|rows| - 1]), rows[|rows| - 1], |rows[|rows| - 1]|)
  }

  method FindColumns(rows: seq<Row>) returns (idxs: map<string, nat>)
    ensures idxs == ColumnsOf(rows)
  {
    idxs := map[];
    for i := 0 to |rows|
      invariant idxs == ColumnsOf(rows[..i])
    {
      ghost var before := idxs;
      assert rows[..i + 1][..i] == rows[..i];
      for j := 0 to |rows[i]|
        invariant idxs == NoteColumns(before, rows[i], j)
      {
        var item := rows[i][j];
        if item.Some? && item.value.cls !in idxs {
          idxs := idxs[item.value.cls := j];
        }
      }
    }
    assert rows[..|rows|] == rows;
  }

  function IdsOf(objs: seq<Obj>): set<int> {
    set k | 0 <= k < |objs| && objs[k].id.Some? :: objs[k].id.value
  }

  /** Keeps the first object of each id and drops objects without one. */
  function Unique(objs: seq<Obj>): seq<Obj> {
    if objs == [] then []
    else
      var front, o := objs[..|objs| - 1], objs[|objs| - 1];
      if o.id.Some? && o.id.value !in IdsOf(front) then Unique(front) + [o] else Unique(front)
  }

  method GetUniqueObjects(objs: seq<Obj>) returns (unique: seq<Obj>)
    ensures unique == Unique(objs)
  {
    var seen := {};
    unique := [];
    for i := 0 to |objs|
      invariant seen == IdsOf(objs[..i])
      invariant unique == Unique(objs[..i])
    {
      var item := objs[i];
      assert objs[..i + 1][..i] == objs[..i];
      IdsSnoc(objs[..i], item);
      assert objs[..i] + [item] == objs[..i + 1];
      if item.id.Some? && item.id.value !in seen {
        seen := seen + {item.id.value};
        unique := unique + [item];
      }
    }
    assert objs[..|objs|] == objs;
  }

  lemma IdsSnoc(front: seq<Obj>, o: Obj)
    ensures IdsOf(front + [o]) == IdsOf(front) + (if o.id.Some? then {o.id.value} else {})
  {
    var all := front + [o];
    assert forall k :: 0 <= k < |front| ==> all[k] == front[k];
    assert all[|front|] == o;
  }

  // ---------------------------------------------------------------- which children hang under which parent

  /** The class the relations name as the parent of `cls` has, in this row, an object with id `pid`. */
  predicate ParentIs(plan: Plan, idxs: map<string, nat>, row: Row, cls: string, pid: int) {
    && cls in plan.reverse
    && var p := if plan.reverse[cls] in idxs then idxs[plan.reverse[cls]] else 0;
       p < |row| && row[p].Some? && row[p].value.id == Some(pid)
  }

  function OfClass(items: seq<Option<Obj>>, cls: string): seq<Obj> {
    if items == [] then []
    else
      var front, item := items[..|items| - 1], items[|items| - 1];
      if item.Some? && item.value.cls == cls then OfClass(front, cls) + [item.value] else OfClass(front, cls)
  }

  lemma OfClassSnoc(items: seq<Option<Obj>>, n: nat, cls: string)
    requires n < |items|
    ensures OfClass(items[..n + 1], cls)
         == OfClass(items[..n], cls) + if items[n].Some? && items[n].value.cls == cls then [items[n].value] else []
  {
    assert items[..n + 1][..n] == items[..n];
  }

  function RowKids(plan: Plan, idxs: map<string, nat>, row: Row, main: int, cls: string, pid: int): seq<Obj> {
    if MainRow(row, main) && ParentIs(plan, idxs, row, cls, pid) then OfClass(row[1..], cls) else []
  }

  /** All children of class `cls` of the parent `pid` in the rows of one main object, in row order. */
  function Kids(plan: Plan, idxs: map<string, nat>, rows: seq<Row>, main: int, cls: string, pid: int): seq<Obj> {
    if rows == [] then []
    else Kids(plan, idxs, rows[..|rows| - 1], main, cls, pid)
         + RowKids(plan, idxs, rows[|rows| - 1], main, cls, pid)
  }

  type Hierarchy = map<(string, int), seq<Obj>>

  function Lookup(h: Hierarchy, cls: string, pid: int): seq<Obj> {
    if (cls, pid) in h then h[(cls, pid)] else []
  }

  function ParentColumn(plan: Plan, idxs: map<string, nat>, cls: string): nat
    requires cls in plan.reverse
  {
    if plan.reverse[cls] in idxs then idxs[plan.reverse[cls]] else 0
  }

  /** What the first n joined objects of a row add under a parent. */
  function Added(plan: Plan, idxs: map<string, nat>, row: Row, n: nat, cls: string, pid: int): seq<Obj>
    requires row != [] && n < |row|
  {
    if ParentIs(plan, idxs, row, cls, pid) then OfClass(row[1..][..n], cls) else []
  }

  lemma AddedStep(plan: Plan, idxs: map<string, nat>, row: Row, n: nat, cls: string, pid: int)
    requires row != [] && n + 1 < |row|
    ensures var o := row[n + 1];
      Added(plan, idxs, row, n + 1, cls, pid) == Added(plan, idxs, row, n, cls, pid)
        + (if o.Some? && o.value.cls == cls && ParentIs(plan, idxs, row, cls, pid) then [o.value] else [])
  {
    var items := row[1..];
    assert items[..n + 1][..n] == items[..n];
    assert items[..n + 1][n] == row[n + 1];
  }

  predicate Listed(h: Hierarchy, r: Hierarchy, plan: Plan, idxs: map<string, nat>, row: Row, n: nat, cls: string,
                   pid: int)
    requires row != [] && n < |row|
  {
    Lookup(r, cls, pid) == Lookup(h, cls, pid) + Added(plan, idxs, row, n, cls, pid)
  }

  /** What the hierarchy becomes when the object in column n + 1 is filed under its parent. */
  function Filed(r: Hierarchy, plan: Plan, idxs: map<string, nat>, row: Row, n: nat): Hierarchy
    requires n + 1 < |row|
  {
    var related := row[n + 1];
    if related.None? || related.value.cls !in plan.reverse then r
    else
      var cls := related.value.cls;
      var p := ParentColumn(plan, idxs, cls);
      if p < |row| && row[p].Some? && row[p].value.id.Some?
      then r[(cls, row[p].value.id.value) := Lookup(r, cls, row[p].value.id.value) + [related.value]]
      else r
  }

  lemma FiledListed(h: Hierarchy, r: Hierarchy, plan: Plan, idxs: map<string, nat>, row: Row, n: nat, cls: string,
                    pid: int)
    requires n + 1 < |row| && Listed(h, r, plan, idxs, row, n, cls, pid)
    ensures Listed(h, Filed(r, plan, idxs, row, n), plan, idxs, row, n + 1, cls, pid)
  {
    AddedStep(plan, idxs, row, n, cls, pid);
  }

  method AddRow(plan: Plan, idxs: map<string, nat>, row: Row, h: Hierarchy) returns (r: Hierarchy)
    requires row != []
    ensures forall c, p :: Lookup(r, c, p) == Lookup(h, c, p) + Added(plan, idxs, row, |row| - 1, c, p)
  {
    r := h;
    var n := |row| - 1;
    for j := 0 to n
      invariant forall c, p :: Listed(h, r, plan, idxs, row, j, c, p)
    {
      ghost var before := r;
      var related := row[j + 1];
      if related.Some? && related.value.cls in plan.reverse {
        var cls := related.value.cls;
        var p := ParentColumn(plan, idxs, cls);
        if p < |row| && row[p].Some? && row[p].value.id.Some? {
          var pid := row[p].value.id.value;
          r := r[(cls, pid) := Lookup(r, cls, pid) + [related.value]];
        }
      }
      assert r == Filed(before, plan, idxs, row, j);
      ghost var next := j + 1;
      forall c, p ensures Listed(h, r, plan, idxs, row, next, c, p) {
        assert Listed(h, before, plan, idxs, row, j, c, p);
        FiledListed(h, before, plan, idxs, row, j, c, p);
      }
    }
    forall c, p ensures Lookup(r, c, p) == Lookup(h, c, p) + Added(plan, idxs, row, n, c, p) {
      assert Listed(h, r, plan, idxs, row, n, c, p);
    }
  }

  method BuildHierarchy(plan: Plan, idxs: map<string, nat>, rows: seq<Row>, main: int) returns (h: Hierarchy)
    ensures forall c, p :: Lookup(h, c, p) == Kids(plan, idxs, rows, main, c, p)
  {
    h := map[];
    for i := 0 to |rows|
      invariant forall c, p :: Lookup(h, c, p) == Kids(plan, idxs, rows[..i], main, c, p)
    {
      var row := rows[i];
      assert rows[..i + 1][..i] == rows[..i];
      if MainRow(row, main) {
        assert row[1..][..|row| - 1] == row[1..];
        h := AddRow(plan, idxs, row, h);
      }
    }
    assert rows[..|rows|] == rows;
  }

  // ---------------------------------------------------------------- nesting

  function FieldOf(kind: Kind, recs: seq<Rec>): Field {
    if kind == M2O || kind == O2O then (if recs == [] then Empty else One(recs[0])) else List(recs)
  }

  /** The rows of a query, how they nest, and the main object whose record is built. */
  datatype Query = Query(plan: Plan, rows: seq<Row>, main: int)

  function Children(q: Query, cls: string, pid: int): seq<Obj> {
    Kids(q.plan, ColumnsOf(q.rows), q.rows, q.main, cls, pid)
  }

  function TargetAt(q: Query, cls: string, k: nat): string
    requires k < |Targets(q.plan.graph, cls)|
  {
    Targets(q.plan.graph, cls)[k].0
  }

  ghost function IdsIn(rows: seq<Row>): set<int> {
    set i, j | 0 <= i < |rows| && 0 <= j < |rows[i]| && rows[i][j].Some? && rows[i][j].value.id.Some? ::
      rows[i][j].value.id.value
  }

  /** Which records, by class and id, are built directly below which: the recursion goes along these edges. */
  ghost function RecordEdges(q: Query): set<((string, int), (string, int))> {
    set s, k, p, m | s in q.plan.graph && 0 <= k < |q.plan.graph[s]| && p in IdsIn(q.rows)
                     && 0 <= m < |Children(q, q.plan.graph[s][k].0, p)|
                     && Children(q, q.plan.graph[s][k].0, p)[m].id.Some? ::
      ((s, p), (q.plan.graph[s][k].0, Children(q, q.plan.graph[s][k].0, p)[m].id.value))
  }

  /** The recursion for this object's record ends: it never comes back to a record it is inside of. */
  ghost predicate BuildEnds(q: Query, cls: string, pid: int) {
    OffCycles(RecordEdges(q), (cls, pid))
  }

  lemma {:induction false} ParentSeen(plan: Plan, idxs: map<string, nat>, rows: seq<Row>, main: int, cls: string,
                                      pid: int)
    requires Kids(plan, idxs, rows, main, cls, pid) != []
    ensures pid in IdsIn(rows)
  {
    var n := |rows| - 1;
    if RowKids(plan, idxs, rows[n], main, cls, pid) == [] {
      ParentSeen(plan, idxs, rows[..n], main, cls, pid);
      var i, j :| 0 <= i < n && 0 <= j < |rows[..n][i]| && rows[..n][i][j].Some?
        && rows[..n][i][j].value.id == Some(pid);
      assert rows[i][j].value.id == Some(pid);
    } else {
      var p := if plan.reverse[cls] in idxs then idxs[plan.reverse[cls]] else 0;
      assert rows[n][p].value.id == Some(pid);
    }
  }

  lemma ChildEdge(q: Query, cls: string, pid: int, k: nat, o: Obj)
    requires BuildEnds(q, cls, pid) && k < |Targets(q.plan.graph, cls)|
    requires o in Children(q, TargetAt(q, cls, k), pid) && o.id.Some?
    ensures BuildEnds(q, TargetAt(q, cls, k), o.id.value)
    ensures Rank(RecordEdges(q), (TargetAt(q, cls, k), o.id.value)) < Rank(RecordEdges(q), (cls, pid))
  {
    var target := TargetAt(q, cls, k);
    ParentSeen(q.plan, ColumnsOf(q.rows), q.rows, q.main, target, pid);
    var m :| 0 <= m < |Children(q, target, pid)| && Children(q, target, pid)[m] == o;
    assert q.plan.graph[cls][k].0 == target;
    assert ((cls, pid), (target, o.id.value)) in RecordEdges(q);
    OffCyclesBelow(RecordEdges(q), (cls, pid), (target, o.id.value));
  }

  lemma {:induction false} UniqueSane(objs: seq<Obj>)
    ensures forall o :: o in Unique(objs) ==> o in objs && o.id.Some?
  {
    if objs != [] {
      UniqueSane(objs[..|objs| - 1]);
    }
  }

  /** The records of relation k of one object. */
  ghost function Build(q: Query, cls: string, pid: int, k: nat): (recs: seq<Rec>)
    requires BuildEnds(q, cls, pid) && k < |Targets(q.plan.graph, cls)|
    decreases Rank(RecordEdges(q), (cls, pid)), 1, 0
  {
    UniqueSane(Children(q, TargetAt(q, cls, k), pid));
    BuildAll(q, cls, pid, k, Unique(Children(q, TargetAt(q, cls, k), pid)))
  }

  ghost function BuildAll(q: Query, cls: string, pid: int, k: nat, objs: seq<Obj>): (recs: seq<Rec>)
    requires BuildEnds(q, cls, pid) && k < |Targets(q.plan.graph, cls)|
    requires forall o :: o in objs ==> o in Children(q, TargetAt(q, cls, k), pid) && o.id.Some?
    ensures |recs| == |objs| && forall i :: 0 <= i < |objs| ==> recs[i].obj == objs[i]
    decreases Rank(RecordEdges(q), (cls, pid)), 0, |objs|
  {
    if objs == [] then []
    else
      var front, o, target := objs[..|objs| - 1], objs[|objs| - 1], TargetAt(q, cls, k);
      ChildEdge(q, cls, pid, k, o);
      BuildAll(q, cls, pid, k, front)
      + [Rec(o, FieldsOf(q, target, o.id.value, |Targets(q.plan.graph, target)|))]
  }

  /** The relation fields of one object; a key that two relations share keeps the later value. */
  ghost function FieldsOf(q: Query, cls: string, pid: int, n: nat): map<string, Field>
    requires BuildEnds(q, cls, pid) && n <= |Targets(q.plan.graph, cls)|
    decreases Rank(RecordEdges(q), (cls, pid)), 2, n
  {
    if n == 0 then map[]
    else
      var (target, kind) := Targets(q.plan.graph, cls)[n - 1];
      FieldsOf(q, cls, pid, n - 1)
        [RelationKey(q.plan, cls, target, kind) := FieldOf(kind, Build(q, cls, pid, n - 1))]
  }

  ghost predicate Holds(h: Hierarchy, q: Query) {
    forall c, p :: Lookup(h, c, p) == Children(q, c, p)
  }

  /** `build_recursive` for relation k of the object (cls, pid), whose target class is `target`. */
  method BuildRecursive(h: Hierarchy, plan: Plan, target: string, pid: int, ghost q: Query, ghost cls: string,
                        ghost k: nat)
    returns (recs: seq<Rec>)
    requires BuildEnds(q, cls, pid) && q.plan == plan && Holds(h, q)
    requires k < |Targets(plan.graph, cls)| && target == TargetAt(q, cls, k)
    ensures recs == Build(q, cls, pid, k)
    decreases Rank(RecordEdges(q), (cls, pid)), 0
  {
    var objs := GetUniqueObjects(Lookup(h, target, pid));
    assert Lookup(h, target, pid) == Children(q, target, pid);
    UniqueSane(Children(q, target, pid));
    recs := [];
    for i := 0 to |objs|
      invariant recs == BuildAll(q, cls, pid, k, objs[..i])
    {
      var o := objs[i];
      assert objs[..i + 1][..i] == objs[..i];
      ChildEdge(q, cls, pid, k, o);
      var fields := BuildFields(h, plan, target, o.id.value, q);
      recs := recs + [Rec(o, fields)];
    }
    assert objs[..|objs|] == objs;
  }

  method BuildFields(h: Hierarchy, plan: Plan, cls: string, pid: int, ghost q: Query)
    returns (fields: map<string, Field>)
    requires BuildEnds(q, cls, pid) && q.plan == plan && Holds(h, q)
    ensures fields == FieldsOf(q, cls, pid, |Targets(plan.graph, cls)|)
    decreases Rank(RecordEdges(q), (cls, pid)), 1
  {
    var targets := Targets(plan.graph, cls);
    fields := map[];
    for j := 0 to |targets|
      invariant fields == FieldsOf(q, cls, pid, j)
    {
      var (target, kind) := targets[j];
      var children := BuildRecursive(h, plan, target, pid, q, cls, j);
      fields := fields[RelationKey(plan, cls, target, kind) := FieldOf(kind, children)];
    }
  }

  // ---------------------------------------------------------------- when the recursion ends

  /** The recursion below an object is bounded if and only if no record comes back below itself. */
  lemma BuildEndsIff(q: Query, cls: string, pid: int)
    ensures BuildEnds(q, cls, pid) <==> exists bound: nat :: DepthAtMost(RecordEdges(q), (cls, pid), bound)
  {
    DepthBoundedIff(RecordEdges(q), (cls, pid));
  }

  /** Relations without a cycle are enough, whatever the rows hold. */
  lemma AcyclicRelationsEnd(q: Query, cls: string, pid: int)
    requires Acyclic(EdgesOf(q.plan.graph))
    ensures BuildEnds(q, cls, pid)
  {
    forall v: (string, int) | Reaches(RecordEdges(q), v, v) ensures Reaches(EdgesOf(q.plan.graph), v.0, v.0) {
      var w: seq<(string, int)> :| Walk(RecordEdges(q), v, w, v);
      var classes := seq(|w|, i requires 0 <= i < |w| => w[i].0);
      forall i | 0 <= i < |classes| - 1 ensures (classes[i], classes[i + 1]) in EdgesOf(q.plan.graph) {
        assert (w[i], w[i + 1]) in RecordEdges(q);
        var k :| 0 <= k < |q.plan.graph[w[i].0]| && q.plan.graph[w[i].0][k].0 == w[i + 1].0;
        assert (w[i].0, q.plan.graph[w[i].0][k].0) in EdgesOf(q.plan.graph);
      }
      assert Walk(EdgesOf(q.plan.graph), v.0, classes, v.0);
    }
  }

  // ---------------------------------------------------------------- flat results

  /** Without relations every joined object of a main object goes into one list per class. */
  function FlatKids(rows: seq<Row>, main: int, cls: string): seq<Obj> {
    if rows == [] then []
    else
      var row := rows[|rows| - 1];
      FlatKids(rows[..|rows| - 1], main, cls) + (if MainRow(row, main) then OfClass(row[1..], cls) else [])
  }

  function FlatField(objs: seq<Obj>): Field {
    if |objs| == 1 then One(Rec(objs[0], map[])) else List(seq(|objs|, k requires 0 <= k < |objs| => Rec(objs[k], map[])))
  }

  method GroupByClass(rows: seq<Row>, main: int) returns (grouped: map<string, seq<Obj>>)
    ensures forall c :: c in grouped <==> FlatKids(rows, main, c) != []
    ensures forall c :: c in grouped ==> grouped[c] == FlatKids(rows, main, c)
  {
    grouped := map[];
    for i := 0 to |rows|
      invariant forall c :: c in grouped <==> FlatKids(rows[..i], main, c) != []
      invariant forall c :: c in grouped ==> grouped[c] == FlatKids(rows[..i], main, c)
    {
      var row := rows[i];
      assert rows[..i + 1][..i] == rows[..i];
      if MainRow(row, main) {
        grouped := GroupRow(row[1..], grouped);
      }
    }
    assert rows[..|rows|] == rows;
  }

  predicate Grouped(grouped: map<string, seq<Obj>>, r: map<string, seq<Obj>>, items: seq<Option<Obj>>, cls: string) {
    && (cls in r <==> cls in grouped || OfClass(items, cls) != [])
    && (cls in r ==> r[cls] == (if cls in grouped then grouped[cls] else []) + OfClass(items, cls))
  }

  lemma GroupedSnoc(grouped: map<string, seq<Obj>>, r: map<string, seq<Obj>>, items: seq<Option<Obj>>, n: nat,
                    cls: string)
    requires n < |items| && Grouped(grouped, r, items[..n], cls)
    ensures items[n].None? ==> Grouped(grouped, r, items[..n + 1], cls)
    ensures items[n].Some? ==>
      var o := items[n].value;
      Grouped(grouped, r[o.cls := (if o.cls in r then r[o.cls] else []) + [o]], items[..n + 1], cls)
  {
    OfClassSnoc(items, n, cls);
  }

  method GroupRow(items: seq<Option<Obj>>, grouped: map<string, seq<Obj>>) returns (r: map<string, seq<Obj>>)
    ensures forall c :: c in r <==> c in grouped || OfClass(items, c) != []
    ensures forall c :: c in r ==> r[c] == (if c in grouped then grouped[c] else []) + OfClass(items, c)
  {
    r := grouped;
    for j := 0 to |items|
      invariant forall c :: Grouped(grouped, r, items[..j], c)
    {
      ghost var before, front := r, items[..j + 1];
      if items[j].Some? {
        var o := items[j].value;
        r := r[o.cls := (if o.cls in r then r[o.cls] else []) + [o]];
      }
      forall c ensures Grouped(grouped, r, front, c) {
        assert Grouped(grouped, before, items[..j], c);
        GroupedSnoc(grouped, before, items, j, c);
      }
    }
    assert items[..|items|] == items;
    forall c
      ensures c in r <==> c in grouped || OfClass(items, c) != []
      ensures c in r ==> r[c] == (if c in grouped then grouped[c] else []) + OfClass(items, c)
    {
      assert Grouped(grouped, r, items, c);
    }
  }

  ghost function FlatFields(rows: seq<Row>, main: int, mainName: string, classes: set<string>): map<string, Field> {
    map c | c in classes && c != mainName && FlatKids(rows, main, c) != [] :: FlatField(Unique(FlatKids(rows, main, c)))
  }

  // ---------------------------------------------------------------- one record per main object

  function MainKeys(rows: seq<Row>): set<int> {
    set i | 0 <= i < |rows| && rows[i] != [] && rows[i][0].Some? :: MainKey(rows[i][0].value)
  }

  /** The main object of the first row with this key. */
  ghost function FirstMain(rows: seq<Row>, main: int): Obj
    requires main in MainKeys(rows)
  {
    if MainRow(rows[0], main) then rows[0][0].value
    else
      var i :| 0 <= i < |rows| && MainRow(rows[i], main);
      assert rows[1..][i - 1] == rows[i];
      FirstMain(rows[1..], main)
  }

  method CollectMain(rows: seq<Row>) returns (mains: map<int, Obj>)
    ensures mains.Keys == MainKeys(rows)
    ensures forall m :: m in mains ==> mains[m] == FirstMain(rows, m)
  {
    mains := map[];
    for i := 0 to |rows|
      invariant mains.Keys == MainKeys(rows[..i])
      invariant forall m :: m in mains ==> mains[m] == FirstMain(rows[..i], m)
    {
      var row := rows[i];
      assert rows[..i + 1] == rows[..i] + [row];
      MainSnoc(rows[..i], row);
      if row != [] && row[0].Some? {
        var m := MainKey(row[0].value);
        if m !in mains {
          mains := mains[m := row[0].value];
        }
      }
    }
    assert rows[..|rows|] == rows;
  }

  lemma {:induction false} MainSnoc(front: seq<Row>, row: Row)
    ensures MainKeys(front + [row]) ==
      MainKeys(front) + (if row != [] && row[0].Some? then {MainKey(row[0].value)} else {})
    ensures forall m :: m in MainKeys(front + [row]) ==>
      FirstMain(front + [row], m) == if m in MainKeys(front) then FirstMain(front, m) else row[0].value
  {
    var all := front + [row];
    assert forall i :: 0 <= i < |front| ==> all[i] == front[i];
    assert all[|front|] == row;
    if front != [] {
      MainSnoc(front[1..], row);
      assert all[1..] == front[1..] + [row];
      forall m | m in MainKeys(all)
        ensures FirstMain(all, m) == if m in MainKeys(front) then FirstMain(front, m) else row[0].value
      {
        assert all[0] == front[0];
        if m in MainKeys(front) && !MainRow(front[0], m) {
          var i :| 0 <= i < |front| && MainRow(front[i], m);
          assert front[1..][i - 1] == front[i];
        }
      }
    }
  }

  lemma HasElement(s: set<int>)
    requires s != {}
    ensures exists x :: x in s
  {
    assert (forall x: int :: x !in s) ==> s == {};
  }

  method Least(s: set<int>) returns (m: int)
    requires s != {}
    ensures m in s && forall y :: y in s ==> m <= y
  {
    HasElement(s);
    m :| m in s;
    var others := s - {m};
    while others != {}
      invariant m in s && others <= s
      invariant forall y :: y in s && y !in others ==> m <= y
      decreases others
    {
      HasElement(others);
      var y :| y in others;
      others := others - {y};
      if y < m {
        m := y;
      }
    }
  }

  method Ascending(keys: set<int>) returns (r: seq<int>)
    ensures forall j, k :: 0 <= j < k < |r| ==> r[j] < r[k]
    ensures forall x :: x in r <==> x in keys
    ensures |r| == |keys|
  {
    var rest := keys;
    r := [];
    while rest != {}
      invariant forall j, k :: 0 <= j < k < |r| ==> r[j] < r[k]
      invariant forall x :: x in keys <==> x in r || x in rest
      invariant forall j, y :: 0 <= j < |r| && y in rest ==> r[j] < y
      invariant |r| + |rest| == |keys|
      decreases rest
    {
      var m := Least(rest);
      r := r + [m];
      rest := rest - {m};
    }
  }

  /** The record of one main object, by its key. */
  ghost function RecordOf(q: Query, mainName: string): Rec
    requires q.main in MainKeys(q.rows) && BuildEnds(q, mainName, q.main)
  {
    Rec(FirstMain(q.rows, q.main),
        if q.plan.graph != map[]
        then FieldsOf(q, mainName, q.main, |Targets(q.plan.graph, mainName)|)
        else FlatFields(q.rows, q.main, mainName, ClassesOf(q.rows)))
  }

  /** The recursion ends for every main object. */
  ghost predicate AllEnd(plan: Plan, rows: seq<Row>, mainName: string) {
    forall m :: m in MainKeys(rows) ==> BuildEnds(Query(plan, rows, m), mainName, m)
  }

  method SelectJoinSerialize(rows: seq<Row>, relationships: seq<string>) returns (r: Outcome, ghost keys: seq<int>)
    requires rows != [] && rows[0] != [] && rows[0][0].Some? ==>
      AllEnd(PlanOf(Relations(relationships)), rows, rows[0][0].value.cls)
    ensures r.Nothing? <==> rows == [] || (rows[0] != [] && rows[0][0].None?)
    ensures r.Unmapped? <==> rows != [] && rows[0] == []
    // one record per distinct main key, ascending, each built from the first row with that key
    ensures r.Single? || r.Many? ==>
      && (forall j, k :: 0 <= j < k < |keys| ==> keys[j] < keys[k])
      && (forall m :: m in keys <==> m in MainKeys(rows))
      && (r.Single? <==> |keys| == 1)
    ensures r.Single? ==>
      r.rec == RecordOf(Query(PlanOf(Relations(relationships)), rows, keys[0]), rows[0][0].value.cls)
    ensures r.Many? ==> |r.recs| == |keys| && forall k :: 0 <= k < |keys| ==>
      r.recs[k] == RecordOf(Query(PlanOf(Relations(relationships)), rows, keys[k]), rows[0][0].value.cls)
  {
    keys := [];
    if rows == [] {
      return Nothing, [];
    }
    var first := rows[0];
    if first == [] {
      return Unmapped, [];
    }
    if first[0].None? {
      return Nothing, [];
    }
    var mainName := first[0].value.cls;
    var plan := ParseRelationships(relationships);
    var idxs := FindColumns(rows);
    var mains := CollectMain(rows);
    var sorted := Ascending(mains.Keys);
    keys := sorted;
    var recs := BuildRecords(plan, idxs, rows, mainName, mains, sorted);
    assert MainKey(first[0].value) in MainKeys(rows);
    if |recs| == 1 {
      r := Single(recs[0]);
    } else {
      r := Many(recs);
    }
  }

  /** The record of every main object, in this order. */
  method BuildRecords(plan: Plan, idxs: map<string, nat>, rows: seq<Row>, mainName: string, mains: map<int, Obj>,
                      sorted: seq<int>) returns (recs: seq<Rec>)
    requires AllEnd(plan, rows, mainName) && idxs == ColumnsOf(rows)
    requires mains.Keys == MainKeys(rows) && forall m :: m in mains ==> mains[m] == FirstMain(rows, m)
    requires forall m :: m in sorted ==> m in mains
    ensures |recs| == |sorted|
    ensures forall k :: 0 <= k < |sorted| ==> recs[k] == RecordOf(Query(plan, rows, sorted[k]), mainName)
  {
    recs := [];
    for i := 0 to |sorted|
      invariant |recs| == i
      invariant forall k :: 0 <= k < i ==> recs[k] == RecordOf(Query(plan, rows, sorted[k]), mainName)
    {
      assert sorted[i] in sorted;
      var fields;
      if plan.graph != map[] {
        fields := BuildNested(plan, idxs, rows, mainName, sorted[i]);
      } else {
        fields := BuildFlat(rows, mainName, sorted[i]);
      }
      recs := recs + [Rec(mains[sorted[i]], fields)];
    }
  }

  method BuildNested(plan: Plan, idxs: map<string, nat>, rows: seq<Row>, mainName: string, main: int)
    returns (fields: map<string, Field>)
    requires BuildEnds(Query(plan, rows, main), mainName, main) && idxs == ColumnsOf(rows)
    ensures fields == FieldsOf(Query(plan, rows, main), mainName, main, |Targets(plan.graph, mainName)|)
  {
    var h := BuildHierarchy(plan, idxs, rows, main);
    assert Holds(h, Query(plan, rows, main));
    fields := BuildFields(h, plan, mainName, main, Query(plan, rows, main));
  }

  ghost function ClassesOf(rows: seq<Row>): set<string> {
    set i, j | 0 <= i < |rows| && 0 <= j < |rows[i]| && rows[i][j].Some? :: rows[i][j].value.cls
  }

  method BuildFlat(rows: seq<Row>, mainName: string, main: int) returns (fields: map<string, Field>)
    ensures fields == FlatFields(rows, main, mainName, ClassesOf(rows))
  {
    var grouped := GroupByClass(rows, main);
    fields := map[];
    var rest := grouped.Keys;
    while rest != {}
      invariant rest <= grouped.Keys
      invariant forall c :: c in fields <==> c in grouped && c !in rest && c != mainName
      invariant forall c :: c in fields ==> fields[c] == FlatField(Unique(grouped[c]))
      decreases rest
    {
      var c :| c in rest;
      rest := rest - {c};
      if c != mainName {
        var flat := GetUniqueObjects(grouped[c]);
        fields := fields[c := FlatField(flat)];
      }
    }
    FlatIsWhole(rows, main, mainName, grouped, fields);
  }

  lemma FlatIsWhole(rows: seq<Row>, main: int, mainName: string, grouped: map<string, seq<Obj>>,
                    fields: map<string, Field>)
    requires forall c :: c in grouped <==> FlatKids(rows, main, c) != []
    requires forall c :: c in grouped ==> grouped[c] == FlatKids(rows, main, c)
    requires forall c :: c in fields <==> c in grouped && c != mainName
    requires forall c :: c in fields ==> fields[c] == FlatField(Unique(grouped[c]))
    ensures fields == FlatFields(rows, main, mainName, ClassesOf(rows))
  {
    var flat := FlatFields(rows, main, mainName, ClassesOf(rows));
    forall c ensures c in fields <==> c in flat {
      if c in fields {
        FlatKidsSeen(rows, main, c);
      }
    }
  }

  lemma {:induction false} OfClassSeen(items: seq<Option<Obj>>, cls: string)
    requires OfClass(items, cls) != []
    ensures exists j :: 0 <= j < |items| && items[j].Some? && items[j].value.cls == cls
  {
    var n := |items| - 1;
    if !(items[n].Some? && items[n].value.cls == cls) {
      OfClassSeen(items[..n], cls);
    }
  }

  lemma {:induction false} FlatKidsSeen(rows: seq<Row>, main: int, cls: string)
    requires FlatKids(rows, main, cls) != []
    ensures cls in ClassesOf(rows)
  {
    var n := |rows| - 1;
    if MainRow(rows[n], main) && OfClass(rows[n][1..], cls) != [] {
      OfClassSeen(rows[n][1..], cls);
      var j :| 0 <= j < |rows[n]| - 1 && rows[n][1..][j].Some? && rows[n][1..][j].value.cls == cls;
      assert rows[n][j + 1].Some?;
    } else {
      FlatKidsSeen(rows[..n], main, cls);
      var i, j :| 0 <= i < n && 0 <= j < |rows[i]| && rows[i][j].Some? && rows[i][j].value.cls == cls;
      assert rows[i][j].Some?;
    }
  }
}
