/** Flat rows with parent ids, made into a forest: by one traversal, or by recursion. */
module BuildTree {
  import opened Digraph
  import opened Options

  /** A row: `id` is its key, `key` what `sort_key` selects, `data` everything else. */
  datatype Row = Row(id: int, parentId: Option<int>, key: int, data: int)

  /** A row and the vertex it hangs under: its parent id, or None at the top. */
  datatype Link = Link(up: Option<int>, row: Row)

  datatype Tree = Tree(row: Row, children: seq<Tree>)

  predicate UniqueIds(links: seq<Link>) {
    forall j, k :: 0 <= j < k < |links| ==> links[j].row.id != links[k].row.id
  }

  predicate UniqueRows(rows: seq<Row>) {
    forall j, k :: 0 <= j < k < |rows| ==> rows[j].id != rows[k].id
  }

  /** The rows under one vertex, in order. */
  function Filter(links: seq<Link>, up: Option<int>): seq<Row> {
    if links == [] then []
    else
      var n := |links| - 1;
      Filter(links[..n], up) + (if links[n].up == up then [links[n].row] else [])
  }

  predicate HasId(rows: seq<Row>, id: int) {
    exists k :: 0 <= k < |rows| && rows[k].id == id
  }

  /** A row that names a parent which is not there. */
  predicate Orphan(rows: seq<Row>, r: Row) {
    r.parentId.Some? && !HasId(rows, r.parentId.value)
  }

  /** Every row hangs where its parent id says: how the recursive builder sees the rows. */
  function AsNamed(rows: seq<Row>): seq<Link> {
    seq(|rows|, k requires 0 <= k < |rows| => Link(rows[k].parentId, rows[k]))
  }

  /** The vertex a row hangs under when orphans are adopted by the top. */
  function HangsUnder(rows: seq<Row>, r: Row): Option<int> {
    if Orphan(rows, r) then None else r.parentId
  }

  /** Orphans hang at the top: how the traversing builder sees the rows. */
  function Adopted(rows: seq<Row>): seq<Link> {
    seq(|rows|, k requires 0 <= k < |rows| => Link(HangsUnder(rows, rows[k]), rows[k]))
  }

  lemma UniqueLinks(rows: seq<Row>)
    requires UniqueRows(rows)
    ensures UniqueIds(AsNamed(rows)) && UniqueIds(Adopted(rows))
  {
  }

  // ---------------------------------------------------------------- the parent relation as a graph

  /** None stands above the roots. */
  ghost function Links(links: seq<Link>): set<(Option<int>, Option<int>)> {
    set k | 0 <= k < |links| :: (links[k].up, Some(links[k].row.id))
  }

  lemma LinkAt(links: seq<Link>, r: Link)
    requires r in links
    ensures (r.up, Some(r.row.id)) in Links(links)
  {
    var k :| 0 <= k < |links| && links[k] == r;
    assert (links[k].up, Some(links[k].row.id)) in Links(links);
  }

  lemma UniqueMeansOneParent(links: seq<Link>)
    requires UniqueIds(links)
    ensures OneParent(Links(links))
  {
  }

  /** Nothing at or below p is on a parent cycle. */
  ghost predicate Grounded(links: seq<Link>, p: Option<int>) {
    OffCycles(Links(links), p)
  }

  /** With unique ids it is enough that p itself is on no cycle; the null root never is. */
  lemma GroundedIff(links: seq<Link>, p: Option<int>)
    requires UniqueIds(links)
    ensures Grounded(links, p) <==> !Reaches(Links(links), p, p)
    ensures Grounded(links, None)
  {
    var e := Links(links);
    forall q, v | AtOrAbove(e, q, v) && Reaches(e, v, v) ensures Reaches(e, q, q) {
      if q != v {
        var w :| Walk(e, q, w, v);
        CycleHasNoEntry(e, q, w, v);
      }
    }
    if Reaches(e, None, None) {
      var b := LastEdge(e, None, None);
    }
  }

  lemma ChildGrounded(links: seq<Link>, p: Option<int>, r: Link)
    requires Grounded(links, p) && r in links && r.up == p
    ensures Grounded(links, Some(r.row.id))
    ensures Rank(Links(links), Some(r.row.id)) < Rank(Links(links), p)
  {
    LinkAt(links, r);
    OffCyclesBelow(Links(links), p, Some(r.row.id));
  }

  // ---------------------------------------------------------------- the forest below a vertex

  /** The subtrees under p, in row order. */
  ghost function Grow(links: seq<Link>, p: Option<int>): seq<Tree>
    requires Grounded(links, p)
    decreases Rank(Links(links), p), 1, 0
  {
    GrowFirst(links, p, |links|)
  }

  ghost function GrowFirst(links: seq<Link>, p: Option<int>, n: nat): seq<Tree>
    requires Grounded(links, p) && n <= |links|
    decreases Rank(Links(links), p), 0, n
  {
    if n == 0 then []
    else if links[n - 1].up == p then
      ChildGrounded(links, p, links[n - 1]);
      GrowFirst(links, p, n - 1) + [Tree(links[n - 1].row, Grow(links, Some(links[n - 1].row.id)))]
    else GrowFirst(links, p, n - 1)
  }

  function Flatten(forest: seq<Tree>): seq<Row> {
    if forest == [] then []
    else
      var t := forest[|forest| - 1];
      Flatten(forest[..|forest| - 1]) + [t.row] + Flatten(t.children)
  }

  function Occurrences(forest: seq<Tree>, r: Row): nat {
    if forest == [] then 0
    else
      var t := forest[|forest| - 1];
      Occurrences(forest[..|forest| - 1], r) + (if t.row == r then 1 else 0) + Occurrences(t.children, r)
  }

  lemma {:induction false} FlattenOccurrences(forest: seq<Tree>, r: Row)
    ensures multiset(Flatten(forest))[r] == Occurrences(forest, r)
  {
    if forest != [] {
      var t := forest[|forest| - 1];
      FlattenOccurrences(forest[..|forest| - 1], r);
      FlattenOccurrences(t.children, r);
    }
  }

  /** Row r is at the root of the subtree of c, or below it. */
  ghost predicate Under(links: seq<Link>, c: Link, r: Link) {
    AtOrAbove(Links(links), Some(c.row.id), Some(r.row.id))
  }

  /** How often r occurs in the forest below p: once if r is below p, otherwise never. */
  lemma {:induction false} FlattenCounts(links: seq<Link>, p: Option<int>, r: Link)
    requires UniqueIds(links) && Grounded(links, p) && r in links
    ensures Occurrences(Grow(links, p), r.row) == if Reaches(Links(links), p, Some(r.row.id)) then 1 else 0
    decreases Rank(Links(links), p), 1, 0
  {
    FlattenFirst(links, p, |links|, r);
    BelowIsUnderChild(links, p, r);
  }

  lemma BelowIsUnderChild(links: seq<Link>, p: Option<int>, r: Link)
    ensures Reaches(Links(links), p, Some(r.row.id)) <==> UnderOneOf(links, p, |links|, r)
  {
    var e := Links(links);
    if Reaches(e, p, Some(r.row.id)) {
      var b := FirstEdge(e, p, Some(r.row.id));
      var k :| 0 <= k < |links| && (links[k].up, Some(links[k].row.id)) == (p, b);
      assert Under(links, links[k], r);
    }
    if k :| 0 <= k < |links| && links[k].up == p && Under(links, links[k], r) {
      LinkAt(links, links[k]);
      Edge(e, p, Some(links[k].row.id));
      if links[k].row.id != r.row.id {
        Joined(e, p, Some(links[k].row.id), Some(r.row.id));
      }
    }
  }

  ghost predicate UnderOneOf(links: seq<Link>, p: Option<int>, n: nat, r: Link)
    requires n <= |links|
  {
    exists k :: 0 <= k < n && links[k].up == p && Under(links, links[k], r)
  }

  lemma {:induction false} FlattenFirst(links: seq<Link>, p: Option<int>, n: nat, r: Link)
    requires UniqueIds(links) && Grounded(links, p) && r in links && n <= |links|
    ensures Occurrences(GrowFirst(links, p, n), r.row) == if UnderOneOf(links, p, n, r) then 1 else 0
    decreases Rank(Links(links), p), 0, n
  {
    if n > 0 {
      FlattenFirst(links, p, n - 1, r);
      var c := links[n - 1];
      if c.up == p {
        ChildGrounded(links, p, c);
        FlattenCounts(links, Some(c.row.id), r);
        var front, t := GrowFirst(links, p, n - 1), Tree(c.row, Grow(links, Some(c.row.id)));
        assert GrowFirst(links, p, n) == front + [t] && (front + [t])[..|front|] == front;
        SameRow(links, c, r);
        OnlyOneAbove(links, p, n, r);
      } else {
        assert UnderOneOf(links, p, n, r) == UnderOneOf(links, p, n - 1, r);
      }
    }
  }

  /** If r is under the last of the first n links, it is under no other child of p, and either is that child or below it. */
  lemma OnlyOneAbove(links: seq<Link>, p: Option<int>, n: nat, r: Link)
    requires UniqueIds(links) && Grounded(links, p) && r in links && 0 < n <= |links| && links[n - 1].up == p
    ensures var c := links[n - 1];
      && (c == r ==> !Reaches(Links(links), Some(c.row.id), Some(r.row.id)))
      && UnderOneOf(links, p, n, r) == (UnderOneOf(links, p, n - 1, r) || Under(links, c, r))
      && !(UnderOneOf(links, p, n - 1, r) && Under(links, c, r))
  {
    var c := links[n - 1];
    ChildGrounded(links, p, c);
    if Under(links, c, r) {
      forall k | 0 <= k < n - 1 && links[k].up == p ensures !Under(links, links[k], r) {
        SiblingsApart(links, p, links[k], c, r);
      }
    }
  }

  lemma SameRow(links: seq<Link>, c: Link, r: Link)
    requires UniqueIds(links) && c in links && r in links
    ensures c.row == r.row <==> c.row.id == r.row.id
    ensures c.row == r.row ==> c == r
  {
  }

  /** Two children of one parent share nothing below them. */
  lemma SiblingsApart(links: seq<Link>, p: Option<int>, b: Link, c: Link, r: Link)
    requires UniqueIds(links) && Grounded(links, p) && b in links && c in links && b.up == p && c.up == p && b.row.id != c.row.id
    requires Under(links, c, r)
    ensures !Under(links, b, r)
  {
    var e := Links(links);
    UniqueMeansOneParent(links);
    NotAbove(links, p, b, c);
    NotAbove(links, p, c, b);
    if Reaches(e, Some(b.row.id), Some(r.row.id)) {
      var w :| Walk(e, Some(b.row.id), w, Some(r.row.id));
      Comparable(e, Some(b.row.id), Some(c.row.id), w, Some(r.row.id));
    }
  }

  lemma NotAbove(links: seq<Link>, p: Option<int>, b: Link, c: Link)
    requires UniqueIds(links) && Grounded(links, p) && b in links && c in links && b.up == p && c.up == p
    ensures !Reaches(Links(links), Some(b.row.id), Some(c.row.id))
  {
    var e := Links(links);
    UniqueMeansOneParent(links);
    LinkAt(links, b);
    LinkAt(links, c);
    Edge(e, p, Some(b.row.id));
    if Reaches(e, Some(b.row.id), Some(c.row.id)) {
      var q := LastEdge(e, Some(b.row.id), Some(c.row.id));
      assert (q, Some(c.row.id)).1 == (p, Some(c.row.id)).1;
      assert q == p;
      if q != Some(b.row.id) {
        Joined(e, p, Some(b.row.id), p);
      }
    }
  }

  // ---------------------------------------------------------------- what the traversal's forest contains

  /** The forest that `traversal_to_tree` describes. */
  ghost function Forest(rows: seq<Row>): seq<Tree>
    requires UniqueRows(rows)
  {
    UniqueLinks(rows);
    GroundedIff(Adopted(rows), None);
    Grow(Adopted(rows), None)
  }

  ghost predicate NoParentCycle(rows: seq<Row>) {
    Acyclic(Links(AsNamed(rows)))
  }

  lemma SameCycles(rows: seq<Row>, v: Option<int>)
    requires UniqueRows(rows)
    ensures Reaches(Links(AsNamed(rows)), v, v) <==> Reaches(Links(Adopted(rows)), v, v)
  {
    UniqueLinks(rows);
    var named, adopted := Links(AsNamed(rows)), Links(Adopted(rows));
    if w :| Walk(named, v, w, v) {
      forall i | 0 <= i < |w| - 1 ensures (w[i], w[i + 1]) in adopted {
        assert i > 0 ==> (w[i - 1], w[i]) in named;
        assert (w[|w| - 2], w[|w| - 1]) in named;
        var j :| 0 <= j < |rows| && w[i] == Some(rows[j].id);
        var k :| 0 <= k < |rows| && (w[i], w[i + 1]) == (rows[k].parentId, Some(rows[k].id));
        assert HasId(rows, rows[j].id);
        assert (Adopted(rows)[k].up, Some(Adopted(rows)[k].row.id)) in adopted;
      }
      assert Walk(adopted, v, w, v);
    }
    if w :| Walk(adopted, v, w, v) {
      forall i | 0 <= i < |w| - 1 ensures (w[i], w[i + 1]) in named {
        assert i > 0 ==> (w[i - 1], w[i]) in adopted;
        assert (w[|w| - 2], w[|w| - 1]) in adopted;
        assert w[i] != None;
        var k :| 0 <= k < |rows| && (w[i], w[i + 1]) == (Adopted(rows)[k].up, Some(rows[k].id));
        assert (AsNamed(rows)[k].up, Some(AsNamed(rows)[k].row.id)) in named;
      }
      assert Walk(named, v, w, v);
    }
  }

  /** Without cycles every row is below the top. */
  lemma {:induction false} AllBelowTop(rows: seq<Row>, k: nat)
    requires UniqueRows(rows) && NoParentCycle(rows) && k < |rows|
    ensures Reaches(Links(Adopted(rows)), None, Some(rows[k].id))
    decreases |Above(Links(Adopted(rows)), Some(rows[k].id))|
  {
    UniqueLinks(rows);
    var links := Adopted(rows);
    var e := Links(links);
    LinkAt(links, links[k]);
    Edge(e, links[k].up, Some(rows[k].id));
    if links[k].up.Some? {
      var j :| 0 <= j < |rows| && rows[j].id == links[k].up.value;
      SameCycles(rows, Some(rows[j].id));
      AboveFalls(e, Some(rows[j].id), Some(rows[k].id));
      AllBelowTop(rows, j);
      Joined(e, None, Some(rows[j].id), Some(rows[k].id));
    }
  }

  lemma {:induction false} FlattenFromRows(links: seq<Link>, p: Option<int>, n: nat, r: Row)
    requires Grounded(links, p) && n <= |links| && r in Flatten(GrowFirst(links, p, n))
    ensures exists k :: 0 <= k < |links| && links[k].row == r
    decreases Rank(Links(links), p), n
  {
    if n > 0 {
      var l := links[n - 1];
      if l.up == p {
        ChildGrounded(links, p, l);
        var front, t := GrowFirst(links, p, n - 1), Tree(l.row, Grow(links, Some(l.row.id)));
        assert GrowFirst(links, p, n) == front + [t] && (front + [t])[..|front|] == front;
        if r in Flatten(t.children) {
          FlattenFromRows(links, Some(l.row.id), |links|, r);
        } else if r in Flatten(front) {
          FlattenFromRows(links, p, n - 1, r);
        }
      } else {
        FlattenFromRows(links, p, n - 1, r);
      }
    }
  }

  lemma {:induction false} UniqueCount(rows: seq<Row>, r: Row)
    requires UniqueRows(rows)
    ensures multiset(rows)[r] == if r in rows then 1 else 0
  {
    if rows != [] {
      var n := |rows| - 1;
      assert rows == rows[..n] + [rows[n]];
      UniqueCount(rows[..n], r);
    }
  }

  /** How often the traversal's forest holds a row: once if the top reaches it, else never. */
  lemma ForestHolds(rows: seq<Row>, k: nat)
    requires UniqueRows(rows) && k < |rows|
    ensures multiset(Flatten(Forest(rows)))[rows[k]]
         == if Reaches(Links(Adopted(rows)), None, Some(rows[k].id)) then 1 else 0
  {
    UniqueLinks(rows);
    var links := Adopted(rows);
    GroundedIff(links, None);
    FlattenOccurrences(Forest(rows), rows[k]);
    FlattenCounts(links, None, links[k]);
  }

  lemma ForestAddsNone(rows: seq<Row>, r: Row)
    requires UniqueRows(rows) && r !in rows
    ensures multiset(Flatten(Forest(rows)))[r] == 0
  {
    UniqueLinks(rows);
    GroundedIff(Adopted(rows), None);
    if r in Flatten(Forest(rows)) {
      FlattenFromRows(Adopted(rows), None, |rows|, r);
    }
  }

  lemma CycleIsMissing(rows: seq<Row>)
    requires UniqueRows(rows) && !NoParentCycle(rows)
    ensures exists k :: 0 <= k < |rows| && multiset(Flatten(Forest(rows)))[rows[k]] == 0
  {
    var links := Adopted(rows);
    UniqueLinks(rows);
    GroundedIff(links, None);
    var v :| Reaches(Links(AsNamed(rows)), v, v);
    SameCycles(rows, v);
    var u := LastEdge(Links(links), v, v);
    var k :| 0 <= k < |rows| && Some(links[k].row.id) == v;
    ForestHolds(rows, k);
  }

  /** The traversal's forest holds every row exactly once if and only if the parent ids form no cycle. */
  lemma ForestIsPermutation(rows: seq<Row>)
    requires UniqueRows(rows)
    ensures multiset(Flatten(Forest(rows))) == multiset(rows) <==> NoParentCycle(rows)
  {
    var flat := Flatten(Forest(rows));
    if NoParentCycle(rows) {
      forall r: Row ensures multiset(flat)[r] == multiset(rows)[r] {
        UniqueCount(rows, r);
        if r in rows {
          var k :| 0 <= k < |rows| && rows[k] == r;
          AllBelowTop(rows, k);
          ForestHolds(rows, k);
        } else {
          ForestAddsNone(rows, r);
        }
      }
    } else {
      CycleIsMissing(rows);
      var k :| 0 <= k < |rows| && multiset(flat)[rows[k]] == 0;
      UniqueCount(rows, rows[k]);
    }
  }

  /** Every node sits under the node that its parent id names. */
  predicate WellParented(forest: seq<Tree>) {
    forall t :: t in forest ==>
      (forall c :: c in t.children ==> c.row.parentId == Some(t.row.id)) && WellParented(t.children)
  }

  lemma {:induction false} ForestWellParented(rows: seq<Row>, p: Option<int>, n: nat)
    requires Grounded(Adopted(rows), p) && n <= |rows|
    ensures WellParented(GrowFirst(Adopted(rows), p, n))
    ensures p.Some? ==> forall t :: t in GrowFirst(Adopted(rows), p, n) ==> t.row.parentId == p
    decreases Rank(Links(Adopted(rows)), p), n
  {
    if n > 0 {
      var l := Adopted(rows)[n - 1];
      ForestWellParented(rows, p, n - 1);
      if l.up == p {
        ChildGrounded(Adopted(rows), p, l);
        ForestWellParented(rows, Some(l.row.id), |rows|);
      }
    }
  }

  /** In the traversal's forest the roots have no parent id or an absent one, and below them parent ids are met. */
  lemma ForestRespectsParents(rows: seq<Row>)
    requires UniqueRows(rows)
    ensures WellParented(Forest(rows))
    ensures forall t :: t in Forest(rows) ==> t.row.parentId.None? || Orphan(rows, t.row)
  {
    UniqueLinks(rows);
    GroundedIff(Adopted(rows), None);
    ForestWellParented(rows, None, |rows|);
    RootsAreTop(rows, |rows|);
  }

  lemma {:induction false} RootsAreTop(rows: seq<Row>, n: nat)
    requires Grounded(Adopted(rows), None) && n <= |rows|
    ensures forall t :: t in GrowFirst(Adopted(rows), None, n) ==> t.row.parentId.None? || Orphan(rows, t.row)
    decreases n
  {
    if n > 0 {
      RootsAreTop(rows, n - 1);
    }
  }

  // ---------------------------------------------------------------- the two builders agree

  lemma {:induction false} GrowLength(links: seq<Link>, p: Option<int>, n: nat)
    requires Grounded(links, p) && n <= |links|
    ensures |GrowFirst(links, p, n)| == |Filter(links[..n], p)|
    decreases n
  {
    if n > 0 {
      GrowLength(links, p, n - 1);
      assert links[..n][..n - 1] == links[..n - 1];
    }
  }

  lemma {:induction false} AdoptionAddsRoots(rows: seq<Row>, n: nat)
    requires n <= |rows|
    ensures |Filter(Adopted(rows)[..n], None)| >= |Filter(AsNamed(rows)[..n], None)|
    ensures (exists k :: 0 <= k < n && Orphan(rows, rows[k])) ==>
      |Filter(Adopted(rows)[..n], None)| > |Filter(AsNamed(rows)[..n], None)|
    decreases n
  {
    if n > 0 {
      AdoptionAddsRoots(rows, n - 1);
      assert Adopted(rows)[..n][..n - 1] == Adopted(rows)[..n - 1];
      assert AsNamed(rows)[..n][..n - 1] == AsNamed(rows)[..n - 1];
    }
  }

  /** From the null root the recursive builder makes the traversal's forest exactly when there is no orphan. */
  lemma SameForestIff(rows: seq<Row>)
    requires UniqueRows(rows)
    ensures Grounded(AsNamed(rows), None)
    ensures Grow(AsNamed(rows), None) == Forest(rows) <==> forall k :: 0 <= k < |rows| ==> !Orphan(rows, rows[k])
  {
    UniqueLinks(rows);
    GroundedIff(AsNamed(rows), None);
    GroundedIff(Adopted(rows), None);
    GrowLength(AsNamed(rows), None, |rows|);
    GrowLength(Adopted(rows), None, |rows|);
    AdoptionAddsRoots(rows, |rows|);
    if forall k :: 0 <= k < |rows| ==> !Orphan(rows, rows[k]) {
      assert Adopted(rows) == AsNamed(rows);
    }
  }

  // ---------------------------------------------------------------- how deep the recursion goes

  /** With unique ids the recursion from p ends if and only if p is on no parent cycle. */
  lemma RecursionEndsIff(rows: seq<Row>, p: Option<int>)
    requires UniqueRows(rows)
    ensures !Reaches(Links(AsNamed(rows)), p, p) <==>
            exists bound: nat :: DepthAtMost(Links(AsNamed(rows)), p, bound)
  {
    UniqueLinks(rows);
    GroundedIff(AsNamed(rows), p);
    DepthBoundedIff(Links(AsNamed(rows)), p);
  }
}
