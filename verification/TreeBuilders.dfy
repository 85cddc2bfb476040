/** The two builders as they run: nodes whose `children` are filled in place, and the sort before them. */
module TreeBuilders {
  import opened BuildTree
  import opened Digraph
  import opened Options
  import opened TreeSort

  class TreeNode {
    const row: Row
    var children: seq<TreeNode>

    constructor (row: Row)
      ensures this.row == row && children == []
    {
      this.row := row;
      children := [];
    }
  }

  function Rows(nodes: seq<TreeNode>): seq<Row> {
    seq(|nodes|, k requires 0 <= k < |nodes| => nodes[k].row)
  }

  predicate Distinct(nodes: seq<TreeNode>) {
    forall j, k :: 0 <= j < k < |nodes| ==> nodes[j] != nodes[k]
  }

  /** What `select_list_serialize` hands over: one new dictionary per row, without children. */
  ghost predicate FreshNodes(nodes: seq<TreeNode>)
    reads nodes
  {
    Distinct(nodes) && UniqueRows(Rows(nodes)) && forall n :: n in nodes ==> n.children == []
  }

  lemma RowsSnoc(nodes: seq<TreeNode>, n: TreeNode)
    ensures Rows(nodes + [n]) == Rows(nodes) + [n.row]
  {
  }

  // ---------------------------------------------------------------- traversal

  predicate Indexed(nodes: seq<TreeNode>, byId: map<int, TreeNode>) {
    forall id :: id in byId ==> byId[id] in nodes && byId[id].row.id == id
  }

  function ParentNode(nodes: seq<TreeNode>, byId: map<int, TreeNode>, id: int): (n: TreeNode)
    requires Indexed(nodes, byId) && id in byId
    ensures n in nodes && n.row.id == id
  {
    byId[id]
  }

  method IndexById(nodes: seq<TreeNode>) returns (byId: map<int, TreeNode>)
    requires UniqueRows(Rows(nodes))
    ensures forall id :: id in byId <==> HasId(Rows(nodes), id)
    ensures forall n :: n in nodes ==> n.row.id in byId && byId[n.row.id] == n
    ensures Indexed(nodes, byId)
  {
    byId := map[];
    for i := 0 to |nodes|
      invariant forall k :: 0 <= k < i ==> nodes[k].row.id in byId && byId[nodes[k].row.id] == nodes[k]
      invariant forall id :: id in byId ==> byId[id] in nodes && byId[id].row.id == id
    {
      forall k | 0 <= k < i ensures nodes[k].row.id != nodes[i].row.id {
        assert Rows(nodes)[k].id != Rows(nodes)[i].id;
      }
      byId := byId[nodes[i].row.id := nodes[i]];
    }
    forall id | id in byId ensures HasId(Rows(nodes), id) {
      var k :| 0 <= k < |nodes| && nodes[k] == byId[id];
      assert Rows(nodes)[k].id == id;
    }
  }

  /** How far the traversal is after i rows: every list holds the children met so far, in order. */
  ghost predicate Filled(nodes: seq<TreeNode>, tree: seq<TreeNode>, i: nat)
    requires i <= |nodes|
    reads nodes
  {
    var links := Adopted(Rows(nodes));
    && (forall t :: t in tree ==> t in nodes[..i])
    && Rows(tree) == Filter(links[..i], None)
    && (forall n, c :: n in nodes && c in n.children ==> c in nodes[..i])
    && (forall n :: n in nodes ==> Rows(n.children) == Filter(links[..i], Some(n.row.id)))
  }

  lemma FilterStep(links: seq<Link>, i: nat, up: Option<int>)
    requires i < |links|
    ensures Filter(links[..i + 1], up) == Filter(links[..i], up) + (if links[i].up == up then [links[i].row] else [])
  {
    assert links[..i + 1][..i] == links[..i];
  }

  lemma NotYetIn(nodes: seq<TreeNode>, i: nat)
    requires Distinct(nodes) && i < |nodes|
    ensures nodes[i] !in nodes[..i] && nodes[..i + 1] == nodes[..i] + [nodes[i]]
  {
  }

  /** Row i goes to the top. */
  lemma FilledRoot(nodes: seq<TreeNode>, tree: seq<TreeNode>, i: nat)
    requires Distinct(nodes) && i < |nodes| && Filled(nodes, tree, i)
    requires HangsUnder(Rows(nodes), nodes[i].row).None?
    ensures nodes[i] !in tree && Filled(nodes, tree + [nodes[i]], i + 1)
  {
    var links := Adopted(Rows(nodes));
    NotYetIn(nodes, i);
    RowsSnoc(tree, nodes[i]);
    FilterStep(links, i, None);
    forall n | n in nodes ensures Rows(n.children) == Filter(links[..i + 1], Some(n.row.id)) {
      FilterStep(links, i, Some(n.row.id));
    }
  }

  /** Row i goes behind the children that its parent has so far. */
  method FillChild(nodes: seq<TreeNode>, ghost tree: seq<TreeNode>, i: nat, parent: TreeNode)
    requires Distinct(nodes) && UniqueRows(Rows(nodes)) && i < |nodes| && Filled(nodes, tree, i)
    requires parent in nodes && HangsUnder(Rows(nodes), nodes[i].row) == Some(parent.row.id)
    modifies parent
    ensures Filled(nodes, tree, i + 1)
  {
    var node := nodes[i];
    ghost var links := Adopted(Rows(nodes));
    NotYetIn(nodes, i);
    FilterStep(links, i, None);
    if node !in parent.children {
      RowsSnoc(parent.children, node);
      parent.children := parent.children + [node];
    }
    forall n | n in nodes ensures Rows(n.children) == Filter(links[..i + 1], Some(n.row.id)) {
      FilterStep(links, i, Some(n.row.id));
      SameNode(nodes, n, parent);
    }
  }

  lemma SameNode(nodes: seq<TreeNode>, m: TreeNode, n: TreeNode)
    requires UniqueRows(Rows(nodes)) && m in nodes && n in nodes
    ensures m.row.id == n.row.id ==> m == n
  {
    var j :| 0 <= j < |nodes| && nodes[j] == m;
    var k :| 0 <= k < |nodes| && nodes[k] == n;
    assert Rows(nodes)[j] == m.row && Rows(nodes)[k] == n.row;
  }

  method TraversalToTree(nodes: seq<TreeNode>) returns (tree: seq<TreeNode>)
    requires FreshNodes(nodes)
    modifies nodes
    ensures Filled(nodes, tree, |nodes|)
  {
    var byId := IndexById(nodes);
    tree := [];
    for i := 0 to |nodes|
      invariant Filled(nodes, tree, i)
    {
      var node := nodes[i];
      if node.row.parentId.None? {
        FilledRoot(nodes, tree, i);
        tree := tree + [node];
      } else if node.row.parentId.value in byId {
        var parent := ParentNode(nodes, byId, node.row.parentId.value);
        FillChild(nodes, tree, i, parent);
      } else {
        FilledRoot(nodes, tree, i);
        if node !in tree {
          tree := tree + [node];
        }
      }
    }
  }

  // ---------------------------------------------------------------- recursion

  ghost predicate Hung(nodes: seq<TreeNode>, links: seq<Link>, n: TreeNode)
    reads n
  {
    (forall c :: c in n.children ==> c in nodes) && Rows(n.children) == Filter(links, Some(n.row.id))
  }

  /** The node is hung if it is under what was walked so far, and otherwise has the children it had. */
  ghost predicate Settled(nodes: seq<TreeNode>, links: seq<Link>, n: TreeNode, under: bool, had: seq<TreeNode>)
    reads n
  {
    if under then Hung(nodes, links, n) else n.children == had
  }

  ghost predicate BelowNode(nodes: seq<TreeNode>, p: Option<int>, n: TreeNode) {
    Reaches(Links(AsNamed(Rows(nodes))), p, Some(n.row.id))
  }

  /** Node i is a child of p: afterwards it and all nodes below it are hung, and no other node has changed. */
  method HangChild(nodes: seq<TreeNode>, p: Option<int>, i: nat)
    requires Distinct(nodes) && UniqueRows(Rows(nodes)) && i < |nodes|
    requires Grounded(AsNamed(Rows(nodes)), p) && nodes[i].row.parentId == p
    requires forall k :: 0 <= k < |nodes| && Under(AsNamed(Rows(nodes)), AsNamed(Rows(nodes))[i], AsNamed(Rows(nodes))[k])
               ==> nodes[k].children == []
    modifies nodes
    ensures var links := AsNamed(Rows(nodes));
      forall k :: 0 <= k < |nodes| ==>
        Settled(nodes, links, nodes[k], Under(links, links[i], links[k]), old(nodes[k].children))
    decreases Rank(Links(AsNamed(Rows(nodes))), p), 0
  {
    ghost var links := AsNamed(Rows(nodes));
    var node := nodes[i];
    ChildGrounded(links, p, links[i]);
    var id := Some(node.row.id);
    forall k | 0 <= k < |nodes|
      ensures links[k].row.id == node.row.id <==> k == i
      ensures Under(links, links[i], links[k]) <==> k == i || BelowNode(nodes, id, nodes[k])
    {
    }
    assert !BelowNode(nodes, id, node);
    var children := RecursiveToTree(nodes, id);
    if children != [] {
      node.children := children;
    }
  }

  /** What the next row adds to what is under the children of p met so far: its own subtree, or nothing. */
  ghost predicate OneMore(links: seq<Link>, p: Option<int>, i: nat, r: Link)
    requires i < |links|
  {
    var more := links[i].up == p && Under(links, links[i], r);
    && (UnderOneOf(links, p, i + 1, r) <==> UnderOneOf(links, p, i, r) || more)
    && !(UnderOneOf(links, p, i, r) && more)
    && (more ==> UnderOneOf(links, p, |links|, r))
  }

  lemma UnderOneMore(links: seq<Link>, p: Option<int>, i: nat, r: Link)
    requires UniqueIds(links) && Grounded(links, p) && i < |links| && r in links
    ensures OneMore(links, p, i, r)
  {
    if links[i].up == p {
      OnlyOneAbove(links, p, i + 1, r);
    }
  }

  /**
   * Hangs every node below p under its parent and leaves all others alone. With unique ids it is enough for
   * termination that p is on no parent cycle: cycles elsewhere do not matter.
   */
  method RecursiveToTree(nodes: seq<TreeNode>, p: Option<int>) returns (tree: seq<TreeNode>)
    requires Distinct(nodes) && UniqueRows(Rows(nodes))
    requires Grounded(AsNamed(Rows(nodes)), p)
    requires forall k :: 0 <= k < |nodes| && BelowNode(nodes, p, nodes[k]) ==> nodes[k].children == []
    modifies nodes
    ensures forall t :: t in tree ==> t in nodes
    ensures Rows(tree) == Filter(AsNamed(Rows(nodes)), p)
    ensures forall k :: 0 <= k < |nodes| ==>
      Settled(nodes, AsNamed(Rows(nodes)), nodes[k], BelowNode(nodes, p, nodes[k]), old(nodes[k].children))
    decreases Rank(Links(AsNamed(Rows(nodes))), p), 1
  {
    ghost var links := AsNamed(Rows(nodes));
    UniqueLinks(Rows(nodes));
    forall k | 0 <= k < |nodes| ensures UnderOneOf(links, p, |links|, links[k]) == BelowNode(nodes, p, nodes[k]) {
      BelowIsUnderChild(links, p, links[k]);
    }
    tree := [];
    for i := 0 to |nodes|
      invariant forall t :: t in tree ==> t in nodes
      invariant Rows(tree) == Filter(links[..i], p)
      invariant forall k :: 0 <= k < |nodes| ==>
        Settled(nodes, links, nodes[k], UnderOneOf(links, p, i, links[k]), old(nodes[k].children))
    {
      var node := nodes[i];
      FilterStep(links, i, p);
      RowsSnoc(tree, node);
      assert links[i].up == node.row.parentId && links[i].row == node.row;
      forall k | 0 <= k < |nodes| ensures OneMore(links, p, i, links[k]) {
        UnderOneMore(links, p, i, links[k]);
      }
      if node.row.parentId == p {
        HangChild(nodes, p, i);
        tree := tree + [node];
      }
    }
    assert links[..|nodes|] == links;
  }

  // ---------------------------------------------------------------- the heap as a forest

  ghost predicate HungBelow(nodes: seq<TreeNode>, links: seq<Link>, p: Option<int>)
    reads nodes
  {
    forall n :: n in nodes && Reaches(Links(links), p, Some(n.row.id)) ==> Hung(nodes, links, n)
  }

  ghost predicate Heads(nodes: seq<TreeNode>, links: seq<Link>, p: Option<int>, forest: seq<TreeNode>) {
    (forall t :: t in forest ==> t in nodes) && Rows(forest) == Filter(links, p)
  }

  lemma HeadIsChild(nodes: seq<TreeNode>, links: seq<Link>, p: Option<int>, forest: seq<TreeNode>, k: nat)
    requires Grounded(links, p) && Heads(nodes, links, p, forest) && k < |forest|
    ensures var id := Some(forest[k].row.id);
      && Grounded(links, id) && Rank(Links(links), id) < Rank(Links(links), p) && (p, id) in Links(links)
  {
    assert Rows(forest)[k] == forest[k].row;
    var l := FilterSource(links, p, forest[k].row);
    ChildGrounded(links, p, l);
    LinkAt(links, l);
  }

  lemma {:induction false} FilterSource(links: seq<Link>, p: Option<int>, r: Row) returns (l: Link)
    requires r in Filter(links, p)
    ensures l in links && l.up == p && l.row == r
  {
    var n := |links| - 1;
    if links[n].up == p && links[n].row == r {
      l := links[n];
    } else {
      l := FilterSource(links[..n], p, r);
    }
  }

  lemma ChildrenHang(nodes: seq<TreeNode>, links: seq<Link>, p: Option<int>, n: TreeNode)
    requires HungBelow(nodes, links, p) && n in nodes && (p, Some(n.row.id)) in Links(links)
    ensures Heads(nodes, links, Some(n.row.id), n.children) && HungBelow(nodes, links, Some(n.row.id))
  {
    var e, id := Links(links), Some(n.row.id);
    Edge(e, p, id);
    forall m | m in nodes && Reaches(e, id, Some(m.row.id)) ensures Hung(nodes, links, m) {
      Joined(e, p, id, Some(m.row.id));
    }
  }

  /** The value of the nested dictionaries that hang from these nodes. */
  ghost function View(nodes: seq<TreeNode>, links: seq<Link>, p: Option<int>, forest: seq<TreeNode>, n: nat): seq<Tree>
    requires Grounded(links, p) && Heads(nodes, links, p, forest) && HungBelow(nodes, links, p) && n <= |forest|
    reads nodes
    decreases Rank(Links(links), p), n
  {
    if n == 0 then []
    else
      var node := forest[n - 1];
      HeadIsChild(nodes, links, p, forest, n - 1);
      ChildrenHang(nodes, links, p, node);
      View(nodes, links, p, forest, n - 1)
      + [Tree(node.row, View(nodes, links, Some(node.row.id), node.children, |node.children|))]
  }

  lemma {:induction false} GrowAt(links: seq<Link>, p: Option<int>, n: nat, k: nat)
    requires Grounded(links, p) && n <= |links| && k < |Filter(links[..n], p)|
    ensures |GrowFirst(links, p, n)| == |Filter(links[..n], p)|
    ensures var r := Filter(links[..n], p)[k];
      Grounded(links, Some(r.id)) && GrowFirst(links, p, n)[k] == Tree(r, Grow(links, Some(r.id)))
    decreases n
  {
    GrowLength(links, p, n);
    if n > 0 {
      assert links[..n][..n - 1] == links[..n - 1];
      if k < |Filter(links[..n - 1], p)| {
        GrowAt(links, p, n - 1, k);
      }
      GrowLength(links, p, n - 1);
      if links[n - 1].up == p {
        ChildGrounded(links, p, links[n - 1]);
      }
    }
  }

  /** The nodes in the heap are the forest that the rows describe. */
  lemma {:induction false} ViewIsGrow(nodes: seq<TreeNode>, links: seq<Link>, p: Option<int>, forest: seq<TreeNode>, n: nat)
    requires Grounded(links, p) && Heads(nodes, links, p, forest) && HungBelow(nodes, links, p) && n <= |forest|
    ensures |Grow(links, p)| == |forest| && View(nodes, links, p, forest, n) == Grow(links, p)[..n]
    decreases Rank(Links(links), p), n
  {
    GrowLength(links, p, |links|);
    assert links[..|links|] == links;
    if n > 0 {
      var node := forest[n - 1];
      ViewIsGrow(nodes, links, p, forest, n - 1);
      HeadIsChild(nodes, links, p, forest, n - 1);
      ChildrenHang(nodes, links, p, node);
      ViewIsGrow(nodes, links, Some(node.row.id), node.children, |node.children|);
      assert Rows(forest)[n - 1] == node.row;
      GrowAt(links, p, |links|, n - 1);
      var sub := Grow(links, Some(node.row.id));
      assert View(nodes, links, Some(node.row.id), node.children, |node.children|) == sub;
      assert Grow(links, p)[..n] == Grow(links, p)[..n - 1] + [Tree(node.row, sub)];
    }
  }

  // ---------------------------------------------------------------- get_tree_data

  method MakeNodes(rows: seq<Row>) returns (nodes: seq<TreeNode>)
    requires UniqueRows(rows)
    ensures Rows(nodes) == rows && FreshNodes(nodes) && fresh(nodes)
  {
    nodes := [];
    for i := 0 to |rows|
      invariant Rows(nodes) == rows[..i] && Distinct(nodes) && fresh(nodes)
      invariant forall n :: n in nodes ==> n.children == []
    {
      var node := new TreeNode(rows[i]);
      RowsSnoc(nodes, node);
      nodes := nodes + [node];
    }
  }

  method GetTreeNodes(rows: seq<Row>, isSort: bool) returns (sorted: seq<Row>)
    ensures sorted == if isSort then StableSort(rows) else rows
  {
    sorted := rows;
    if isSort {
      sorted := [];
      for i := 0 to |rows|
        invariant sorted == StableSort(rows[..i])
      {
        assert rows[..i + 1][..i] == rows[..i];
        sorted := Insert(sorted, rows[i]);
      }
      assert rows[..|rows|] == rows;
    }
  }

  method TraversalTreeData(rows: seq<Row>, isSort: bool) returns (tree: seq<TreeNode>, nodes: seq<TreeNode>)
    requires UniqueRows(rows)
    ensures var sorted := if isSort then StableSort(rows) else rows;
      && UniqueRows(sorted) && Grounded(Adopted(sorted), None)
      && Heads(nodes, Adopted(sorted), None, tree) && HungBelow(nodes, Adopted(sorted), None)
      && View(nodes, Adopted(sorted), None, tree, |tree|) == Forest(sorted)
  {
    var sorted := GetTreeNodes(rows, isSort);
    SortKeepsUnique(rows);
    nodes := MakeNodes(sorted);
    tree := TraversalToTree(nodes);
    ghost var links := Adopted(sorted);
    UniqueLinks(sorted);
    GroundedIff(links, None);
    assert links[..|nodes|] == links && nodes[..|nodes|] == nodes;
    ViewIsGrow(nodes, links, None, tree, |tree|);
  }

  method RecursiveTreeData(rows: seq<Row>, p: Option<int>, isSort: bool)
    returns (tree: seq<TreeNode>, nodes: seq<TreeNode>)
    requires UniqueRows(rows) && !Reaches(Links(AsNamed(rows)), p, p)
    ensures var sorted := if isSort then StableSort(rows) else rows;
      && Grounded(AsNamed(sorted), p)
      && Heads(nodes, AsNamed(sorted), p, tree) && HungBelow(nodes, AsNamed(sorted), p)
      && View(nodes, AsNamed(sorted), p, tree, |tree|) == Grow(AsNamed(sorted), p)
  {
    var sorted := GetTreeNodes(rows, isSort);
    SortKeepsUnique(rows);
    SortKeepsLinks(rows);
    nodes := MakeNodes(sorted);
    UniqueLinks(sorted);
    GroundedIff(AsNamed(sorted), p);
    tree := RecursiveToTree(nodes, p);
    ghost var links := AsNamed(sorted);
    forall n | n in nodes && Reaches(Links(links), p, Some(n.row.id)) ensures Hung(nodes, links, n) {
      var k :| 0 <= k < |nodes| && nodes[k] == n;
      assert BelowNode(nodes, p, nodes[k]);
    }
    ViewIsGrow(nodes, links, p, tree, |tree|);
  }
}
