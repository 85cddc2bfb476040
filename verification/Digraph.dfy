/** Finite directed graphs: reachability by walks, and a rank that falls along every edge off the cycles. */
module Digraph {

  /** A walk of one or more edges from a to b. */
  ghost predicate Walk<V>(edges: set<(V, V)>, a: V, w: seq<V>, b: V) {
    |w| >= 2 && w[0] == a && w[|w| - 1] == b && forall i :: 0 <= i < |w| - 1 ==> (w[i], w[i + 1]) in edges
  }

  ghost predicate Reaches<V(!new)>(edges: set<(V, V)>, a: V, b: V) {
    exists w :: Walk(edges, a, w, b)
  }

  ghost predicate Acyclic<V(!new)>(edges: set<(V, V)>) {
    forall v :: !Reaches(edges, v, v)
  }

  lemma Edge<V(!new)>(edges: set<(V, V)>, a: V, b: V)
    requires (a, b) in edges
    ensures Reaches(edges, a, b)
  {
    assert Walk(edges, a, [a, b], b);
  }

  lemma Joined<V(!new)>(edges: set<(V, V)>, a: V, b: V, c: V)
    requires Reaches(edges, a, b) && Reaches(edges, b, c)
    ensures Reaches(edges, a, c)
  {
    var u :| Walk(edges, a, u, b);
    var w :| Walk(edges, b, w, c);
    var uw := u + w[1..];
    forall i | 0 <= i < |uw| - 1 ensures (uw[i], uw[i + 1]) in edges {
      if i >= |u| - 1 {
        assert uw[i] == w[i - |u| + 1] && uw[i + 1] == w[i - |u| + 2];
      }
    }
    assert Walk(edges, a, uw, c);
  }

  /** The first edge of a walk. */
  lemma FirstEdge<V(!new)>(edges: set<(V, V)>, a: V, c: V) returns (b: V)
    requires Reaches(edges, a, c)
    ensures (a, b) in edges && (b == c || Reaches(edges, b, c))
  {
    var w :| Walk(edges, a, w, c);
    b := w[1];
    if |w| > 2 {
      assert Walk(edges, b, w[1..], c);
    }
  }

  /** The last edge of a walk. */
  lemma LastEdge<V(!new)>(edges: set<(V, V)>, a: V, c: V) returns (b: V)
    requires Reaches(edges, a, c)
    ensures (b, c) in edges && (b == a || Reaches(edges, a, b))
  {
    var w :| Walk(edges, a, w, c);
    b := w[|w| - 2];
    if |w| > 2 {
      assert Walk(edges, a, w[..|w| - 1], b);
    }
  }

  /** Edges that all leave one vertex, for others, close no cycle. */
  lemma StarIsAcyclic<V(!new)>(edges: set<(V, V)>, a: V)
    requires forall e :: e in edges ==> e.0 == a && e.1 != a
    ensures Acyclic(edges)
  {
    forall v | Reaches(edges, v, v) ensures exists e :: e in edges && (e.0 != a || e.1 == a) {
      var b := FirstEdge(edges, v, v);
      var c := LastEdge(edges, v, v);
      assert (v, b) in edges && (c, v) in edges;
    }
  }

  ghost function Vertices<V>(edges: set<(V, V)>): set<V> {
    (set e | e in edges :: e.0) + (set e | e in edges :: e.1)
  }

  ghost function Below<V(!new)>(edges: set<(V, V)>, a: V): set<V> {
    set b | b in Vertices(edges) && Reaches(edges, a, b)
  }

  ghost function Above<V(!new)>(edges: set<(V, V)>, b: V): set<V> {
    set a | a in Vertices(edges) && Reaches(edges, a, b)
  }

  lemma Ends<V(!new)>(edges: set<(V, V)>, a: V, b: V)
    requires Reaches(edges, a, b)
    ensures a in Vertices(edges) && b in Vertices(edges)
  {
    var c := FirstEdge(edges, a, b);
    var d := LastEdge(edges, a, b);
    assert (a, c) in edges && (d, b) in edges;
  }

  /** How many vertices lie below: a rank that falls along an edge whose head is on no cycle. */
  ghost function Rank<V(!new)>(edges: set<(V, V)>, a: V): nat {
    |Below(edges, a)|
  }

  lemma RankFalls<V(!new)>(edges: set<(V, V)>, a: V, b: V)
    requires (a, b) in edges && !Reaches(edges, b, b)
    ensures Rank(edges, b) < Rank(edges, a)
  {
    Edge(edges, a, b);
    Ends(edges, a, b);
    forall c | c in Below(edges, b) ensures c in Below(edges, a) {
      Joined(edges, a, b, c);
    }
    Smaller(Below(edges, b), Below(edges, a), b);
  }

  lemma AboveFalls<V(!new)>(edges: set<(V, V)>, a: V, b: V)
    requires (a, b) in edges && !Reaches(edges, a, a)
    ensures |Above(edges, a)| < |Above(edges, b)|
  {
    Edge(edges, a, b);
    Ends(edges, a, b);
    forall c | c in Above(edges, a) ensures c in Above(edges, b) {
      Joined(edges, c, a, b);
    }
    Smaller(Above(edges, a), Above(edges, b), a);
  }

  lemma Smaller<V>(s: set<V>, t: set<V>, x: V)
    requires s <= t && x in t && x !in s
    ensures |s| < |t|
  {
    assert t == s + (t - s);
    assert x in t - s;
  }

  // ---------------------------------------------------------------- recursion along the edges

  ghost predicate AtOrAbove<V(!new)>(edges: set<(V, V)>, a: V, b: V) {
    a == b || Reaches(edges, a, b)
  }

  /** No cycle can be reached from a. */
  ghost predicate OffCycles<V(!new)>(edges: set<(V, V)>, a: V) {
    forall v :: AtOrAbove(edges, a, v) ==> !Reaches(edges, v, v)
  }

  lemma OffCyclesBelow<V(!new)>(edges: set<(V, V)>, a: V, b: V)
    requires OffCycles(edges, a) && (a, b) in edges
    ensures OffCycles(edges, b) && Rank(edges, b) < Rank(edges, a)
  {
    Edge(edges, a, b);
    forall v | AtOrAbove(edges, b, v) ensures !Reaches(edges, v, v) {
      if v != b {
        Joined(edges, a, b, v);
      }
    }
    RankFalls(edges, a, b);
  }

  /** Nested calls: each one is made along an edge from the one around it. */
  ghost predicate CallChain<V>(edges: set<(V, V)>, a: V, chain: seq<V>) {
    && chain != [] && chain[0] == a
    && (forall i :: 0 <= i < |chain| - 1 ==> (chain[i], chain[i + 1]) in edges)
  }

  ghost predicate DepthAtMost<V(!new)>(edges: set<(V, V)>, a: V, bound: nat) {
    forall chain :: CallChain(edges, a, chain) ==> |chain| <= bound
  }

  lemma {:induction false} DepthBounded<V(!new)>(edges: set<(V, V)>, a: V, chain: seq<V>)
    requires OffCycles(edges, a) && CallChain(edges, a, chain)
    ensures |chain| <= Rank(edges, a) + 1
    decreases |chain|
  {
    if |chain| > 1 {
      OffCyclesBelow(edges, a, chain[1]);
      DepthBounded(edges, chain[1], chain[1..]);
    }
  }

  /** Where a cycle can be reached there are call chains of every length. */
  lemma {:induction false} DepthUnbounded<V(!new)>(edges: set<(V, V)>, a: V, depth: nat) returns (chain: seq<V>)
    requires !OffCycles(edges, a) && depth > 0
    ensures CallChain(edges, a, chain) && |chain| == depth
    decreases depth
  {
    chain := [a];
    if depth > 1 {
      var v :| AtOrAbove(edges, a, v) && Reaches(edges, v, v);
      var b := FirstEdge(edges, a, v);
      assert AtOrAbove(edges, b, v);
      var rest := DepthUnbounded(edges, b, depth - 1);
      chain := [a] + rest;
    }
  }

  /** The recursion along the edges from a ends if and only if it can reach no cycle. */
  lemma DepthBoundedIff<V(!new)>(edges: set<(V, V)>, a: V)
    ensures OffCycles(edges, a) <==> exists bound: nat :: DepthAtMost(edges, a, bound)
  {
    if OffCycles(edges, a) {
      forall chain | CallChain(edges, a, chain) ensures |chain| <= Rank(edges, a) + 1 {
        DepthBounded(edges, a, chain);
      }
      assert DepthAtMost(edges, a, Rank(edges, a) + 1);
    } else {
      forall bound: nat ensures !DepthAtMost(edges, a, bound) {
        var chain := DepthUnbounded(edges, a, bound + 1);
      }
    }
  }

  // ---------------------------------------------------------------- at most one edge into each vertex

  ghost predicate OneParent<V>(edges: set<(V, V)>) {
    forall e, f :: e in edges && f in edges && e.1 == f.1 ==> e.0 == f.0
  }

  /** With one parent each, two vertices above the same vertex are above one another. */
  lemma {:induction false} Comparable<V(!new)>(edges: set<(V, V)>, a: V, b: V, u: seq<V>, v: V)
    requires OneParent(edges) && Walk(edges, a, u, v) && AtOrAbove(edges, b, v)
    ensures AtOrAbove(edges, a, b) || Reaches(edges, b, a)
    decreases |u|
  {
    if b == v {
      assert Reaches(edges, a, v);
    } else {
      var p := LastEdge(edges, b, v);
      assert (u[|u| - 2], v) in edges;
      assert (p, v).0 == (u[|u| - 2], v).0;
      if |u| == 2 {
        assert p == a;
      } else {
        Comparable(edges, a, b, u[..|u| - 1], p);
      }
    }
  }

  /** With one parent each, whatever is above a cycle is on it. */
  lemma {:induction false} CycleHasNoEntry<V(!new)>(edges: set<(V, V)>, a: V, u: seq<V>, v: V)
    requires OneParent(edges) && Walk(edges, a, u, v) && Reaches(edges, v, v)
    ensures Reaches(edges, a, a)
    decreases |u|
  {
    var p := LastEdge(edges, v, v);
    var q := u[|u| - 2];
    assert (q, v) in edges && (p, v).1 == (q, v).1;
    assert p == q;
    Edge(edges, p, v);
    if p != v {
      Joined(edges, p, v, p);
    }
    if |u| > 2 {
      CycleHasNoEntry(edges, a, u[..|u| - 1], q);
    }
  }
}
