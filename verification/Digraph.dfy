/** Finite directed multigraphs as "parent -> list of children" dictionaries, and walks in them. */
module Digraph {
  import opened Items

  /** A child listed twice is two parallel edges; a child need not be a key. */
  type Graph = map<Item, seq<Item>>

  predicate Edge(g: Graph, a: Item, b: Item) {
    a in g && b in g[a]
  }

  function Vertices(g: Graph): set<Item> {
    g.Keys + set a, b | a in g && b in g[a] :: b
  }

  // ----- Walks and cycles

  ghost predicate IsWalk(g: Graph, w: seq<Item>) {
    |w| > 0 && forall i :: 0 <= i < |w| - 1 ==> Edge(g, w[i], w[i + 1])
  }

  function Last(w: seq<Item>): Item
    requires w != []
  {
    w[|w| - 1]
  }

  ghost predicate IsClosedWalk(g: Graph, w: seq<Item>) {
    IsWalk(g, w) && |w| >= 2 && w[0] == Last(w)
  }

  ghost predicate HasCycle(g: Graph) {
    exists w :: IsClosedWalk(g, w)
  }

  /** x lies on a cycle or can be reached from one. */
  ghost predicate BelowCycle(g: Graph, x: Item) {
    exists c, w :: IsClosedWalk(g, c) && IsWalk(g, w) && w[0] == c[0] && Last(w) == x
  }

  /** A simple cycle written without repeating its first item. */
  ghost predicate IsSimpleCycle(g: Graph, c: seq<Item>) {
    IsWalk(g, c) && NoDup(c) && Edge(g, Last(c), c[0])
  }

  lemma JoinWalks(g: Graph, u: seq<Item>, w: seq<Item>)
    requires IsWalk(g, u) && IsWalk(g, w) && Last(u) == w[0]
    ensures IsWalk(g, u + w[1..]) && Last(u + w[1..]) == Last(w) && (u + w[1..])[0] == u[0]
  {
    var j := u + w[1..];
    forall i | 0 <= i < |j| - 1
      ensures Edge(g, j[i], j[i + 1])
    {
      if i >= |u| - 1 {
        assert Edge(g, w[i - |u| + 1], w[i - |u| + 2]);
      }
    }
  }

  lemma WalkStaysInside(g: Graph, w: seq<Item>)
    requires IsWalk(g, w) && |w| >= 2
    ensures Elements(w) <= Vertices(g)
  {
    forall i | 0 <= i < |w|
      ensures w[i] in Vertices(g)
    {
      if i < |w| - 1 {
        assert Edge(g, w[i], w[i + 1]);
      } else {
        assert Edge(g, w[i - 1], w[i]);
      }
    }
  }

  /** Cutting detours out of a closed walk leaves a simple cycle. */
  lemma {:induction false} ClosedWalkHasSimpleCycle(g: Graph, w: seq<Item>) returns (c: seq<Item>)
    requires IsClosedWalk(g, w)
    ensures IsSimpleCycle(g, c)
    decreases |w|
  {
    c := w[..|w| - 1];
    assert Edge(g, w[|w| - 2], w[|w| - 1]);
    if !NoDup(c) {
      var i, j :| 0 <= i < j < |c| && c[i] == c[j];
      c := ClosedWalkHasSimpleCycle(g, w[i..j + 1]);
    } else {
      forall i | 0 <= i < |c| - 1 ensures Edge(g, c[i], c[i + 1]) {
        assert Edge(g, w[i], w[i + 1]);
      }
    }
  }

  lemma CyclicIffSimpleCycle(g: Graph)
    ensures HasCycle(g) <==> exists c :: IsSimpleCycle(g, c)
  {
    if HasCycle(g) {
      var w :| IsClosedWalk(g, w);
      var c := ClosedWalkHasSimpleCycle(g, w);
    }
    if c :| IsSimpleCycle(g, c) {
      var w := c + [c[0]];
      forall i | 0 <= i < |w| - 1 ensures Edge(g, w[i], w[i + 1]) {
      }
      assert IsClosedWalk(g, w);
    }
  }

  // ----- Longest incoming chains

  /** Some chain of n edges leads into x. */
  ghost predicate HasChain(g: Graph, x: Item, n: nat) {
    exists w :: IsWalk(g, w) && |w| == n + 1 && Last(w) == x
  }

  /** The longest chain leading into x has exactly n edges. */
  ghost predicate IsDepth(g: Graph, x: Item, n: nat) {
    HasChain(g, x, n) && !HasChain(g, x, n + 1)
  }

  lemma ChainOfNone(g: Graph, x: Item)
    ensures HasChain(g, x, 0)
  {
    assert IsWalk(g, [x]);
  }

  lemma ExtendChain(g: Graph, p: Item, x: Item, n: nat)
    requires Edge(g, p, x) && HasChain(g, p, n)
    ensures HasChain(g, x, n + 1)
  {
    var w :| IsWalk(g, w) && |w| == n + 1 && Last(w) == p;
    JoinWalks(g, w, [p, x]);
    assert |w + [p, x][1..]| == n + 2;
  }

  lemma ChainParent(g: Graph, x: Item, n: nat) returns (p: Item)
    requires n > 0 && HasChain(g, x, n)
    ensures Edge(g, p, x) && HasChain(g, p, n - 1)
  {
    var w :| IsWalk(g, w) && |w| == n + 1 && Last(w) == x;
    p := w[n - 1];
    assert Edge(g, w[n - 1], w[n]);
    var v := w[..n];
    assert IsWalk(g, v) && Last(v) == p;
  }

  lemma ShorterChain(g: Graph, x: Item, m: nat, n: nat)
    requires m <= n && HasChain(g, x, n)
    ensures HasChain(g, x, m)
  {
    var w :| IsWalk(g, w) && |w| == n + 1 && Last(w) == x;
    var v := w[n - m..];
    assert IsWalk(g, v) && |v| == m + 1 && Last(v) == x by {
      forall i | 0 <= i < |v| - 1 ensures Edge(g, v[i], v[i + 1]) {
        assert Edge(g, w[n - m + i], w[n - m + i + 1]);
      }
    }
  }

  lemma DepthUnique(g: Graph, x: Item, m: nat, n: nat)
    requires IsDepth(g, x, m) && IsDepth(g, x, n)
    ensures m == n
  {
    if m < n { ShorterChain(g, x, m + 1, n); }
    if n < m { ShorterChain(g, x, n + 1, m); }
  }

  /** An item's depth is one more than its deepest parent's. */
  lemma DepthFromParents(g: Graph, x: Item, p: Item, d: nat)
    requires Edge(g, p, x) && HasChain(g, p, d)
    requires forall q :: Edge(g, q, x) ==> !HasChain(g, q, d + 1)
    ensures IsDepth(g, x, d + 1)
  {
    ExtendChain(g, p, x, d);
    if HasChain(g, x, d + 2) {
      var q := ChainParent(g, x, d + 2);
    }
  }

  lemma {:induction false} CycleGivesChains(g: Graph, c: seq<Item>, n: nat)
    requires IsClosedWalk(g, c)
    ensures HasChain(g, c[0], n)
  {
    if n == 0 {
      ChainOfNone(g, c[0]);
    } else {
      CycleGivesChains(g, c, n - 1);
      var w :| IsWalk(g, w) && |w| == n && Last(w) == c[0];
      JoinWalks(g, w, c);
      var m := |w + c[1..]| - 1;
      assert HasChain(g, c[0], m);
      ShorterChain(g, c[0], n, m);
    }
  }

  /** An item is at or below a cycle iff arbitrarily long chains lead into it; one of more than |V| edges decides. */
  lemma BelowCycleIffChains(g: Graph, x: Item)
    ensures BelowCycle(g, x) ==> forall n: nat :: HasChain(g, x, n)
    ensures HasChain(g, x, |Vertices(g)| + 1) ==> BelowCycle(g, x)
  {
    if BelowCycle(g, x) {
      var c, w :| IsClosedWalk(g, c) && IsWalk(g, w) && w[0] == c[0] && Last(w) == x;
      forall n: nat
        ensures HasChain(g, x, n)
      {
        CycleGivesChains(g, c, n);
        var u :| IsWalk(g, u) && |u| == n + 1 && Last(u) == c[0];
        JoinWalks(g, u, w);
        var m := |u + w[1..]| - 1;
        assert HasChain(g, x, m);
        ShorterChain(g, x, n, m);
      }
    }
    var n := |Vertices(g)| + 1;
    if HasChain(g, x, n) {
      var w :| IsWalk(g, w) && |w| == n + 1 && Last(w) == x;
      WalkStaysInside(g, w);
      if NoDup(w) { NoDupFits(w, Vertices(g)); }
      var i, j :| 0 <= i < j < |w| && w[i] == w[j];
      var c, v := w[i..j + 1], w[j..];
      assert IsClosedWalk(g, c) && IsWalk(g, v) && v[0] == c[0] && Last(v) == x by {
        forall k | 0 <= k < |c| - 1 ensures Edge(g, c[k], c[k + 1]) { assert Edge(g, w[i + k], w[i + k + 1]); }
        forall k | 0 <= k < |v| - 1 ensures Edge(g, v[k], v[k + 1]) { assert Edge(g, w[j + k], w[j + k + 1]); }
      }
    }
  }

  lemma AcyclicIffNothingBelow(g: Graph)
    ensures HasCycle(g) ==> exists x :: x in Vertices(g) && BelowCycle(g, x)
    ensures forall x :: BelowCycle(g, x) ==> HasCycle(g)
  {
    if HasCycle(g) {
      var w :| IsClosedWalk(g, w);
      assert IsWalk(g, [w[0]]);
      WalkStaysInside(g, w);
      assert w[0] in Elements(w);
      assert BelowCycle(g, w[0]);
    }
  }

  // ----- Counting incoming edges

  function Count(s: seq<Item>, x: Item): nat {
    multiset(s)[x]
  }

  /** The number of edges into x, parallel edges counted. */
  ghost function InDegree(g: Graph, x: Item): nat
    decreases |g|
  {
    if g == map[] then 0
    else
      var p :| p in g;
      Count(g[p], x) + InDegree(g - {p}, x)
  }

  lemma {:induction false} InDegreeSplit(g: Graph, p: Item, x: Item)
    requires p in g
    ensures InDegree(g, x) == Count(g[p], x) + InDegree(g - {p}, x)
    decreases |g|
  {
    var q :| q in g && InDegree(g, x) == Count(g[q], x) + InDegree(g - {q}, x);
    if p != q {
      InDegreeSplit(g - {q}, p, x);
      InDegreeSplit(g - {p}, q, x);
      assert g - {q} - {p} == g - {p} - {q};
    }
  }

  lemma {:induction false} InDegreeZero(g: Graph, x: Item)
    ensures InDegree(g, x) == 0 <==> forall p :: !Edge(g, p, x)
    decreases |g|
  {
    if g != map[] {
      var p :| p in g;
      InDegreeSplit(g, p, x);
      InDegreeZero(g - {p}, x);
      assert Count(g[p], x) == 0 <==> !Edge(g, p, x);
      assert forall q :: q != p ==> Edge(g, q, x) == Edge(g - {p}, q, x);
    }
  }

  function AddEdge(g: Graph, p: Item, c: Item): Graph {
    g[p := (if p in g then g[p] else []) + [c]]
  }

  lemma InDegreeAddEdge(g: Graph, p: Item, c: Item, x: Item)
    ensures InDegree(AddEdge(g, p, c), x) == InDegree(g, x) + if x == c then 1 else 0
  {
    var g' := AddEdge(g, p, c);
    InDegreeSplit(g', p, x);
    assert g' - {p} == g - {p};
    if p in g {
      InDegreeSplit(g, p, x);
    } else {
      assert g - {p} == g;
      assert g'[p] == [c];
    }
  }
}
