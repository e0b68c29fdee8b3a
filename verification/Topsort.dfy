/** bindings/python/topsort.py: dependency sorting of (parent, child) pairs. */
module Topsort {
  import opened Items
  import opened Digraph

  type Pairs = seq<(Item, Item)>

  // ----- From pairs to the two dictionaries

  function Mentioned(pairs: Pairs): set<Item> {
    Parents(pairs) + set e | e in pairs :: e.1
  }

  /** The children listed for p, in the order of the pairs. */
  function ChildrenOf(pairs: Pairs, p: Item): seq<Item> {
    if pairs == [] then []
    else
      var n := |pairs| - 1;
      ChildrenOf(pairs[..n], p) + if pairs[n].0 == p then [pairs[n].1] else []
  }

  /** They stand at the positions of its pairs, each once and rising. */
  lemma {:induction false} ChildrenInOrder(pairs: Pairs, p: Item) returns (at: seq<nat>)
    ensures |at| == |ChildrenOf(pairs, p)|
    ensures forall k :: 0 <= k < |at| ==> at[k] < |pairs| && pairs[at[k]] == (p, ChildrenOf(pairs, p)[k])
    ensures forall k, m :: 0 <= k < m < |at| ==> at[k] < at[m]
    ensures forall i :: 0 <= i < |pairs| && pairs[i].0 == p ==> i in at
  {
    at := [];
    if pairs != [] {
      var n := |pairs| - 1;
      at := ChildrenInOrder(pairs[..n], p);
      if pairs[n].0 == p { at := at + [n]; }
    }
  }

  /** The graph of a pair list: one edge per pair, so repeated pairs are parallel edges. */
  ghost function GraphOf(pairs: Pairs): Graph {
    map p | p in Parents(pairs) :: ChildrenOf(pairs, p)
  }

  function Parents(pairs: Pairs): set<Item> {
    set e | e in pairs :: e.0
  }

  /** Multiplicities, and with them edges and vertices, carry over from the list to its graph. */
  lemma GraphOfPairs(pairs: Pairs, a: Item, b: Item)
    ensures Count(ChildrenOf(pairs, a), b) == multiset(pairs)[(a, b)]
    ensures Edge(GraphOf(pairs), a, b) <==> (a, b) in pairs
  {
    ChildCount(pairs, a, b);
    if (a, b) in pairs {
      assert a in Parents(pairs);
    }
  }

  lemma {:induction false} ChildCount(pairs: Pairs, a: Item, b: Item)
    ensures Count(ChildrenOf(pairs, a), b) == multiset(pairs)[(a, b)]
  {
    if pairs != [] {
      var n := |pairs| - 1;
      ChildCount(pairs[..n], a, b);
      assert pairs == pairs[..n] + [pairs[n]];
    }
  }

  lemma VerticesOfPairs(pairs: Pairs)
    ensures Vertices(GraphOf(pairs)) == Mentioned(pairs)
  {
    var g := GraphOf(pairs);
    forall x
      ensures x in Vertices(g) <==> x in Mentioned(pairs)
    {
      if x in Vertices(g) && x !in g.Keys {
        var a :| a in g && x in g[a];
        GraphOfPairs(pairs, a, x);
      }
      if x in Mentioned(pairs) && x !in g.Keys {
        var e :| e in pairs && (x == e.0 || x == e.1);
        GraphOfPairs(pairs, e.0, e.1);
        assert Edge(g, e.0, e.1);
      }
    }
  }

  /** Every parent count is the number of edges coming in from the listed children. */
  ghost predicate Counts(numParents: map<Item, int>, children: Graph) {
    forall x :: x in numParents ==> numParents[x] == InDegree(children, x)
  }

  /** What the two dictionaries must agree on: they speak of the same items and edges. */
  ghost predicate Consistent(numParents: map<Item, int>, children: Graph) {
    Vertices(children) <= numParents.Keys && Counts(numParents, children)
  }

  method CountParents(pairs: Pairs) returns (numParents: map<Item, int>, children: Graph)
    ensures numParents.Keys == Mentioned(pairs) && children == GraphOf(pairs)
    ensures Consistent(numParents, children)
  {
    hide InDegree, GraphOf, Mentioned, AddEdge;
    numParents, children := map[], map[];
    NothingCounted();
    for i := 0 to |pairs|
      invariant numParents.Keys == Mentioned(pairs[..i]) && children == GraphOf(pairs[..i])
      invariant Counts(numParents, children)
      invariant forall x :: x !in numParents ==> InDegree(children, x) == 0
    {
      var (parent, child) := pairs[i];
      assert pairs[..i + 1] == pairs[..i] + [pairs[i]];
      AppendedPair(pairs[..i], parent, child);
      forall x { InDegreeAddEdge(children, parent, child, x); }
      if parent !in numParents { numParents := numParents[parent := 0]; }
      if child !in numParents { numParents := numParents[child := 0]; }
      numParents := numParents[child := numParents[child] + 1];
      children := AddEdge(children, parent, child);
    }
    assert pairs[..|pairs|] == pairs;
    VerticesOfPairs(pairs);
  }

  lemma NothingCounted()
    ensures Mentioned([]) == {} && GraphOf([]) == map[]
    ensures forall x :: InDegree(map[], x) == 0
  {
  }

  lemma AppendedChildren(before: Pairs, parent: Item, child: Item, p: Item)
    ensures ChildrenOf(before + [(parent, child)], p) == ChildrenOf(before, p) + if p == parent then [child] else []
  {
    assert (before + [(parent, child)])[..|before|] == before;
  }

  lemma AppendedPair(before: Pairs, parent: Item, child: Item)
    ensures GraphOf(before + [(parent, child)]) == AddEdge(GraphOf(before), parent, child)
    ensures Mentioned(before + [(parent, child)]) == Mentioned(before) + {parent, child}
  {
    hide ChildrenOf;
    var after := before + [(parent, child)];
    assert forall e :: e in after <==> e in before || e == (parent, child);
    assert Parents(after) == Parents(before) + {parent};
    if parent !in Parents(before) {
      NoChildren(before, parent);
    }
    var h := AddEdge(GraphOf(before), parent, child);
    forall p | p in h
      ensures GraphOf(after)[p] == h[p]
    {
      AppendedChildren(before, parent, child, p);
    }
    assert GraphOf(after) == h;
  }

  lemma {:induction false} NoChildren(pairs: Pairs, p: Item)
    requires p !in Parents(pairs)
    ensures ChildrenOf(pairs, p) == []
  {
    if pairs != [] {
      var n := |pairs| - 1;
      assert pairs[n] in pairs && forall e :: e in pairs[..n] ==> e in pairs;
      NoChildren(pairs[..n], p);
    }
  }

  // ----- What a dependency order is

  /** Items in nondecreasing order of their longest incoming chain. */
  ghost predicate InDepthOrder(g: Graph, s: seq<Item>) {
    forall i, j, d: nat, e: nat :: 0 <= i < j < |s| && IsDepth(g, s[i], d) && IsDepth(g, s[j], e) ==> d <= e
  }

  ghost predicate ParentsFirst(g: Graph, s: seq<Item>) {
    forall p, j :: 0 <= j < |s| && Edge(g, p, s[j]) ==> p in s[..j]
  }

  /** What the sort promises of its answer, also when it ends in a CycleError. */
  ghost predicate IsAnswer(g: Graph, v: set<Item>, answer: seq<Item>) {
    && NoDup(answer) && InDepthOrder(g, answer) && ParentsFirst(g, answer)
    && (forall x :: x in answer <==> x in v && !BelowCycle(g, x))
  }

  /** What is left of a graph once some of its items are done. */
  function Without(g: Graph, done: set<Item>): Graph {
    g - done
  }

  /** The loop invariant of the sort: the first i items of the answer are done. */
  ghost predicate Progress(g: Graph, v: set<Item>, numParents: map<Item, int>, children: Graph,
                           answer: seq<Item>, i: nat, depth: seq<nat>) {
    && i <= |answer| == |depth|
    && NoDup(answer) && Elements(answer) <= v
    && numParents.Keys == v - Elements(answer[..i])
    && children == Without(g, Elements(answer[..i]))
    && Counts(numParents, children)
    && (forall x :: x in numParents && numParents[x] == 0 ==> x in answer)
    && Layered(g, answer, i, depth)
  }

  /** Depths never fall along the answer, and the waiting items are at most one deeper than the last done. */
  ghost predicate Layered(g: Graph, answer: seq<Item>, i: nat, depth: seq<nat>)
    requires i <= |answer| == |depth|
  {
    && (forall j :: 0 <= j < |answer| ==> IsDepth(g, answer[j], depth[j]))
    && (forall j, k :: 0 <= j < k < |answer| ==> depth[j] <= depth[k])
    && (forall j :: i <= j < |answer| ==> depth[j] <= if i == 0 then 0 else depth[i - 1] + 1)
    && (forall p, j :: 0 <= j < |answer| && Edge(g, p, answer[j]) ==> p in answer[..i])
  }

  lemma Released(g: Graph, answer: seq<Item>, i: nat, depth: seq<nat>, child: Item)
    requires i < |answer| == |depth| && Layered(g, answer, i + 1, depth)
    requires Edge(g, answer[i], child)
    requires forall p :: Edge(g, p, child) ==> p in answer[..i + 1]
    ensures Layered(g, answer + [child], i + 1, depth + [depth[i] + 1])
  {
    hide HasChain;
    forall q | Edge(g, q, child)
      ensures !HasChain(g, q, depth[i] + 1)
    {
      var j :| 0 <= j <= i && answer[j] == q;
      if HasChain(g, q, depth[i] + 1) {
        ShorterChain(g, q, depth[j] + 1, depth[i] + 1);
      }
    }
    DepthFromParents(g, child, answer[i], depth[i]);
    assert (answer + [child])[..i + 1] == answer[..i + 1];
  }

  ghost predicate StillWaits(g: Graph, left: set<Item>, x: Item) {
    exists p :: p in left && Edge(g, p, x)
  }

  /** If every leftover item still waits for a leftover parent, they are all at or below cycles. */
  lemma {:induction false} LeftoverChains(g: Graph, left: set<Item>, x: Item, n: nat)
    requires forall y {:trigger StillWaits(g, left, y)} :: y in left ==> StillWaits(g, left, y)
    requires x in left
    ensures HasChain(g, x, n)
  {
    hide HasChain;
    if n == 0 {
      ChainOfNone(g, x);
    } else {
      assert StillWaits(g, left, x);
      var p :| p in left && Edge(g, p, x);
      LeftoverChains(g, left, p, n - 1);
      ExtendChain(g, p, x, n - 1);
    }
  }

  lemma LeftoverWaits(g: Graph, v: set<Item>, numParents: map<Item, int>, children: Graph, y: Item)
    requires Vertices(g) <= v && numParents.Keys <= v
    requires children == Without(g, v - numParents.Keys) && Counts(numParents, children)
    requires y in numParents && numParents[y] != 0
    ensures StillWaits(g, numParents.Keys, y)
  {
    hide InDegree;
    InDegreeZero(children, y);
    var p :| Edge(children, p, y);
    assert p in Vertices(g);
    assert p in numParents.Keys && Edge(g, p, y);
  }

  lemma LeftoverIsBelowCycle(g: Graph, v: set<Item>, numParents: map<Item, int>, children: Graph)
    requires Vertices(g) <= v && numParents.Keys <= v
    requires children == Without(g, v - numParents.Keys) && Counts(numParents, children)
    requires forall x :: x in numParents ==> numParents[x] != 0
    ensures forall x :: x in numParents ==> BelowCycle(g, x)
  {
    hide BelowCycle, HasChain, StillWaits, Counts, Without, Vertices;
    forall y | y in numParents.Keys
      ensures StillWaits(g, numParents.Keys, y)
    {
      LeftoverWaits(g, v, numParents, children, y);
    }
    forall x | x in numParents.Keys
      ensures BelowCycle(g, x)
    {
      LeftoverChains(g, numParents.Keys, x, |Vertices(g)| + 1);
      BelowCycleIffChains(g, x);
    }
  }

  // ----- The sort

  /** The items nothing is waiting for, in the order Python iterates the dictionary. */
  method Parentless(numParents: map<Item, int>) returns (order: seq<Item>)
    ensures NoDup(order)
    ensures forall x :: x in order <==> x in numParents && numParents[x] == 0
  {
    var keys := InSomeOrder(numParents.Keys);
    order := [];
    for i := 0 to |keys|
      invariant NoDup(order)
      invariant forall x :: x in order <==> x in keys[..i] && x in numParents && numParents[x] == 0
    {
      assert keys[i] in Elements(keys);
      if numParents[keys[i]] == 0 {
        order := order + [keys[i]];
      }
    }
    assert keys[..|keys|] == keys;
    assert forall x :: x in keys <==> x in Elements(keys);
  }

  /** Sorted, or the CycleError with what the sort had done and what was left of its dictionaries. */
  datatype SortResult =
    | Sorted(answer: seq<Item>)
    | CycleError(answer: seq<Item>, numParents: map<Item, int>, children: Graph)

  method Topsort(pairs: Pairs) returns (r: SortResult)
    ensures r.Sorted? <==> !HasCycle(GraphOf(pairs))
    ensures r.Sorted? ==> Elements(r.answer) == Mentioned(pairs)
    ensures IsAnswer(GraphOf(pairs), Mentioned(pairs), r.answer)
    ensures r.CycleError? ==>
              && (forall x :: x in r.numParents <==> x in Mentioned(pairs) && BelowCycle(GraphOf(pairs), x))
              && r.children == Without(GraphOf(pairs), Elements(r.answer))
              && Counts(r.numParents, r.children)
  {
    hide BelowCycle, HasChain, HasCycle, GraphOf, Mentioned, IsAnswer, Knocking, Progress, InDegree, Vertices;
    hide Layered, Without, Counts;
    var numParents, children := CountParents(pairs);
    ghost var g, v := children, numParents.Keys;
    var answer := Parentless(numParents);
    ghost var depth := seq(|answer|, _ => 0);
    FirstProgress(g, numParents, answer);
    var i := 0;
    while i < |answer|
      invariant i <= |answer| && Progress(g, v, numParents, children, answer, i, depth)
      decreases |v| - i
    {
      var parent := answer[i];
      StartKnocking(g, v, numParents, children, answer, i, depth);
      assert parent in numParents;
      ghost var rest := children - {parent};
      numParents := numParents - {parent};
      if parent in children {
        var siblings := children[parent];
        for j := 0 to |siblings|
          invariant i < |answer| && answer[i] == parent
          invariant Knocking(g, v, numParents, rest, answer, i, depth, siblings[j..])
        {
          var child := siblings[j];
          KnockOne(g, v, numParents, rest, answer, i, depth, siblings[j..]);
          numParents := numParents[child := numParents[child] - 1];
          if numParents[child] == 0 {
            answer, depth := answer + [child], depth + [depth[i] + 1];
          }
        }
        children := children - {parent};
        assert siblings[|siblings|..] == [];
      }
      assert children == rest;
      DoneKnocking(g, v, numParents, children, answer, i, depth);
      i := i + 1;
    }
    Finished(g, v, numParents, children, answer, depth);
    VerticesOfPairs(pairs);
    NoneLeftIffAcyclic(g, numParents.Keys);
    r := if numParents != map[] then CycleError(answer, numParents, children) else Sorted(answer);
  }

  /** The invariant of the inner loop: the children in todo still count the parent at index i. */
  ghost predicate Knocking(g: Graph, v: set<Item>, numParents: map<Item, int>, rest: Graph, answer: seq<Item>,
                           i: nat, depth: seq<nat>, todo: seq<Item>) {
    && i < |answer| == |depth|
    && NoDup(answer) && Elements(answer) <= v
    && numParents.Keys == v - Elements(answer[..i + 1])
    && rest == Without(g, Elements(answer[..i + 1]))
    && (forall x :: x in todo ==> x in v && Edge(g, answer[i], x))
    && (forall x :: x in numParents ==> numParents[x] == InDegree(rest, x) + Count(todo, x))
    && (forall x :: x in numParents && numParents[x] == 0 ==> x in answer)
    && (forall x :: x in answer ==> x !in todo)
    && Layered(g, answer, i + 1, depth)
  }

  lemma StartKnocking(g: Graph, v: set<Item>, numParents: map<Item, int>, children: Graph,
                      answer: seq<Item>, i: nat, depth: seq<nat>)
    requires Vertices(g) <= v && Progress(g, v, numParents, children, answer, i, depth) && i < |answer|
    ensures i < |v| && answer[i] in numParents
    ensures var todo := if answer[i] in children then children[answer[i]] else [];
            Knocking(g, v, numParents - {answer[i]}, children - {answer[i]}, answer, i, depth, todo)
  {
    hide Layered, InDegree;
    var parent := answer[i];
    NoDupFits(answer, v);
    NextLayer(g, answer, i, depth);
    assert Elements(answer[..i + 1]) == Elements(answer[..i]) + {parent};
    if parent in children {
      forall x { InDegreeSplit(children, parent, x); }
      assert forall x :: x in children[parent] ==> Edge(g, parent, x);
    } else {
      assert children - {parent} == children;
    }
    assert children - {parent} == Without(g, Elements(answer[..i + 1]));
  }

  lemma NextLayer(g: Graph, answer: seq<Item>, i: nat, depth: seq<nat>)
    requires i < |answer| == |depth| && Layered(g, answer, i, depth) && NoDup(answer)
    ensures Layered(g, answer, i + 1, depth)
    ensures forall x :: Edge(g, answer[i], x) ==> x !in answer
  {
    hide HasChain;
    assert answer[..i + 1] == answer[..i] + [answer[i]];
    assert i > 0 ==> depth[i - 1] <= depth[i];
    assert answer[i] !in answer[..i];
    forall j | 0 <= j < |answer|
      ensures !Edge(g, answer[i], answer[j])
    {
    }
  }

  lemma KnockOne(g: Graph, v: set<Item>, numParents: map<Item, int>, rest: Graph, answer: seq<Item>,
                 i: nat, depth: seq<nat>, todo: seq<Item>)
    requires Knocking(g, v, numParents, rest, answer, i, depth, todo) && todo != [] && Vertices(g) <= v
    ensures todo[0] in numParents && i < |depth|
    ensures var child := todo[0];
            var counts := numParents[child := numParents[child] - 1];
            if counts[child] == 0
            then Knocking(g, v, counts, rest, answer + [child], i, depth + [depth[i] + 1], todo[1..])
            else Knocking(g, v, counts, rest, answer, i, depth, todo[1..])
  {
    hide Layered, InDegree, Vertices, NoDup;
    var child := todo[0];
    assert todo == [child] + todo[1..];
    assert child in todo;
    assert forall x :: x in Elements(answer[..i + 1]) ==> x in answer;
    assert child in numParents;
    var counts := numParents[child := numParents[child] - 1];
    if counts[child] == 0 {
      assert child !in todo[1..];
      AllParentsDone(g, rest, answer[..i + 1], child);
      Released(g, answer, i, depth, child);
      assert (answer + [child])[..i + 1] == answer[..i + 1];
      assert Elements(answer + [child]) == Elements(answer) + {child};
      assert NoDup(answer + [child]) by { NoDupGrows(answer, child); }
    }
  }

  lemma NoDupGrows(s: seq<Item>, x: Item)
    requires NoDup(s) && x !in s
    ensures NoDup(s + [x])
  {
  }

  /** An item nothing undone leads into has all its parents among the done. */
  lemma AllParentsDone(g: Graph, rest: Graph, done: seq<Item>, child: Item)
    requires rest == Without(g, Elements(done)) && InDegree(rest, child) == 0
    ensures forall p :: Edge(g, p, child) ==> p in done
  {
    hide InDegree;
    InDegreeZero(rest, child);
    forall p | Edge(g, p, child)
      ensures p in done
    {
      assert !Edge(rest, p, child);
    }
  }

  lemma DoneKnocking(g: Graph, v: set<Item>, numParents: map<Item, int>, children: Graph,
                     answer: seq<Item>, i: nat, depth: seq<nat>)
    requires Knocking(g, v, numParents, children, answer, i, depth, [])
    ensures i + 1 <= |answer| && Progress(g, v, numParents, children, answer, i + 1, depth)
  {
  }

  lemma FirstLayer(g: Graph, numParents: map<Item, int>, answer: seq<Item>)
    requires Consistent(numParents, g)
    requires forall x :: x in answer <==> x in numParents && numParents[x] == 0
    ensures Layered(g, answer, 0, seq(|answer|, _ => 0))
    ensures Without(g, Elements(answer[..0])) == g
  {
    forall j | 0 <= j < |answer|
      ensures IsDepth(g, answer[j], 0) && forall p :: !Edge(g, p, answer[j])
    {
      InDegreeZero(g, answer[j]);
      ChainOfNone(g, answer[j]);
      if HasChain(g, answer[j], 1) {
        var p := ChainParent(g, answer[j], 1);
      }
    }
  }

  lemma FirstProgress(g: Graph, numParents: map<Item, int>, answer: seq<Item>)
    requires Consistent(numParents, g) && NoDup(answer)
    requires forall x :: x in answer <==> x in numParents && numParents[x] == 0
    ensures Progress(g, numParents.Keys, numParents, g, answer, 0, seq(|answer|, _ => 0))
  {
    hide InDegree, Layered, Without;
    FirstLayer(g, numParents, answer);
  }

  lemma NoneLeftIffAcyclic(g: Graph, left: set<Item>)
    requires forall x :: x in left <==> x in Vertices(g) && BelowCycle(g, x)
    ensures left == {} <==> !HasCycle(g)
  {
    hide BelowCycle, HasCycle, Vertices;
    AcyclicIffNothingBelow(g);
  }

  lemma Finished(g: Graph, v: set<Item>, numParents: map<Item, int>, children: Graph,
                 answer: seq<Item>, depth: seq<nat>)
    requires Vertices(g) <= v && Progress(g, v, numParents, children, answer, |answer|, depth)
    ensures IsAnswer(g, v, answer) && Elements(answer) == v - numParents.Keys
    ensures forall x :: x in numParents <==> x in v && BelowCycle(g, x)
    ensures children == Without(g, Elements(answer)) && Counts(numParents, children)
  {
    hide BelowCycle, HasChain, Counts;
    assert answer[..|answer|] == answer;
    assert v - numParents.Keys == Elements(answer);
    LeftoverIsBelowCycle(g, v, numParents, children);
    LayeredIsOrdered(g, answer, depth);
  }

  lemma LayeredIsOrdered(g: Graph, answer: seq<Item>, depth: seq<nat>)
    requires |answer| == |depth| && Layered(g, answer, |answer|, depth)
    ensures InDepthOrder(g, answer) && ParentsFirst(g, answer)
    ensures forall x :: x in answer ==> !BelowCycle(g, x)
  {
    hide BelowCycle, HasChain;
    forall x | x in answer
      ensures !BelowCycle(g, x)
    {
      BelowCycleIffChains(g, x);
    }
    forall i, j, d: nat, e: nat | 0 <= i < j < |answer| && IsDepth(g, answer[i], d) && IsDepth(g, answer[j], e)
      ensures d <= e
    {
      DepthUnique(g, answer[i], d, depth[i]);
      DepthUnique(g, answer[j], e, depth[j]);
    }
    forall p, j | 0 <= j < |answer| && Edge(g, p, answer[j])
      ensures p in answer[..j]
    {
      assert p in answer[..|answer|];
      var k :| 0 <= k < |answer| && answer[k] == p;
      ExtendChain(g, p, answer[j], depth[k]);
      if depth[j] <= depth[k] {
        ShorterChain(g, answer[j], depth[j] + 1, depth[k] + 1);
      }
    }
  }
}
