/** bindings/python/topsort.py: dependency sorting level by level. */
module TopsortLevels {
  import opened Items
  import opened Digraph
  import opened Topsort

  /** Level n holds, once each, the items whose longest incoming chain has n edges. */
  ghost predicate IsLevel(g: Graph, v: set<Item>, n: nat, level: seq<Item>) {
    && level != [] && NoDup(level)
    && forall x :: x in level <==> x in v && IsDepth(g, x, n)
  }

  /** Before round n: what is left is what has an incoming chain of n edges, with its own counts and children. */
  ghost predicate Round(g: Graph, v: set<Item>, numParents: map<Item, int>, children: Graph, n: nat) {
    && numParents.Keys <= v
    && (forall x :: x in v ==> (x in numParents <==> HasChain(g, x, n)))
    && children == Without(g, v - numParents.Keys)
    && Counts(numParents, children)
  }

  ghost predicate Yielded(g: Graph, v: set<Item>, levels: seq<seq<Item>>) {
    forall n :: 0 <= n < |levels| ==> IsLevel(g, v, n, levels[n])
  }

  /** The levels are right and complete: every item not at or below a cycle is in one. */
  ghost predicate AreLevels(g: Graph, v: set<Item>, levels: seq<seq<Item>>) {
    && Yielded(g, v, levels)
    && (forall x :: x in v && !BelowCycle(g, x) ==> exists n :: 0 <= n < |levels| && x in levels[n])
  }

  lemma YieldOne(g: Graph, v: set<Item>, levels: seq<seq<Item>>, level: seq<Item>)
    requires Yielded(g, v, levels) && IsLevel(g, v, |levels|, level)
    ensures Yielded(g, v, levels + [level])
  {
    hide IsLevel;
  }

  lemma FirstRound(numParents: map<Item, int>, children: Graph)
    requires Consistent(numParents, children)
    ensures Round(children, numParents.Keys, numParents, children, 0)
    ensures Yielded(children, numParents.Keys, [])
  {
    forall x { ChainOfNone(children, x); }
    assert Without(children, {}) == children;
  }

  /** What remains without the level is what has a chain one edge longer. */
  ghost predicate Remains(g: Graph, v: set<Item>, numParents: map<Item, int>, level: seq<Item>, n: nat) {
    forall x :: x in v ==> (x in numParents && x !in level <==> HasChain(g, x, n))
  }

  /** The level can be struck from the dictionaries item by item: the children of its items stay for later. */
  ghost predicate Retirable(numParents: map<Item, int>, children: Graph, level: seq<Item>) {
    && Counts(numParents, children) && NoDup(level) && Elements(level) <= numParents.Keys
    && forall p, x :: p in level && Edge(children, p, x) ==> x in numParents && x !in level
  }

  /** The parentless items of round n are level n, and taking them away sets up round n + 1. */
  lemma NextRound(g: Graph, v: set<Item>, numParents: map<Item, int>, children: Graph, n: nat, level: seq<Item>)
    requires Vertices(g) <= v && Round(g, v, numParents, children, n)
    requires NoDup(level) && level != []
    requires forall x :: x in level <==> x in numParents && numParents[x] == 0
    ensures IsLevel(g, v, n, level)
    ensures Remains(g, v, numParents, level, n + 1) && Retirable(numParents, children, level)
  {
    hide HasChain;
    forall x | x in v
      ensures x in numParents && x !in level <==> HasChain(g, x, n + 1)
    {
      InDegreeZero(children, x);
      if HasChain(g, x, n + 1) {
        ShorterChain(g, x, n, n + 1);
        var p := ChainParent(g, x, n + 1);
        assert Edge(children, p, x);
      } else if x in numParents && x !in level {
        var p :| Edge(children, p, x);
        ExtendChain(g, p, x, n);
      }
    }
    forall p, x | p in level && Edge(children, p, x)
      ensures x in numParents && x !in level
    {
      assert Edge(g, p, x);
      ExtendChain(g, p, x, n);
    }
  }

  lemma FewerLeft(before: set<Item>, level: seq<Item>, after: set<Item>)
    requires level != [] && Elements(level) <= before && after == before - Elements(level)
    ensures |after| < |before|
  {
    assert level[0] in Elements(level);
    assert after <= before - {level[0]};
  }

  lemma RoundAfter(g: Graph, v: set<Item>, numParents: map<Item, int>, children: Graph, n: nat, level: seq<Item>,
                   numParents': map<Item, int>, children': Graph)
    requires Round(g, v, numParents, children, n) && level != [] && Retirable(numParents, children, level)
    requires Remains(g, v, numParents, level, n + 1)
    requires numParents'.Keys == numParents.Keys - Elements(level) && children' == children - Elements(level)
    requires Counts(numParents', children')
    ensures Round(g, v, numParents', children', n + 1)
    ensures |numParents'.Keys| < |numParents.Keys|
  {
    hide HasChain, Counts, NoDup, Without;
    FewerLeft(numParents.Keys, level, numParents'.Keys);
    StrikeMore(g, v, numParents.Keys, Elements(level));
    assert forall x :: x in level <==> x in Elements(level);
  }

  lemma StrikeMore(g: Graph, v: set<Item>, left: set<Item>, gone: set<Item>)
    requires gone <= left <= v
    ensures Without(g, v - left) - gone == Without(g, v - (left - gone))
  {
    assert v - (left - gone) == (v - left) + gone;
  }

  /** Takes each listed child's count down by one, a child listed twice by two. */
  method KnockDown(numParents: map<Item, int>, siblings: seq<Item>) returns (counts: map<Item, int>)
    requires forall x :: x in siblings ==> x in numParents
    ensures counts.Keys == numParents.Keys
    ensures forall x :: x in counts ==> counts[x] == numParents[x] - Count(siblings, x)
  {
    counts := numParents;
    for j := 0 to |siblings|
      invariant counts.Keys == numParents.Keys
      invariant forall x :: x in counts ==> counts[x] == numParents[x] - Count(siblings[..j], x)
    {
      assert siblings[..j + 1] == siblings[..j] + [siblings[j]];
      assert siblings[j] in numParents;
      counts := counts[siblings[j] := counts[siblings[j]] - 1];
    }
    assert siblings[..|siblings|] == siblings;
  }

  method TopsortLevelsCore(numParents0: map<Item, int>, children0: Graph)
    returns (levels: seq<seq<Item>>, cycleError: bool, numParents: map<Item, int>, children: Graph)
    requires Consistent(numParents0, children0)
    ensures cycleError <==> HasCycle(children0)
    ensures AreLevels(children0, numParents0.Keys, levels)
    ensures forall x :: x in numParents <==> x in numParents0 && BelowCycle(children0, x)
    ensures children == Without(children0, numParents0.Keys - numParents.Keys) && Counts(numParents, children)
  {
    hide HasChain, BelowCycle, HasCycle, AreLevels, Round, IsLevel, Remains, Retirable, Yielded, Counts, Without;
    hide Vertices, Elements, NoDup;
    ghost var g, v := children0, numParents0.Keys;
    numParents, children, levels := numParents0, children0, [];
    FirstRound(numParents, children);
    while true
      invariant Round(g, v, numParents, children, |levels|)
      invariant Yielded(g, v, levels)
      decreases |numParents.Keys|
    {
      var level := Parentless(numParents);
      if level == [] {
        break;
      }
      NextRound(g, v, numParents, children, |levels|, level);
      ghost var before, edges := numParents, children;
      numParents, children := RetireLevel(numParents, children, level);
      RoundAfter(g, v, before, edges, |levels|, level, numParents, children);
      YieldOne(g, v, levels, level);
      levels := levels + [level];
    }
    AllLevelsFound(g, v, numParents, children, levels);
    AcyclicIffNothingBelow(g);
    cycleError := numParents != map[];
  }

  /** Strikes one item and the edges leaving it from both dictionaries. */
  method Retire(numParents0: map<Item, int>, children0: Graph, parent: Item)
    returns (numParents: map<Item, int>, children: Graph)
    requires parent in numParents0 && Counts(numParents0, children0)
    requires forall x :: Edge(children0, parent, x) ==> x in numParents0 && x != parent
    ensures numParents.Keys == numParents0.Keys - {parent} && children == children0 - {parent}
    ensures Counts(numParents, children)
  {
    hide InDegree;
    numParents, children := numParents0 - {parent}, children0;
    if parent in children {
      forall x { InDegreeSplit(children, parent, x); }
      assert forall x :: x in children[parent] ==> Edge(children, parent, x);
      numParents := KnockDown(numParents, children[parent]);
      children := children - {parent};
    }
    assert children == children0 - {parent};
  }

  method RetireLevel(numParents0: map<Item, int>, children0: Graph, level: seq<Item>)
    returns (numParents: map<Item, int>, children: Graph)
    requires Retirable(numParents0, children0, level)
    ensures numParents.Keys == numParents0.Keys - Elements(level)
    ensures children == children0 - Elements(level)
    ensures Counts(numParents, children)
  {
    hide Counts;
    numParents, children := numParents0, children0;
    for k := 0 to |level|
      invariant numParents.Keys == numParents0.Keys - Elements(level[..k])
      invariant children == children0 - Elements(level[..k])
      invariant Counts(numParents, children)
    {
      assert Elements(level[..k + 1]) == Elements(level[..k]) + {level[k]};
      assert level[k] in Elements(level) && level[k] in numParents;
      forall x | Edge(children, level[k], x)
        ensures x in numParents && x != level[k]
      {
        assert Edge(children0, level[k], x);
      }
      numParents, children := Retire(numParents, children, level[k]);
      assert children == children0 - Elements(level[..k + 1]);
    }
    assert level[..|level|] == level;
  }

  lemma AllLevelsFound(g: Graph, v: set<Item>, numParents: map<Item, int>, children: Graph, levels: seq<seq<Item>>)
    requires Vertices(g) <= v && Round(g, v, numParents, children, |levels|)
    requires Yielded(g, v, levels)
    requires forall x :: x in numParents ==> numParents[x] != 0
    ensures forall x :: x in numParents <==> x in v && BelowCycle(g, x)
    ensures AreLevels(g, v, levels)
    ensures children == Without(g, v - numParents.Keys) && Counts(numParents, children)
  {
    hide HasChain, BelowCycle;
    LeftoverIsBelowCycle(g, v, numParents, children);
    forall x | x in v && x !in numParents
      ensures !BelowCycle(g, x) && exists n :: 0 <= n < |levels| && x in levels[n]
    {
      BelowCycleIffChains(g, x);
      var d := DepthBelow(g, x, |levels|);
      assert x in levels[d];
    }
  }

  lemma {:induction false} DepthBelow(g: Graph, x: Item, n: nat) returns (d: nat)
    requires !HasChain(g, x, n)
    ensures d < n && IsDepth(g, x, d)
  {
    hide HasChain;
    ChainOfNone(g, x);
    if HasChain(g, x, n - 1) {
      d := n - 1;
    } else {
      d := DepthBelow(g, x, n - 1);
    }
  }

  method TopsortLevels(pairs: Pairs)
    returns (levels: seq<seq<Item>>, cycleError: bool, numParents: map<Item, int>, children: Graph)
    ensures cycleError <==> HasCycle(GraphOf(pairs))
    ensures AreLevels(GraphOf(pairs), Mentioned(pairs), levels)
    ensures forall x :: x in numParents <==> x in Mentioned(pairs) && BelowCycle(GraphOf(pairs), x)
    ensures children == Without(GraphOf(pairs), Mentioned(pairs) - numParents.Keys) && Counts(numParents, children)
  {
    hide *;
    numParents, children := CountParents(pairs);
    levels, cycleError, numParents, children := TopsortLevelsCore(numParents, children);
  }

  // ----- The two sorts agree

  /** How many items the first n levels hold. */
  function Offset(levels: seq<seq<Item>>, n: nat): nat
    requires n <= |levels|
  {
    if n == 0 then 0 else Offset(levels, n - 1) + |levels[n - 1]|
  }

  /** The stretch of the answer with the position and size of level n holds the items of level n. */
  ghost predicate CutIsLevel(answer: seq<Item>, levels: seq<seq<Item>>, n: nat)
    requires n < |levels|
  {
    && Offset(levels, n + 1) <= |answer|
    && Elements(answer[Offset(levels, n)..Offset(levels, n + 1)]) == Elements(levels[n])
  }

  /** The first Offset(levels, n) items of the answer are those of depth less than n. */
  ghost predicate CutsUpTo(answer: seq<Item>, levels: seq<seq<Item>>, n: nat)
    requires n <= |levels|
  {
    && Offset(levels, n) <= |answer|
    && forall j, m :: 0 <= j < |answer| && 0 <= m < |levels| && answer[j] in levels[m] ==>
         (j < Offset(levels, n) <==> m < n)
  }

  /** Where the items of level n end in the answer. */
  lemma LevelEnds(g: Graph, v: set<Item>, answer: seq<Item>, levels: seq<seq<Item>>, n: nat) returns (e: nat)
    requires IsAnswer(g, v, answer) && AreLevels(g, v, levels)
    requires n < |levels| && CutsUpTo(answer, levels, n)
    ensures Offset(levels, n) <= e <= |answer|
    ensures forall j :: Offset(levels, n) <= j < e ==> answer[j] in levels[n]
    ensures forall j, m :: 0 <= j < |answer| && 0 <= m < |levels| && answer[j] in levels[m] ==> (j < e <==> m < n + 1)
  {
    hide HasChain, BelowCycle, Offset;
    var k := Offset(levels, n);
    e := k;
    while e < |answer| && answer[e] in levels[n]
      invariant k <= e <= |answer|
      invariant forall j :: k <= j < e ==> answer[j] in levels[n]
    {
      e := e + 1;
    }
    forall j, m | 0 <= j < |answer| && 0 <= m < |levels| && answer[j] in levels[m]
      ensures j < e <==> m < n + 1
    {
      if k <= j < e {
        DepthUnique(g, answer[j], m, n);
      } else if e <= j {
        assert answer[e] in answer;
        var m' :| 0 <= m' < |levels| && answer[e] in levels[m'];
        assert m' > n && (j > e ==> m' <= m);
        if j == e { DepthUnique(g, answer[j], m, m'); }
      }
    }
  }

  lemma NextCut(g: Graph, v: set<Item>, answer: seq<Item>, levels: seq<seq<Item>>, n: nat)
    requires IsAnswer(g, v, answer) && AreLevels(g, v, levels)
    requires n < |levels| && CutsUpTo(answer, levels, n)
    ensures CutsUpTo(answer, levels, n + 1)
    ensures CutIsLevel(answer, levels, n)
  {
    hide HasChain, BelowCycle, InDepthOrder, ParentsFirst;
    var e := LevelEnds(g, v, answer, levels, n);
    var k := Offset(levels, n);
    var cut := answer[k..e];
    forall x | x in levels[n]
      ensures x in cut
    {
      DepthNotBelow(g, x, n);
      var j :| 0 <= j < |answer| && answer[j] == x;
      assert k <= j < e;
    }
    assert Elements(cut) == Elements(levels[n]);
    NoDupFits(cut, Elements(cut));
    NoDupFits(levels[n], Elements(cut));
  }

  lemma DepthNotBelow(g: Graph, x: Item, n: nat)
    requires IsDepth(g, x, n)
    ensures !BelowCycle(g, x)
  {
    hide HasChain, BelowCycle;
    BelowCycleIffChains(g, x);
  }

  /**
   * Cutting topsort's answer at the level sizes gives, in the same order, the item sets that
   * topsort_levels yields, and nothing is left over.
   */
  lemma AnswerCutsIntoLevels(g: Graph, v: set<Item>, answer: seq<Item>, levels: seq<seq<Item>>)
    requires IsAnswer(g, v, answer) && AreLevels(g, v, levels)
    ensures Offset(levels, |levels|) == |answer|
    ensures forall n :: 0 <= n < |levels| ==> CutIsLevel(answer, levels, n)
  {
    hide IsAnswer, AreLevels;
    assert CutsUpTo(answer, levels, 0);
    for n := 0 to |levels|
      invariant CutsUpTo(answer, levels, n)
      invariant forall m :: 0 <= m < n ==> CutIsLevel(answer, levels, m)
    {
      NextCut(g, v, answer, levels, n);
    }
    NothingAfterLastLevel(g, v, answer, levels);
  }

  lemma NothingAfterLastLevel(g: Graph, v: set<Item>, answer: seq<Item>, levels: seq<seq<Item>>)
    requires IsAnswer(g, v, answer) && AreLevels(g, v, levels) && CutsUpTo(answer, levels, |levels|)
    ensures Offset(levels, |levels|) == |answer|
  {
    hide BelowCycle, IsLevel;
    if answer != [] {
      var last := answer[|answer| - 1];
      assert last in answer;
      var m :| 0 <= m < |levels| && last in levels[m];
    }
  }
}
