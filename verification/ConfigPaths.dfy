/**
 * utils/print-introspected-doxygen.cc, class StaticInformation: the configuration paths of every type
 * that can be reached from a starting type through attributes, subtypes and aggregation.
 */
module ConfigPaths {

  /** The position of a type in the order of registration. */
  type TypeId = nat

  /** What an attribute's checker says it holds: one object, a container of objects, or neither. */
  datatype Checker = PointerTo(pointee: TypeId) | ContainerOf(item: TypeId) | OtherValue

  datatype Attribute = Attribute(name: string, checker: Checker)

  datatype TypeInfo = TypeInfo(name: string, attributes: seq<Attribute>)

  /** The registered types, their ancestry as (child, ancestor) pairs, and the type of plain objects. */
  datatype Registry = Registry(types: seq<TypeInfo>, childOf: set<(TypeId, TypeId)>, objectType: TypeId) {
    predicate Valid() {
      forall t, a :: 0 <= t < |types| && a in types[t].attributes ==>
        match a.checker
        case PointerTo(pointee) => pointee < |types|
        case ContainerOf(item) => item < |types|
        case OtherValue => true
    }
  }

  type Aggregates = seq<(TypeId, TypeId)>

  predicate KnownAggregates(reg: Registry, aggregates: Aggregates) {
    forall p :: p in aggregates ==> p.0 < |reg.types| && p.1 < |reg.types|
  }

  // ----- The labelled type graph

  datatype Edge = Edge(name: string, target: TypeId)

  predicate Follows(reg: Registry, a: Attribute) {
    match a.checker
    case PointerTo(pointee) => pointee != reg.objectType
    case ContainerOf(_) => true
    case OtherValue => false
  }

  function AttributeEdge(reg: Registry, a: Attribute): Edge
    requires Follows(reg, a)
  {
    match a.checker
    case PointerTo(pointee) => Edge(a.name, pointee)
    case ContainerOf(item) => Edge(a.name + "/[i]", item)
  }

  function AttributeEdges(reg: Registry, attributes: seq<Attribute>): seq<Edge> {
    if attributes == [] then []
    else
      var n := |attributes| - 1;
      AttributeEdges(reg, attributes[..n]) +
      if Follows(reg, attributes[n]) then [AttributeEdge(reg, attributes[n])] else []
  }

  function TypeEdge(reg: Registry, t: TypeId): Edge
    requires t < |reg.types|
  {
    Edge("$" + reg.types[t].name, t)
  }

  /** Edges to the descendants of tid among the first n registered types. */
  function ChildEdges(reg: Registry, tid: TypeId, n: nat): seq<Edge>
    requires n <= |reg.types|
  {
    if n == 0 then []
    else ChildEdges(reg, tid, n - 1) + if (n - 1, tid) in reg.childOf then [TypeEdge(reg, n - 1)] else []
  }

  /** The other side of an aggregation, whichever side tid is on. */
  function Other(p: (TypeId, TypeId), tid: TypeId): TypeId
    requires p.0 == tid || p.1 == tid
  {
    if p.1 == tid then p.0 else p.1
  }

  function AggregateEdges(reg: Registry, aggregates: Aggregates, tid: TypeId): seq<Edge>
    requires KnownAggregates(reg, aggregates)
  {
    if aggregates == [] then []
    else
      var n := |aggregates| - 1;
      var p := aggregates[n];
      AggregateEdges(reg, aggregates[..n], tid) +
      if p.0 == tid || p.1 == tid then [TypeEdge(reg, Other(p, tid))] else []
  }

  /** Everything the search follows out of a type, in its order. */
  function Edges(reg: Registry, aggregates: Aggregates, tid: TypeId): seq<Edge>
    requires KnownAggregates(reg, aggregates) && tid < |reg.types|
  {
    AttributeEdges(reg, reg.types[tid].attributes) + ChildEdges(reg, tid, |reg.types|) +
    AggregateEdges(reg, aggregates, tid)
  }

  /** A finite graph whose nodes are 0 .. |out| - 1, with ordered labelled edges. */
  type Graph = seq<seq<Edge>>

  predicate Closed(g: Graph) {
    forall t, i :: 0 <= t < |g| && 0 <= i < |g[t]| ==> g[t][i].target < |g|
  }

  function GraphOf(reg: Registry, aggregates: Aggregates): (g: Graph)
    requires KnownAggregates(reg, aggregates)
  {
    seq(|reg.types|, tid requires 0 <= tid < |reg.types| => Edges(reg, aggregates, tid))
  }

  lemma GraphOfClosed(reg: Registry, aggregates: Aggregates)
    requires reg.Valid() && KnownAggregates(reg, aggregates)
    ensures Closed(GraphOf(reg, aggregates))
  {
    var g: Graph := GraphOf(reg, aggregates);
    forall t: nat, i: nat | t < |g| && i < |g[t]|
      ensures g[t][i].target < |g|
    {
      AttributeTargets(reg, t, |reg.types[t].attributes|);
      ChildTargets(reg, t, |reg.types|);
      AggregateTargets(reg, aggregates, t);
      assert g[t][i] in g[t];
    }
  }

  predicate Inside(edges: seq<Edge>, n: nat) {
    forall e :: e in edges ==> e.target < n
  }

  lemma {:induction false} AttributeTargets(reg: Registry, t: TypeId, n: nat)
    requires reg.Valid() && t < |reg.types| && n <= |reg.types[t].attributes|
    ensures Inside(AttributeEdges(reg, reg.types[t].attributes[..n]), |reg.types|)
    ensures reg.types[t].attributes[..|reg.types[t].attributes|] == reg.types[t].attributes
  {
    if n > 0 {
      AttributeTargets(reg, t, n - 1);
      var attributes := reg.types[t].attributes;
      assert attributes[..n][..n - 1] == attributes[..n - 1];
      assert attributes[n - 1] in attributes;
    }
  }

  lemma KnownTarget(reg: Registry, tid: TypeId, i: nat)
    requires reg.Valid() && tid < |reg.types| && i < |reg.types[tid].attributes|
    requires Follows(reg, reg.types[tid].attributes[i])
    ensures AttributeEdge(reg, reg.types[tid].attributes[i]).target < |reg.types|
  {
    assert reg.types[tid].attributes[i] in reg.types[tid].attributes;
  }

  lemma ChildTargets(reg: Registry, tid: TypeId, n: nat)
    requires n <= |reg.types|
    ensures Inside(ChildEdges(reg, tid, n), |reg.types|)
  {
  }

  lemma AggregateTargets(reg: Registry, aggregates: Aggregates, tid: TypeId)
    requires KnownAggregates(reg, aggregates)
    ensures Inside(AggregateEdges(reg, aggregates, tid), |reg.types|)
  {
  }

  // ----- What a search records

  type Record = (TypeId, string)

  /** "/a/b/c" for the labels a, b, c. */
  function Render(path: seq<string>): string {
    if path == [] then "" else Render(path[..|path| - 1]) + "/" + path[|path| - 1]
  }

  predicate IsNode(g: Graph, t: TypeId) {
    t < |g|
  }

  ghost function Nodes(g: Graph): set<TypeId> {
    set t: TypeId | t < |g| && IsNode(g, t)
  }

  function OnStack(stack: seq<TypeId>): set<TypeId> {
    set t | t in stack
  }

  /** The records of a search from tid: its own, then those of its edges in turn; nothing if tid is on the stack. */
  ghost function Gathered(g: Graph, tid: TypeId, stack: seq<TypeId>, path: seq<string>): seq<Record>
    requires Closed(g) && tid < |g|
    decreases |Nodes(g) - OnStack(stack)|, 0, 0
  {
    if tid in stack then []
    else Pushed(g, tid, stack); [(tid, Render(path))] + GatheredVia(g, tid, stack, path, g[tid])
  }

  ghost function GatheredVia(g: Graph, tid: TypeId, stack: seq<TypeId>, path: seq<string>, edges: seq<Edge>)
    : seq<Record>
    requires Closed(g) && tid < |g| && tid !in stack && Inside(edges, |g|)
    decreases |Nodes(g) - OnStack(stack + [tid])|, 1, |edges|
  {
    if edges == [] then []
    else
      var n := |edges| - 1;
      GatheredVia(g, tid, stack, path, edges[..n]) +
      Gathered(g, edges[n].target, stack + [tid], path + [edges[n].name])
  }

  lemma Pushed(g: Graph, tid: TypeId, stack: seq<TypeId>)
    requires tid < |g| && tid !in stack
    ensures |Nodes(g) - OnStack(stack + [tid])| < |Nodes(g) - OnStack(stack)|
  {
    assert IsNode(g, tid);
    assert Nodes(g) - OnStack(stack + [tid]) == (Nodes(g) - OnStack(stack)) - {tid};
  }

  lemma GatheredStep(g: Graph, tid: TypeId, stack: seq<TypeId>, path: seq<string>, edges: seq<Edge>, e: Edge)
    requires Closed(g) && tid < |g| && tid !in stack && Inside(edges + [e], |g|)
    ensures Inside(edges, |g|) && e.target < |g|
    ensures GatheredVia(g, tid, stack, path, edges + [e]) ==
            GatheredVia(g, tid, stack, path, edges) + Gathered(g, e.target, stack + [tid], path + [e.name])
  {
    assert (edges + [e])[..|edges|] == edges;
    assert e in edges + [e] && forall x :: x in edges ==> x in edges + [e];
  }

  /** What the loops start from. */
  lemma GatherStarts(reg: Registry, aggregates: Aggregates, tid: TypeId, stack: seq<TypeId>, path: seq<string>)
    requires reg.Valid() && KnownAggregates(reg, aggregates) && tid < |reg.types| && tid !in stack
    ensures Closed(GraphOf(reg, aggregates))
    ensures |GraphOf(reg, aggregates)| == |reg.types| && GraphOf(reg, aggregates)[tid] == Edges(reg, aggregates, tid)
    ensures GatheredVia(GraphOf(reg, aggregates), tid, stack, path, []) == []
    ensures |Nodes(GraphOf(reg, aggregates)) - OnStack(stack + [tid])|
            < |Nodes(GraphOf(reg, aggregates)) - OnStack(stack)|
  {
    GraphOfClosed(reg, aggregates);
    Pushed(GraphOf(reg, aggregates), tid, stack);
  }

  lemma InsideParts(a: seq<Edge>, c: seq<Edge>, e: Edge, n: nat)
    requires Inside(a, n) && Inside(c + [e], n)
    ensures Inside(c, n) && Inside(a + c, n) && Inside(a + c + [e], n)
  {
    assert forall x :: x in c ==> x in c + [e];
    assert e in c + [e];
  }

  lemma {:induction false} GatheredTogether(g: Graph, tid: TypeId, stack: seq<TypeId>, path: seq<string>,
                                            a: seq<Edge>, b: seq<Edge>)
    requires Closed(g) && tid < |g| && tid !in stack && Inside(a, |g|) && Inside(b, |g|)
    ensures Inside(a + b, |g|)
    ensures GatheredVia(g, tid, stack, path, a + b)
            == GatheredVia(g, tid, stack, path, a) + GatheredVia(g, tid, stack, path, b)
    decreases |b|
  {
    if b == [] {
      assert a + b == a;
    } else {
      hide Gathered, GatheredVia;
      var c, e := b[..|b| - 1], b[|b| - 1];
      assert b == c + [e] && a + b == a + c + [e];
      InsideParts(a, c, e, |g|);
      hide Inside, Closed;
      GatheredTogether(g, tid, stack, path, a, c);
      TogetherStep(g, tid, stack, path, a, c, e);
    }
  }

  lemma TogetherStep(g: Graph, tid: TypeId, stack: seq<TypeId>, path: seq<string>, a: seq<Edge>, c: seq<Edge>, e: Edge)
    requires Closed(g) && tid < |g| && tid !in stack
    requires Inside(a, |g|) && Inside(c, |g|) && Inside(a + c, |g|) && Inside(c + [e], |g|) && Inside(a + c + [e], |g|)
    requires GatheredVia(g, tid, stack, path, a + c)
             == GatheredVia(g, tid, stack, path, a) + GatheredVia(g, tid, stack, path, c)
    ensures GatheredVia(g, tid, stack, path, a + c + [e])
            == GatheredVia(g, tid, stack, path, a) + GatheredVia(g, tid, stack, path, c + [e])
  {
    hide Gathered, GatheredVia, Inside, Closed;
    GatheredStep(g, tid, stack, path, a + c, e);
    GatheredStep(g, tid, stack, path, c, e);
  }

  /** The paths recorded for one type, in order. */
  function PathsOf(output: seq<Record>, tid: TypeId): seq<string> {
    if output == [] then []
    else
      var n := |output| - 1;
      PathsOf(output[..n], tid) + if output[n].0 == tid then [output[n].1] else []
  }

  class StaticInformation {
    var output: seq<Record>
    var currentPath: seq<string>
    var alreadyProcessed: seq<TypeId>
    var aggregates: Aggregates

    constructor ()
      ensures output == [] && currentPath == [] && alreadyProcessed == [] && aggregates == []
    {
      output, currentPath, alreadyProcessed, aggregates := [], [], [], [];
    }

    method GetCurrentPath() returns (oss: string)
      ensures oss == Render(currentPath)
    {
      oss := "";
      for i := 0 to |currentPath|
        invariant oss == Render(currentPath[..i])
      {
        assert currentPath[..i + 1][..i] == currentPath[..i];
        oss := oss + "/" + currentPath[i];
      }
      assert currentPath[..|currentPath|] == currentPath;
    }

    method RecordOutput(tid: TypeId)
      modifies `output
      ensures output == old(output) + [(tid, Render(currentPath))]
    {
      var path := GetCurrentPath();
      output := output + [(tid, path)];
    }

    method HasAlreadyBeenProcessed(tid: TypeId) returns (found: bool)
      ensures found <==> tid in alreadyProcessed
    {
      for i := 0 to |alreadyProcessed|
        invariant tid !in alreadyProcessed[..i]
      {
        if alreadyProcessed[i] == tid {
          return true;
        }
      }
      return false;
    }

    method Get(tid: TypeId) returns (paths: seq<string>)
      ensures paths == PathsOf(output, tid)
    {
      paths := [];
      for i := 0 to |output|
        invariant paths == PathsOf(output[..i], tid)
      {
        assert output[..i + 1][..i] == output[..i];
        if output[i].0 == tid {
          paths := paths + [output[i].1];
        }
      }
      assert output[..|output|] == output;
    }

    /** One step of the search: along an edge, gather behind it, and back. */
    method GatherBehind(reg: Registry, tid: TypeId, e: Edge)
      requires reg.Valid() && KnownAggregates(reg, aggregates)
      requires tid < |reg.types| && e.target < |reg.types| && tid !in alreadyProcessed
      modifies `output, `currentPath, `alreadyProcessed
      ensures currentPath == old(currentPath) && alreadyProcessed == old(alreadyProcessed)
      ensures Closed(GraphOf(reg, aggregates))
      ensures output == old(output) + Gathered(GraphOf(reg, aggregates), e.target,
                                               old(alreadyProcessed) + [tid], old(currentPath) + [e.name])
      decreases |Nodes(GraphOf(reg, aggregates)) - OnStack(alreadyProcessed + [tid])|, 1
    {
      currentPath := currentPath + [e.name];
      alreadyProcessed := alreadyProcessed + [tid];
      DoGather(reg, e.target);
      alreadyProcessed := alreadyProcessed[..|alreadyProcessed| - 1];
      currentPath := currentPath[..|currentPath| - 1];
    }

    /** The first loop of DoGather. */
    method FollowAttributes(reg: Registry, tid: TypeId)
      requires reg.Valid() && KnownAggregates(reg, aggregates) && tid < |reg.types| && tid !in alreadyProcessed
      modifies `output, `currentPath, `alreadyProcessed
      ensures currentPath == old(currentPath) && alreadyProcessed == old(alreadyProcessed)
      ensures Closed(GraphOf(reg, aggregates)) && Inside(AttributeEdges(reg, reg.types[tid].attributes), |reg.types|)
      ensures output == old(output) + GatheredVia(GraphOf(reg, aggregates), tid, alreadyProcessed, currentPath,
                                                  AttributeEdges(reg, reg.types[tid].attributes))
      decreases |Nodes(GraphOf(reg, aggregates)) - OnStack(alreadyProcessed + [tid])|, 2
    {
      hide Gathered, GatheredVia, GraphOf, Nodes, OnStack, Closed, Registry.Valid;
      ghost var g: Graph := GraphOf(reg, aggregates);
      GatherStarts(reg, aggregates, tid, alreadyProcessed, currentPath);
      ghost var done: seq<Edge> := [];
      var attributes := reg.types[tid].attributes;
      for i := 0 to |attributes|
        invariant currentPath == old(currentPath) && alreadyProcessed == old(alreadyProcessed)
        invariant done == AttributeEdges(reg, attributes[..i]) && Inside(done, |g|)
        invariant output == old(output) + GatheredVia(g, tid, alreadyProcessed, currentPath, done)
      {
        assert attributes[..i + 1][..i] == attributes[..i];
        if Follows(reg, attributes[i]) {
          var e := AttributeEdge(reg, attributes[i]);
          KnownTarget(reg, tid, i);
          GatheredStep(g, tid, alreadyProcessed, currentPath, done, e);
          GatherBehind(reg, tid, e);
          done := done + [e];
        }
      }
      assert attributes[..|attributes|] == attributes;
    }

    /** The second loop. */
    method FollowSubtypes(reg: Registry, tid: TypeId)
      requires reg.Valid() && KnownAggregates(reg, aggregates) && tid < |reg.types| && tid !in alreadyProcessed
      modifies `output, `currentPath, `alreadyProcessed
      ensures currentPath == old(currentPath) && alreadyProcessed == old(alreadyProcessed)
      ensures Closed(GraphOf(reg, aggregates)) && Inside(ChildEdges(reg, tid, |reg.types|), |reg.types|)
      ensures output == old(output) + GatheredVia(GraphOf(reg, aggregates), tid, alreadyProcessed, currentPath,
                                                  ChildEdges(reg, tid, |reg.types|))
      decreases |Nodes(GraphOf(reg, aggregates)) - OnStack(alreadyProcessed + [tid])|, 2
    {
      hide Gathered, GatheredVia, GraphOf, Nodes, OnStack, Closed, Registry.Valid;
      ghost var g: Graph := GraphOf(reg, aggregates);
      GatherStarts(reg, aggregates, tid, alreadyProcessed, currentPath);
      ghost var done: seq<Edge> := [];
      for j := 0 to |reg.types|
        invariant currentPath == old(currentPath) && alreadyProcessed == old(alreadyProcessed)
        invariant done == ChildEdges(reg, tid, j) && Inside(done, |g|)
        invariant output == old(output) + GatheredVia(g, tid, alreadyProcessed, currentPath, done)
      {
        if (j, tid) in reg.childOf {
          var e := TypeEdge(reg, j);
          GatheredStep(g, tid, alreadyProcessed, currentPath, done, e);
          GatherBehind(reg, tid, e);
          done := done + [e];
        }
      }
    }

    /** The third loop. */
    method FollowAggregates(reg: Registry, tid: TypeId)
      requires reg.Valid() && KnownAggregates(reg, aggregates) && tid < |reg.types| && tid !in alreadyProcessed
      modifies `output, `currentPath, `alreadyProcessed
      ensures currentPath == old(currentPath) && alreadyProcessed == old(alreadyProcessed)
      ensures Closed(GraphOf(reg, aggregates)) && Inside(AggregateEdges(reg, aggregates, tid), |reg.types|)
      ensures output == old(output) + GatheredVia(GraphOf(reg, aggregates), tid, alreadyProcessed, currentPath,
                                                  AggregateEdges(reg, aggregates, tid))
      decreases |Nodes(GraphOf(reg, aggregates)) - OnStack(alreadyProcessed + [tid])|, 2
    {
      hide Gathered, GatheredVia, GraphOf, Nodes, OnStack, Closed, Registry.Valid;
      ghost var g: Graph := GraphOf(reg, aggregates);
      GatherStarts(reg, aggregates, tid, alreadyProcessed, currentPath);
      ghost var done: seq<Edge> := [];
      for i := 0 to |aggregates|
        invariant currentPath == old(currentPath) && alreadyProcessed == old(alreadyProcessed)
        invariant done == AggregateEdges(reg, aggregates[..i], tid) && Inside(done, |g|)
        invariant output == old(output) + GatheredVia(g, tid, alreadyProcessed, currentPath, done)
      {
        assert aggregates[..i + 1][..i] == aggregates[..i];
        var item := aggregates[i];
        if item.0 == tid || item.1 == tid {
          var e := TypeEdge(reg, Other(item, tid));
          GatheredStep(g, tid, alreadyProcessed, currentPath, done, e);
          GatherBehind(reg, tid, e);
          done := done + [e];
        }
      }
      assert aggregates[..|aggregates|] == aggregates;
    }

    method DoGather(reg: Registry, tid: TypeId)
      requires reg.Valid() && KnownAggregates(reg, aggregates) && tid < |reg.types|
      modifies `output, `currentPath, `alreadyProcessed
      ensures currentPath == old(currentPath) && alreadyProcessed == old(alreadyProcessed)
      ensures Closed(GraphOf(reg, aggregates))
      ensures output == old(output) + Gathered(GraphOf(reg, aggregates), tid, old(alreadyProcessed), old(currentPath))
      decreases |Nodes(GraphOf(reg, aggregates)) - OnStack(alreadyProcessed)|, 0
    {
      hide GatheredVia, GraphOf, Nodes, OnStack, Closed, Registry.Valid, AttributeEdges, ChildEdges, AggregateEdges;
      GraphOfClosed(reg, aggregates);
      var processed := HasAlreadyBeenProcessed(tid);
      if processed {
        return;
      }
      GatherStarts(reg, aggregates, tid, alreadyProcessed, currentPath);
      RecordOutput(tid);
      FollowAttributes(reg, tid);
      FollowSubtypes(reg, tid);
      FollowAggregates(reg, tid);
      var a, b, c := AttributeEdges(reg, reg.types[tid].attributes), ChildEdges(reg, tid, |reg.types|),
                     AggregateEdges(reg, aggregates, tid);
      GatheredTogether(GraphOf(reg, aggregates), tid, alreadyProcessed, currentPath, a, b);
      GatheredTogether(GraphOf(reg, aggregates), tid, alreadyProcessed, currentPath, a + b, c);
    }

    /** Gather's call of Uniquefy sorts a copy of the output, so it leaves no trace. */
    method Gather(reg: Registry, tid: TypeId)
      requires reg.Valid() && KnownAggregates(reg, aggregates) && tid < |reg.types|
      modifies `output, `currentPath, `alreadyProcessed
      ensures currentPath == old(currentPath) && alreadyProcessed == old(alreadyProcessed)
      ensures Closed(GraphOf(reg, aggregates))
      ensures output == old(output) + Gathered(GraphOf(reg, aggregates), tid, old(alreadyProcessed), old(currentPath))
    {
      DoGather(reg, tid);
    }
  }
}
