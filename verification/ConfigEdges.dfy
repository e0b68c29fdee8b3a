/** What the configuration search follows, said of the registry of types, and what it then finds. */
module ConfigEdges {
  import opened ConfigPaths
  import opened ConfigRoutes

  // ----- Why an edge leaves a type

  /** The attribute, the registered type or the aggregation that is behind an edge, by its position. */
  datatype Reason = ByAttribute(at: nat) | BySubtype(at: nat) | ByAggregation(at: nat)

  ghost predicate Leads(reg: Registry, aggregates: Aggregates, tid: TypeId, why: Reason, e: Edge)
    requires tid < |reg.types|
  {
    match why
    case ByAttribute(i) =>
      && i < |reg.types[tid].attributes|
      && var a := reg.types[tid].attributes[i];
         || (a.checker == PointerTo(e.target) && e.target != reg.objectType && e.name == a.name)
         || (a.checker == ContainerOf(e.target) && e.name == a.name + "/[i]")
    case BySubtype(j) =>
      j < |reg.types| && e.target == j && (e.target, tid) in reg.childOf && e.name == "$" + reg.types[j].name
    case ByAggregation(k) =>
      && k < |aggregates| && (aggregates[k] == (tid, e.target) || aggregates[k] == (e.target, tid))
      && e.target < |reg.types| && e.name == "$" + reg.types[e.target].name
  }

  /** Attributes first, then subtypes, then aggregations, each kind in its own order. */
  predicate Earlier(a: Reason, b: Reason) {
    match (a, b)
    case (ByAttribute(i), ByAttribute(j)) => i < j
    case (BySubtype(i), BySubtype(j)) => i < j
    case (ByAggregation(i), ByAggregation(j)) => i < j
    case (ByAttribute(_), _) => true
    case (BySubtype(_), ByAggregation(_)) => true
    case _ => false
  }

  ghost predicate Rising(whys: seq<Reason>) {
    forall i, j :: 0 <= i < j < |whys| ==> Earlier(whys[i], whys[j])
  }

  ghost predicate Behind(reg: Registry, aggregates: Aggregates, tid: TypeId, whys: seq<Reason>, edges: seq<Edge>)
    requires tid < |reg.types|
  {
    |whys| == |edges| && forall i :: 0 <= i < |edges| ==> Leads(reg, aggregates, tid, whys[i], edges[i])
  }

  lemma OneEdgeEach(reg: Registry, aggregates: Aggregates, tid: TypeId, why: Reason, e: Edge, e': Edge)
    requires tid < |reg.types| && Leads(reg, aggregates, tid, why, e) && Leads(reg, aggregates, tid, why, e')
    ensures e == e'
  {
  }

  lemma {:induction false} AttributeReasons(reg: Registry, aggregates: Aggregates, tid: TypeId, n: nat)
    returns (whys: seq<Reason>)
    requires tid < |reg.types| && n <= |reg.types[tid].attributes|
    ensures Behind(reg, aggregates, tid, whys, AttributeEdges(reg, reg.types[tid].attributes[..n])) && Rising(whys)
    ensures forall why :: why in whys ==> why.ByAttribute? && why.at < n
    ensures forall i: nat, e :: i < n && Leads(reg, aggregates, tid, ByAttribute(i), e) ==> ByAttribute(i) in whys
  {
    whys := [];
    if n > 0 {
      var attributes := reg.types[tid].attributes;
      assert attributes[..n][..n - 1] == attributes[..n - 1] && attributes[..n][n - 1] == attributes[n - 1];
      whys := AttributeReasons(reg, aggregates, tid, n - 1);
      if Follows(reg, attributes[n - 1]) {
        whys := whys + [ByAttribute(n - 1)];
      }
    }
  }

  lemma {:induction false} SubtypeReasons(reg: Registry, aggregates: Aggregates, tid: TypeId, n: nat)
    returns (whys: seq<Reason>)
    requires tid < |reg.types| && n <= |reg.types|
    ensures Behind(reg, aggregates, tid, whys, ChildEdges(reg, tid, n)) && Rising(whys)
    ensures forall why :: why in whys ==> why.BySubtype? && why.at < n
    ensures forall j: nat, e :: j < n && Leads(reg, aggregates, tid, BySubtype(j), e) ==> BySubtype(j) in whys
  {
    whys := [];
    if n > 0 {
      whys := SubtypeReasons(reg, aggregates, tid, n - 1);
      if (n - 1, tid) in reg.childOf {
        whys := whys + [BySubtype(n - 1)];
      }
    }
  }

  lemma {:induction false} AggregationReasons(reg: Registry, aggregates: Aggregates, tid: TypeId, n: nat)
    returns (whys: seq<Reason>)
    requires KnownAggregates(reg, aggregates) && tid < |reg.types| && n <= |aggregates|
    ensures KnownAggregates(reg, aggregates[..n])
    ensures Behind(reg, aggregates, tid, whys, AggregateEdges(reg, aggregates[..n], tid)) && Rising(whys)
    ensures forall why :: why in whys ==> why.ByAggregation? && why.at < n
    ensures forall k: nat, e :: k < n && Leads(reg, aggregates, tid, ByAggregation(k), e) ==> ByAggregation(k) in whys
  {
    whys := [];
    if n > 0 {
      assert aggregates[..n][..n - 1] == aggregates[..n - 1] && aggregates[..n][n - 1] == aggregates[n - 1];
      assert aggregates[n - 1] in aggregates;
      whys := AggregationReasons(reg, aggregates, tid, n - 1);
      if aggregates[n - 1].0 == tid || aggregates[n - 1].1 == tid {
        whys := whys + [ByAggregation(n - 1)];
      }
    }
  }

  /** The edges that leave a type are those the registry gives a reason for, one for each reason, in their order. */
  lemma EdgesHaveReasons(reg: Registry, aggregates: Aggregates, tid: TypeId) returns (whys: seq<Reason>)
    requires KnownAggregates(reg, aggregates) && tid < |reg.types|
    ensures Behind(reg, aggregates, tid, whys, GraphOf(reg, aggregates)[tid]) && Rising(whys)
    ensures forall why, e :: Leads(reg, aggregates, tid, why, e) ==>
              exists i :: 0 <= i < |whys| && whys[i] == why && GraphOf(reg, aggregates)[tid][i] == e
  {
    var attributes := reg.types[tid].attributes;
    assert attributes[..|attributes|] == attributes && aggregates[..|aggregates|] == aggregates;
    var a := AttributeReasons(reg, aggregates, tid, |attributes|);
    var b := SubtypeReasons(reg, aggregates, tid, |reg.types|);
    var c := AggregationReasons(reg, aggregates, tid, |aggregates|);
    whys := a + b + c;
    hide AttributeEdges, ChildEdges, AggregateEdges;
    var edges := Edges(reg, aggregates, tid);
    assert Behind(reg, aggregates, tid, whys, edges) by { hide Leads; }
    assert Rising(whys);
    forall why, e | Leads(reg, aggregates, tid, why, e)
      ensures exists i :: 0 <= i < |whys| && whys[i] == why && edges[i] == e
    {
      assert why in a || why in b || why in c;
      assert why in whys;
      var i :| 0 <= i < |whys| && whys[i] == why;
      OneEdgeEach(reg, aggregates, tid, why, e, edges[i]);
    }
  }

  lemma EdgeIff(reg: Registry, aggregates: Aggregates, tid: TypeId, e: Edge)
    requires KnownAggregates(reg, aggregates) && tid < |reg.types|
    ensures e in GraphOf(reg, aggregates)[tid] <==> exists why :: Leads(reg, aggregates, tid, why, e)
  {
    var whys := EdgesHaveReasons(reg, aggregates, tid);
    hide Leads;
    var edges := GraphOf(reg, aggregates)[tid];
    if e in edges {
      var i :| 0 <= i < |edges| && edges[i] == e;
      assert Leads(reg, aggregates, tid, whys[i], e);
    }
  }

  // ----- What is found

  /** Edges one behind another, each with a reason. */
  ghost predicate IsChain(reg: Registry, aggregates: Aggregates, tid: TypeId, chain: seq<Edge>)
    decreases |chain|
  {
    && tid < |reg.types|
    && (chain != [] ==>
          && (exists why :: Leads(reg, aggregates, tid, why, chain[0]))
          && IsChain(reg, aggregates, chain[0].target, chain[1..]))
  }

  /** The types on the way, and the labels. */
  function Types(tid: TypeId, chain: seq<Edge>): seq<TypeId> {
    [tid] + Targets(chain)
  }

  function Targets(chain: seq<Edge>): (ts: seq<TypeId>)
    ensures |ts| == |chain|
  {
    if chain == [] then [] else [chain[0].target] + Targets(chain[1..])
  }

  function Labels(chain: seq<Edge>): seq<string> {
    if chain == [] then [] else [chain[0].name] + Labels(chain[1..])
  }

  /** A chain that passes no type twice and leads to tid, with its labels behind slashes. */
  ghost predicate FindsPath(reg: Registry, aggregates: Aggregates, root: TypeId, tid: TypeId, p: string,
                            chain: seq<Edge>) {
    && IsChain(reg, aggregates, root, chain)
    && (forall i, j :: 0 <= i < j <= |chain| ==> Types(root, chain)[i] != Types(root, chain)[j])
    && Types(root, chain)[|chain|] == tid && p == Render(Labels(chain))
  }

  function ChainOf(g: Graph, tid: TypeId, r: Route): (chain: seq<Edge>)
    requires Closed(g) && tid < |g| && IsRoute(g, tid, r)
    ensures |chain| == |r|
    decreases r
  {
    if r == [] then [] else [g[tid][r[0]]] + ChainOf(g, g[tid][r[0]].target, r[1..])
  }

  lemma {:induction false} RouteIsChain(reg: Registry, aggregates: Aggregates, tid: TypeId, r: Route)
    requires reg.Valid() && KnownAggregates(reg, aggregates) && tid < |reg.types|
    requires Closed(GraphOf(reg, aggregates)) && IsRoute(GraphOf(reg, aggregates), tid, r)
    ensures var g, chain := GraphOf(reg, aggregates), ChainOf(GraphOf(reg, aggregates), tid, r);
            && IsChain(reg, aggregates, tid, chain)
            && Types(tid, chain) == Visits(g, tid, r) && Labels(chain) == Names(g, tid, r)
    decreases |r|
  {
    hide GraphOf, Leads, Closed;
    if r != [] {
      var g := GraphOf(reg, aggregates);
      SameSize(reg, aggregates);
      EdgesInside(g, tid, |g[tid]|);
      var e := g[tid][r[0]];
      EdgeIff(reg, aggregates, tid, e);
      RouteIsChain(reg, aggregates, e.target, r[1..]);
      var chain := ChainOf(g, tid, r);
      assert chain[1..] == ChainOf(g, e.target, r[1..]);
    }
  }

  lemma SameSize(reg: Registry, aggregates: Aggregates)
    requires KnownAggregates(reg, aggregates)
    ensures |GraphOf(reg, aggregates)| == |reg.types|
  {
  }

  lemma {:induction false} ChainIsRoute(reg: Registry, aggregates: Aggregates, tid: TypeId, chain: seq<Edge>)
    returns (r: Route)
    requires reg.Valid() && KnownAggregates(reg, aggregates) && Closed(GraphOf(reg, aggregates))
    requires IsChain(reg, aggregates, tid, chain)
    ensures tid < |GraphOf(reg, aggregates)| && IsRoute(GraphOf(reg, aggregates), tid, r)
    ensures ChainOf(GraphOf(reg, aggregates), tid, r) == chain
    decreases |chain|
  {
    hide GraphOf, Leads, Closed;
    SameSize(reg, aggregates);
    r := [];
    if chain != [] {
      var g := GraphOf(reg, aggregates);
      EdgeIff(reg, aggregates, tid, chain[0]);
      var k :| 0 <= k < |g[tid]| && g[tid][k] == chain[0];
      var tail := ChainIsRoute(reg, aggregates, chain[0].target, chain[1..]);
      r := [k] + tail;
      assert r[1..] == tail;
    }
  }

  /**
   * After a search from an idle start, the paths returned for a type are those of the chains of attributes, subtypes
   * and aggregations that lead to it from the root without passing a type twice.
   */
  lemma GetFindsChains(reg: Registry, aggregates: Aggregates, root: TypeId, tid: TypeId, p: string)
    requires reg.Valid() && KnownAggregates(reg, aggregates) && root < |reg.types|
    ensures Closed(GraphOf(reg, aggregates))
    ensures p in PathsOf(Gathered(GraphOf(reg, aggregates), root, [], []), tid) <==>
            exists chain :: FindsPath(reg, aggregates, root, tid, p, chain)
  {
    GraphOfClosed(reg, aggregates);
    SameSize(reg, aggregates);
    var g := GraphOf(reg, aggregates);
    GetFindsFreeRoutes(g, root, tid, p);
    if r :| IsFreeRoute(g, root, [], r) && RecordOf(g, root, [], r) == (tid, p) {
      RouteFinds(reg, aggregates, root, tid, p, r);
    }
    if chain :| FindsPath(reg, aggregates, root, tid, p, chain) {
      var r := ChainIsRoute(reg, aggregates, root, chain);
      RouteFinds(reg, aggregates, root, tid, p, r);
    }
  }

  lemma RouteFinds(reg: Registry, aggregates: Aggregates, root: TypeId, tid: TypeId, p: string, r: Route)
    requires reg.Valid() && KnownAggregates(reg, aggregates) && root < |reg.types|
    requires Closed(GraphOf(reg, aggregates)) && IsRoute(GraphOf(reg, aggregates), root, r)
    ensures var g := GraphOf(reg, aggregates);
            IsFreeRoute(g, root, [], r) && RecordOf(g, root, [], r) == (tid, p) <==>
            FindsPath(reg, aggregates, root, tid, p, ChainOf(g, root, r))
  {
    hide GraphOf, Closed, Render;
    SameSize(reg, aggregates);
    var g := GraphOf(reg, aggregates);
    RouteIsChain(reg, aggregates, root, r);
    var v := Visits(g, root, r);
    assert [] + Names(g, root, r) == Names(g, root, r);
    assert Fresh([], v) <==> forall i, j :: 0 <= i < j < |v| ==> v[i] != v[j];
  }
}
