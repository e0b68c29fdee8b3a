/** What a configuration search records, said without the search: one record per repetition-free route. */
module ConfigRoutes {
  import opened ConfigPaths

  /** A route out of a type: at each type, the position of the edge to take. */
  type Route = seq<nat>

  predicate IsRoute(g: Graph, tid: TypeId, r: Route)
    requires Closed(g) && tid < |g|
    decreases r
  {
    r == [] || (r[0] < |g[tid]| && IsRoute(g, g[tid][r[0]].target, r[1..]))
  }

  /** The types a route passes, first and last included. */
  function Visits(g: Graph, tid: TypeId, r: Route): seq<TypeId>
    requires Closed(g) && tid < |g| && IsRoute(g, tid, r)
    decreases r
  {
    [tid] + if r == [] then [] else Visits(g, g[tid][r[0]].target, r[1..])
  }

  function Names(g: Graph, tid: TypeId, r: Route): seq<string>
    requires Closed(g) && tid < |g| && IsRoute(g, tid, r)
    decreases r
  {
    if r == [] then [] else [g[tid][r[0]].name] + Names(g, g[tid][r[0]].target, r[1..])
  }

  /** A route that passes no type twice and none of those on the stack. */
  ghost predicate IsFreeRoute(g: Graph, tid: TypeId, stack: seq<TypeId>, r: Route)
    requires Closed(g) && tid < |g|
  {
    IsRoute(g, tid, r) && Fresh(stack, Visits(g, tid, r))
  }

  ghost predicate Fresh(stack: seq<TypeId>, v: seq<TypeId>) {
    && (forall i, j :: 0 <= i < j < |v| ==> v[i] != v[j])
    && (forall i :: 0 <= i < |v| ==> v[i] !in stack)
  }

  /** The record a route leaves: the type it ends in, under the names along the way. */
  function RecordOf(g: Graph, tid: TypeId, path: seq<string>, r: Route): Record
    requires Closed(g) && tid < |g| && IsRoute(g, tid, r)
  {
    var v := Visits(g, tid, r);
    (v[|v| - 1], Render(path + Names(g, tid, r)))
  }

  /** Dictionary order, which on routes is preorder: a route before its extensions, and siblings by position. */
  predicate Before(a: Route, b: Route) {
    b != [] && (a == [] || a[0] < b[0] || (a[0] == b[0] && Before(a[1..], b[1..])))
  }

  ghost predicate InPreorder(routes: seq<Route>) {
    forall i, j :: 0 <= i < j < |routes| ==> Before(routes[i], routes[j])
  }

  lemma {:induction false} BeforeIsStrict(a: Route, b: Route)
    requires Before(a, b)
    ensures a != b
  {
    if a != [] && a[0] == b[0] { BeforeIsStrict(a[1..], b[1..]); }
  }

  // ----- The routes in the order the search takes them

  function Prefixed(n: nat, routes: seq<Route>): (p: seq<Route>)
    ensures |p| == |routes| && forall i :: 0 <= i < |p| ==> p[i] == [n] + routes[i]
  {
    seq(|routes|, i requires 0 <= i < |routes| => [n] + routes[i])
  }

  ghost function Routes(g: Graph, tid: TypeId, stack: seq<TypeId>): seq<Route>
    requires Closed(g) && tid < |g|
    decreases |Nodes(g) - OnStack(stack)|, 0, 0
  {
    if tid in stack then []
    else Pushed(g, tid, stack); [[]] + RoutesVia(g, tid, stack, |g[tid]|)
  }

  /** Those that leave tid by one of its first n edges. */
  ghost function RoutesVia(g: Graph, tid: TypeId, stack: seq<TypeId>, n: nat): seq<Route>
    requires Closed(g) && tid < |g| && tid !in stack && n <= |g[tid]|
    decreases |Nodes(g) - OnStack(stack + [tid])|, 1, n
  {
    if n == 0 then []
    else RoutesVia(g, tid, stack, n - 1) + Prefixed(n - 1, Routes(g, g[tid][n - 1].target, stack + [tid]))
  }

  // ----- They are exactly the free routes, in preorder

  lemma FreshStep(stack: seq<TypeId>, t: TypeId, w: seq<TypeId>)
    ensures Fresh(stack, [t] + w) <==> t !in stack && Fresh(stack + [t], w)
  {
    var v := [t] + w;
    if Fresh(stack, v) {
      assert v[0] !in stack;
      assert forall i :: 0 <= i < |w| ==> w[i] == v[i + 1];
    }
  }

  /** A route is free iff it stays put, or its first step leads to a free route that also avoids tid. */
  lemma FreeRouteStep(g: Graph, tid: TypeId, stack: seq<TypeId>, r: Route)
    requires Closed(g) && tid < |g|
    ensures IsFreeRoute(g, tid, stack, r) <==>
            && tid !in stack
            && (r == [] || (r[0] < |g[tid]| && IsFreeRoute(g, g[tid][r[0]].target, stack + [tid], r[1..])))
  {
    hide Fresh;
    if r == [] {
      FreshStep(stack, tid, []);
      assert [tid] + [] == Visits(g, tid, r);
      assert Fresh(stack + [tid], []) by { NothingIsFresh(stack + [tid]); }
    } else if IsRoute(g, tid, r) {
      FreshStep(stack, tid, Visits(g, g[tid][r[0]].target, r[1..]));
    }
  }

  lemma NothingIsFresh(stack: seq<TypeId>)
    ensures Fresh(stack, [])
  {
  }

  lemma {:induction false} RoutesAreFreeRoutes(g: Graph, tid: TypeId, stack: seq<TypeId>, r: Route)
    requires Closed(g) && tid < |g|
    ensures r in Routes(g, tid, stack) <==> IsFreeRoute(g, tid, stack, r)
    decreases |Nodes(g) - OnStack(stack)|, 0, 0
  {
    FreeRouteStep(g, tid, stack, r);
    if tid !in stack {
      Pushed(g, tid, stack);
      RoutesViaAreFreeRoutes(g, tid, stack, |g[tid]|, r);
    }
  }

  lemma {:induction false} RoutesViaAreFreeRoutes(g: Graph, tid: TypeId, stack: seq<TypeId>, n: nat, r: Route)
    requires Closed(g) && tid < |g| && tid !in stack && n <= |g[tid]|
    ensures r in RoutesVia(g, tid, stack, n) <==>
            r != [] && r[0] < n && IsFreeRoute(g, g[tid][r[0]].target, stack + [tid], r[1..])
    decreases |Nodes(g) - OnStack(stack + [tid])|, 1, n
  {
    if n > 0 {
      RoutesViaAreFreeRoutes(g, tid, stack, n - 1, r);
      var behind := Routes(g, g[tid][n - 1].target, stack + [tid]);
      PrefixedMembers(n - 1, behind, r);
      if r != [] {
        RoutesAreFreeRoutes(g, g[tid][n - 1].target, stack + [tid], r[1..]);
      }
    }
  }

  lemma PrefixedMembers(n: nat, routes: seq<Route>, r: Route)
    ensures r in Prefixed(n, routes) <==> r != [] && r[0] == n && r[1..] in routes
  {
    if r != [] && r[0] == n && r[1..] in routes {
      var i :| 0 <= i < |routes| && routes[i] == r[1..];
      assert Prefixed(n, routes)[i] == r;
    }
  }

  lemma EmptyPreorder()
    ensures InPreorder([])
  {
  }

  lemma {:induction false} RoutesInPreorder(g: Graph, tid: TypeId, stack: seq<TypeId>)
    requires Closed(g) && tid < |g|
    ensures InPreorder(Routes(g, tid, stack))
    decreases |Nodes(g) - OnStack(stack)|, 0, 0
  {
    if tid !in stack {
      Pushed(g, tid, stack);
      RoutesViaInPreorder(g, tid, stack, |g[tid]|);
    }
  }

  lemma {:induction false} RoutesViaInPreorder(g: Graph, tid: TypeId, stack: seq<TypeId>, n: nat)
    requires Closed(g) && tid < |g| && tid !in stack && n <= |g[tid]|
    ensures InPreorder(RoutesVia(g, tid, stack, n))
    ensures forall r :: r in RoutesVia(g, tid, stack, n) ==> r != [] && r[0] < n
    decreases |Nodes(g) - OnStack(stack + [tid])|, 1, n
  {
    hide InPreorder, Prefixed;
    EmptyPreorder();
    if n > 0 {
      RoutesViaInPreorder(g, tid, stack, n - 1);
      RoutesInPreorder(g, g[tid][n - 1].target, stack + [tid]);
      PreorderGoesOn(RoutesVia(g, tid, stack, n - 1), n - 1, Routes(g, g[tid][n - 1].target, stack + [tid]));
    }
  }

  /** Routes by an earlier edge come before those by the next. */
  lemma PreorderGoesOn(before: seq<Route>, n: nat, behind: seq<Route>)
    requires InPreorder(before) && InPreorder(behind) && forall r :: r in before ==> r != [] && r[0] < n
    ensures InPreorder(before + Prefixed(n, behind))
    ensures forall r :: r in before + Prefixed(n, behind) ==> r != [] && r[0] < n + 1
  {
    var after := Prefixed(n, behind);
    var all := before + after;
    forall i, j | 0 <= i < j < |all|
      ensures Before(all[i], all[j])
    {
      if j < |before| {
        assert Before(before[i], before[j]);
      } else if i < |before| {
        assert before[i] in before && all[j] == after[j - |before|];
      } else {
        assert Before(behind[i - |before|], behind[j - |before|]);
        assert after[i - |before|][1..] == behind[i - |before|] && after[j - |before|][1..] == behind[j - |before|];
      }
    }
    forall r | r in after
      ensures r != [] && r[0] < n + 1
    {
    }
  }

  /** One record per route, in the same order. */
  ghost predicate Recorded(g: Graph, tid: TypeId, path: seq<string>, records: seq<Record>, routes: seq<Route>)
    requires Closed(g) && tid < |g|
  {
    && |records| == |routes|
    && forall i :: 0 <= i < |routes| ==> IsRoute(g, tid, routes[i]) && records[i] == RecordOf(g, tid, path, routes[i])
  }

  lemma {:induction false} GatheredFollowsRoutes(g: Graph, tid: TypeId, stack: seq<TypeId>, path: seq<string>)
    requires Closed(g) && tid < |g|
    ensures Recorded(g, tid, path, Gathered(g, tid, stack, path), Routes(g, tid, stack))
    decreases |Nodes(g) - OnStack(stack)|, 0, 0
  {
    if tid !in stack {
      Pushed(g, tid, stack);
      GatheredViaFollowsRoutes(g, tid, stack, path, |g[tid]|);
      assert g[tid][..|g[tid]|] == g[tid];
      assert path + Names(g, tid, []) == path;
      assert Recorded(g, tid, path, [(tid, Render(path))], [[]]);
      RecordedTogether(g, tid, path, [(tid, Render(path))], [[]], GatheredVia(g, tid, stack, path, g[tid]),
                       RoutesVia(g, tid, stack, |g[tid]|));
    }
  }

  lemma RecordedTogether(g: Graph, tid: TypeId, path: seq<string>, records: seq<Record>, routes: seq<Route>,
                         records': seq<Record>, routes': seq<Route>)
    requires Closed(g) && tid < |g|
    requires Recorded(g, tid, path, records, routes) && Recorded(g, tid, path, records', routes')
    ensures Recorded(g, tid, path, records + records', routes + routes')
  {
    hide RecordOf, IsRoute, Closed;
    var all, allRoutes := records + records', routes + routes';
    forall i | 0 <= i < |allRoutes|
      ensures IsRoute(g, tid, allRoutes[i]) && all[i] == RecordOf(g, tid, path, allRoutes[i])
    {
      if i >= |routes| {
        assert allRoutes[i] == routes'[i - |routes|] && all[i] == records'[i - |routes|];
      }
    }
  }

  lemma EdgesInside(g: Graph, tid: TypeId, n: nat)
    requires Closed(g) && tid < |g| && n <= |g[tid]|
    ensures Inside(g[tid][..n], |g|) && forall i :: 0 <= i < n ==> g[tid][i].target < |g|
    ensures n > 0 ==> g[tid][..n] == g[tid][..n - 1] + [g[tid][n - 1]]
  {
  }

  lemma {:induction false} GatheredViaFollowsRoutes(g: Graph, tid: TypeId, stack: seq<TypeId>, path: seq<string>,
                                                    n: nat)
    requires Closed(g) && tid < |g| && tid !in stack && n <= |g[tid]|
    ensures Inside(g[tid][..n], |g|)
    ensures Recorded(g, tid, path, GatheredVia(g, tid, stack, path, g[tid][..n]), RoutesVia(g, tid, stack, n))
    decreases |Nodes(g) - OnStack(stack + [tid])|, 1, n
  {
    EdgesInside(g, tid, n);
    if n > 0 {
      hide GatheredVia, Gathered, Routes, Recorded, RecordOf, Prefixed, Inside, Closed, Nodes, OnStack;
      var e := g[tid][n - 1];
      GatheredViaFollowsRoutes(g, tid, stack, path, n - 1);
      GatheredFollowsRoutes(g, e.target, stack + [tid], path + [e.name]);
      var behind := Routes(g, e.target, stack + [tid]);
      var records := Gathered(g, e.target, stack + [tid], path + [e.name]);
      RecordedBehind(g, tid, path, n - 1, records, behind);
      RecordedTogether(g, tid, path, GatheredVia(g, tid, stack, path, g[tid][..n - 1]),
                       RoutesVia(g, tid, stack, n - 1), records, Prefixed(n - 1, behind));
      GatheredStep(g, tid, stack, path, g[tid][..n - 1], e);
    }
  }

  lemma RecordedBehind(g: Graph, tid: TypeId, path: seq<string>, n: nat, records: seq<Record>, routes: seq<Route>)
    requires Closed(g) && tid < |g| && n < |g[tid]|
    requires Recorded(g, g[tid][n].target, path + [g[tid][n].name], records, routes)
    ensures Recorded(g, tid, path, records, Prefixed(n, routes))
  {
    var e := g[tid][n];
    forall i | 0 <= i < |routes|
      ensures IsRoute(g, tid, Prefixed(n, routes)[i])
      ensures records[i] == RecordOf(g, tid, path, Prefixed(n, routes)[i])
    {
      var r := routes[i];
      assert ([n] + r)[1..] == r;
      assert path + [e.name] + Names(g, e.target, r) == path + Names(g, tid, [n] + r);
    }
  }

  /**
   * A search from tid records exactly one entry per free route, in preorder: the entries correspond one
   * to one to a list of routes that is strictly ordered and holds all free routes and no others.
   */
  lemma GatherRecordsFreeRoutes(g: Graph, tid: TypeId, stack: seq<TypeId>, path: seq<string>)
    returns (routes: seq<Route>)
    requires Closed(g) && tid < |g|
    ensures Recorded(g, tid, path, Gathered(g, tid, stack, path), routes)
    ensures forall r :: r in routes <==> IsFreeRoute(g, tid, stack, r)
    ensures InPreorder(routes)
    ensures forall i, j :: 0 <= i < j < |routes| ==> routes[i] != routes[j]
  {
    routes := Routes(g, tid, stack);
    GatheredFollowsRoutes(g, tid, stack, path);
    RoutesInPreorder(g, tid, stack);
    forall r ensures r in routes <==> IsFreeRoute(g, tid, stack, r) {
      RoutesAreFreeRoutes(g, tid, stack, r);
    }
    forall i, j | 0 <= i < j < |routes| ensures routes[i] != routes[j] {
      BeforeIsStrict(routes[i], routes[j]);
    }
  }

  /** What Get finds after a search from an idle state: the paths of the free routes that end in that type. */
  lemma GetFindsFreeRoutes(g: Graph, root: TypeId, tid: TypeId, p: string)
    requires Closed(g) && root < |g|
    ensures p in PathsOf(Gathered(g, root, [], []), tid) <==>
            exists r :: IsFreeRoute(g, root, [], r) && RecordOf(g, root, [], r) == (tid, p)
  {
    var output := Gathered(g, root, [], []);
    var routes := GatherRecordsFreeRoutes(g, root, [], []);
    PathsOfMembers(output, tid, p);
    if p in PathsOf(output, tid) {
      var i :| 0 <= i < |output| && output[i] == (tid, p);
      assert routes[i] in routes;
    }
    if r :| IsFreeRoute(g, root, [], r) && RecordOf(g, root, [], r) == (tid, p) {
      assert r in routes;
      var i :| 0 <= i < |routes| && routes[i] == r;
      assert output[i] == (tid, p);
    }
  }

  lemma {:induction false} PathsOfMembers(output: seq<Record>, tid: TypeId, p: string)
    ensures p in PathsOf(output, tid) <==> (tid, p) in output
  {
    if output != [] {
      var n := |output| - 1;
      PathsOfMembers(output[..n], tid, p);
      assert output == output[..n] + [output[n]];
    }
  }

  /** The paths are those of the type's records, at rising positions, and none is left out. */
  ghost predicate StandAt(output: seq<Record>, tid: TypeId, paths: seq<string>, at: seq<nat>) {
    && |at| == |paths|
    && (forall k :: 0 <= k < |at| ==> at[k] < |output| && output[at[k]] == (tid, paths[k]))
    && (forall k, m :: 0 <= k < m < |at| ==> at[k] < at[m])
    && (forall i :: 0 <= i < |output| && output[i].0 == tid ==> i in at)
  }

  lemma OneMoreStands(output: seq<Record>, r: Record, tid: TypeId, paths: seq<string>, at: seq<nat>)
    requires StandAt(output, tid, paths, at)
    ensures r.0 == tid ==> StandAt(output + [r], tid, paths + [r.1], at + [|output|])
    ensures r.0 != tid ==> StandAt(output + [r], tid, paths, at)
  {
  }

  /** What Get returns is in the order of the records. */
  lemma {:induction false} PathsInOrder(output: seq<Record>, tid: TypeId) returns (at: seq<nat>)
    ensures StandAt(output, tid, PathsOf(output, tid), at)
  {
    hide StandAt;
    at := [];
    if output == [] {
      NothingStands(tid);
    } else {
      var n := |output| - 1;
      at := PathsInOrder(output[..n], tid);
      OneMoreStands(output[..n], output[n], tid, PathsOf(output[..n], tid), at);
      assert output == output[..n] + [output[n]];
      if output[n].0 == tid {
        at := at + [n];
      } else {
        assert PathsOf(output, tid) == PathsOf(output[..n], tid);
      }
    }
  }

  lemma NothingStands(tid: TypeId)
    ensures StandAt([], tid, [], [])
  {
  }

  /** A path is printed label by label, each behind a slash. */
  lemma {:induction false} RenderJoins(a: seq<string>, b: seq<string>)
    ensures Render(a + b) == Render(a) + Render(b)
    ensures Render([]) == "" && forall name :: Render([name]) == "/" + name
  {
    forall name
      ensures Render([name]) == "/" + name
    {
      assert [name][..0] == [];
    }
    if b == [] {
      assert a + b == a;
    } else {
      var n := |b| - 1;
      RenderJoins(a, b[..n]);
      assert (a + b)[..|a| + n] == a + b[..n];
    }
  }
}
