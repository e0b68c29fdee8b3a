/** bindings/python/topsort.py, find_cycles: every cycle of a graph, found by a search with a stack of paths. */
module FindCycles {
  import opened Items
  import opened Digraph
  import opened Rotation

  /** A path of the search: a duplicate-free walk from its root. */
  ghost predicate IsPath(g: Graph, p: seq<Item>) {
    p != [] && IsWalk(g, p) && NoDup(p)
  }

  function Children(g: Graph, x: Item): seq<Item> {
    if x in g then g[x] else []
  }

  // ----- The measure: how many paths are still to be popped

  /** The paths that will be popped because of p: p itself and all its duplicate-free extensions. */
  ghost function Extensions(g: Graph, p: seq<Item>): nat
    requires IsPath(g, p)
    decreases |Vertices(g) - Elements(p)|, 1, 0
  {
    1 + ExtensionsVia(g, p, Children(g, Last(p)))
  }

  /** Those of them that go on to one of the listed children. */
  ghost function ExtensionsVia(g: Graph, p: seq<Item>, children: seq<Item>): nat
    requires IsPath(g, p)
    requires forall c :: c in children ==> Edge(g, Last(p), c)
    decreases |Vertices(g) - Elements(p)|, 0, |children|
  {
    if children == [] then 0
    else
      var n := |children| - 1;
      ExtensionsVia(g, p, children[..n]) +
      if children[n] in p then 0 else ExtendedPath(g, p, children[n]); Extensions(g, p + [children[n]])
  }

  lemma ExtendedPath(g: Graph, p: seq<Item>, c: Item)
    requires IsPath(g, p) && Edge(g, Last(p), c) && c !in p
    ensures IsPath(g, p + [c])
    ensures |Vertices(g) - Elements(p + [c])| < |Vertices(g) - Elements(p)|
  {
    assert Vertices(g) - Elements(p + [c]) == (Vertices(g) - Elements(p)) - {c};
  }

  /** The stack holds paths only, and this many pops are left in the search. */
  ghost function PopsLeft(g: Graph, paths: seq<seq<Item>>): nat
    requires forall p :: p in paths ==> IsPath(g, p)
  {
    if paths == [] then 0
    else PopsLeft(g, paths[..|paths| - 1]) + Extensions(g, paths[|paths| - 1])
  }

  // ----- What the search has found and what is still pending

  function IndexOf(p: seq<Item>, x: Item): (i: nat)
    requires x in p
    ensures i < |p| && p[i] == x && x !in p[..i]
  {
    if p[0] == x then 0 else 1 + IndexOf(p[1..], x)
  }

  /** The cycle that the edge from the end of p back to x closes. */
  function ClosedBy(p: seq<Item>, x: Item): seq<Item>
    requires x in p
  {
    p[IndexOf(p, x)..]
  }

  ghost predicate Found(cycles: seq<seq<Item>>, c: seq<Item>) {
    exists i :: 0 <= i < |cycles| && IsRotation(cycles[i], c)
  }

  /** Every cycle that closes at the end of p has been yielded, up to rotation. */
  ghost predicate Searched(g: Graph, cycles: seq<seq<Item>>, p: seq<Item>)
    requires p != []
  {
    forall x :: x in Children(g, Last(p)) && x in p ==> Found(cycles, ClosedBy(p, x))
  }

  ghost predicate Pending(paths: seq<seq<Item>>, p: seq<Item>) {
    exists s :: s in paths && s <= p
  }

  /** Only cycles are yielded, and none twice, not even rotated. */
  ghost predicate OnlyCycles(g: Graph, cycles: seq<seq<Item>>) {
    && (forall i :: 0 <= i < |cycles| ==> IsSimpleCycle(g, cycles[i]))
    && forall i, j :: 0 <= i < j < |cycles| ==> !IsRotation(cycles[i], cycles[j])
  }

  ghost predicate PathsFrom(g: Graph, root: Item, paths: seq<seq<Item>>) {
    forall p :: p in paths ==> IsPath(g, p) && p[0] == root
  }

  /** Every path from the root is searched, or a stacked path will lead to it. */
  ghost predicate CoversRoot(g: Graph, root: Item, cycles: seq<seq<Item>>, paths: seq<seq<Item>>) {
    forall p :: IsPath(g, p) && p[0] == root ==> Searched(g, cycles, p) || Pending(paths, p)
  }

  ghost predicate RootsDone(g: Graph, roots: set<Item>, cycles: seq<seq<Item>>) {
    forall r :: r in roots ==> CoversRoot(g, r, cycles, [])
  }

  /** x is the end of a path from one of the roots. */
  ghost predicate ReachedFrom(g: Graph, roots: set<Item>, x: Item) {
    exists p :: IsPath(g, p) && p[0] in roots && Last(p) == x
  }

  // ----- Completeness

  lemma RotatedCycle(g: Graph, c: seq<Item>, k: nat)
    requires IsSimpleCycle(g, c) && k < |c|
    ensures IsSimpleCycle(g, Rotate(c, k)) && Elements(Rotate(c, k)) == Elements(c)
  {
    var d := Rotate(c, k);
    forall i | 0 <= i < |d| - 1
      ensures Edge(g, d[i], d[i + 1])
    {
      if i < |c| - k - 1 {
        assert Edge(g, c[k + i], c[k + i + 1]);
      } else if i > |c| - k - 1 {
        assert Edge(g, c[i - (|c| - k)], c[i - (|c| - k) + 1]);
      }
    }
    if k > 0 { assert Edge(g, c[k - 1], c[k]); }
    assert c == c[..k] + c[k..];
  }

  /** The first item of p on the cycle is where the search will close it. */
  lemma {:induction false} PathMeetsCycle(g: Graph, p: seq<Item>, c: seq<Item>) returns (q: seq<Item>, x: Item)
    requires IsPath(g, p) && IsSimpleCycle(g, c) && Last(p) in c
    ensures IsPath(g, q) && q[0] == p[0] && x in q && x in Children(g, Last(q))
    ensures IsRotation(ClosedBy(q, x), c)
    decreases |p|
  {
    if y :| y in p[..|p| - 1] && y in c {
      var j := IndexOf(p, y);
      assert IsPath(g, p[..j + 1]);
      q, x := PathMeetsCycle(g, p[..j + 1], c);
    } else {
      x := Last(p);
      var k := IndexOf(c, x);
      var d := Rotate(c, k);
      RotatedCycle(g, c, k);
      assert d[0] == x;
      q := p + d[1..];
      JoinWalks(g, p, d);
      assert q == p[..|p| - 1] + d;
      assert forall z :: z in d ==> z in Elements(c);
      forall i, j | 0 <= i < j < |q|
        ensures q[i] != q[j]
      {
        if i < |p| - 1 <= j {
          assert p[i] in p[..|p| - 1] && q[j] in d;
        }
      }
      assert q[|p| - 1] == x;
      assert ClosedBy(q, x) == d;
      RotationSymmetric(c, d);
    }
  }

  lemma EveryCycleFound(g: Graph, roots: set<Item>, cycles: seq<seq<Item>>, c: seq<Item>)
    requires RootsDone(g, roots, cycles)
    requires forall x :: x in g ==> ReachedFrom(g, roots, x)
    requires IsSimpleCycle(g, c)
    ensures Found(cycles, c)
  {
    assert c[0] in g by {
      if |c| > 1 { assert Edge(g, c[0], c[1]); }
    }
    var p :| IsPath(g, p) && p[0] in roots && Last(p) == c[0];
    var q, x := PathMeetsCycle(g, p, c);
    assert CoversRoot(g, q[0], cycles, []);
    assert Searched(g, cycles, q);
    var i :| 0 <= i < |cycles| && IsRotation(cycles[i], ClosedBy(q, x));
    RotationTransitive(cycles[i], ClosedBy(q, x), c);
  }

  // ----- The search

  lemma FoundStays(before: seq<seq<Item>>, after: seq<seq<Item>>, c: seq<Item>)
    requires before <= after && Found(before, c)
    ensures Found(after, c)
  {
    var i :| 0 <= i < |before| && IsRotation(before[i], c);
    assert after[i] == before[i];
  }

  /** Yields the cycle unless a rotation of it has been yielded before. */
  method YieldIfNew(cycles0: seq<seq<Item>>, cycle: seq<Item>, ghost g: Graph) returns (cycles: seq<seq<Item>>)
    requires OnlyCycles(g, cycles0) && IsSimpleCycle(g, cycle)
    ensures OnlyCycles(g, cycles) && cycles0 <= cycles && Found(cycles, cycle)
  {
    hide IsSimpleCycle, IsRotation;
    cycles := cycles0;
    var isDup := false;
    for i := 0 to |cycles|
      invariant !isDup && forall j :: 0 <= j < i ==> !IsRotation(cycles[j], cycle)
    {
      assert cycles[i] != [] by { NotEmpty(g, cycles[i]); }
      var rotated := IsRotated(cycles[i], cycle);
      if rotated.value {
        isDup := true;
        break;
      }
    }
    if !isDup {
      cycles := cycles + [cycle];
      SameRotation(cycle);
      assert IsRotation(cycles[|cycles| - 1], cycle);
    }
  }

  lemma NotEmpty(g: Graph, c: seq<Item>)
    requires IsSimpleCycle(g, c)
    ensures c != []
  {
  }

  lemma SameRotation(c: seq<Item>)
    ensures IsRotation(c, c)
  {
    assert Rotate(c, 0) == c;
  }

  lemma ClosedIsCycle(g: Graph, p: seq<Item>, x: Item)
    requires IsPath(g, p) && x in p && Edge(g, Last(p), x)
    ensures IsSimpleCycle(g, ClosedBy(p, x))
  {
    var k := IndexOf(p, x);
    forall i | 0 <= i < |p| - k - 1
      ensures Edge(g, p[k..][i], p[k..][i + 1])
    {
      assert Edge(g, p[k + i], p[k + i + 1]);
    }
  }

  /** Each child closed a cycle that has been found, or extends the path to one that is waiting. */
  ghost predicate Handled(cycles: seq<seq<Item>>, path: seq<Item>, children: seq<Item>, paths: seq<seq<Item>>) {
    forall x :: x in children ==> if x in path then Found(cycles, ClosedBy(path, x)) else path + [x] in paths
  }

  lemma HandledOneMore(cycles: seq<seq<Item>>, path: seq<Item>, children: seq<Item>, paths: seq<seq<Item>>, x: Item)
    requires Handled(cycles, path, children, paths) && x !in path
    ensures Handled(cycles, path, children + [x], paths + [path + [x]])
  {
    hide Found;
    assert forall p :: p in paths ==> p in paths + [path + [x]];
    assert path + [x] in paths + [path + [x]];
  }

  lemma PathsGrow(g: Graph, root: Item, paths: seq<seq<Item>>, pushed: seq<Item>)
    requires PathsFrom(g, root, paths) && IsPath(g, pushed) && pushed[0] == root
    ensures PathsFrom(g, root, paths + [pushed])
  {
    hide IsWalk, NoDup;
  }

  /** While a popped path's children are looked at: the first ones are dealt with. */
  ghost predicate Expanding(g: Graph, root: Item, cycles: seq<seq<Item>>, rest: seq<seq<Item>>,
                            path: seq<Item>, children: seq<Item>, j: nat, paths: seq<seq<Item>>)
    requires j <= |children|
  {
    && IsPath(g, path) && path[0] == root && children == Children(g, Last(path))
    && PathsFrom(g, root, paths) && rest <= paths
    && Handled(cycles, path, children[..j], paths)
    && (forall x :: x in children ==> Edge(g, Last(path), x))
    && PopsLeft(g, rest) + ExtensionsVia(g, path, children[..j]) == PopsLeft(g, paths)
  }

  lemma StartExpanding(g: Graph, root: Item, cycles: seq<seq<Item>>, rest: seq<seq<Item>>, path: seq<Item>)
    requires path != [] && PathsFrom(g, root, rest + [path])
    ensures PathsFrom(g, root, rest)
    ensures Expanding(g, root, cycles, rest, path, Children(g, Last(path)), 0, rest)
    ensures PopsLeft(g, rest + [path]) == PopsLeft(g, rest) + 1 + ExtensionsVia(g, path, Children(g, Last(path)))
  {
    assert path in rest + [path];
    assert forall p :: p in rest ==> p in rest + [path];
    assert (rest + [path])[..|rest|] == rest;
  }

  lemma ViaNext(g: Graph, p: seq<Item>, children: seq<Item>, j: nat)
    requires IsPath(g, p) && j < |children| && forall c :: c in children ==> Edge(g, Last(p), c)
    ensures children[j] in p ==> ExtensionsVia(g, p, children[..j + 1]) == ExtensionsVia(g, p, children[..j])
    ensures children[j] !in p ==>
              && IsPath(g, p + [children[j]])
              && ExtensionsVia(g, p, children[..j + 1])
                 == ExtensionsVia(g, p, children[..j]) + Extensions(g, p + [children[j]])
  {
    assert children[..j + 1][..j] == children[..j];
    if children[j] !in p {
      ExtendedPath(g, p, children[j]);
    }
  }

  lemma CloseOne(g: Graph, root: Item, cycles: seq<seq<Item>>, rest: seq<seq<Item>>, path: seq<Item>,
                 children: seq<Item>, j: nat, paths: seq<seq<Item>>, cycles': seq<seq<Item>>)
    requires j < |children| && Expanding(g, root, cycles, rest, path, children, j, paths)
    requires children[j] in path && cycles <= cycles' && Found(cycles', ClosedBy(path, children[j]))
    ensures Expanding(g, root, cycles', rest, path, children, j + 1, paths)
  {
    hide IsWalk, NoDup, Found, PopsLeft, Extensions, ExtensionsVia;
    ViaNext(g, path, children, j);
    assert children[..j + 1] == children[..j] + [children[j]];
    forall x | x in children[..j] && x in path
      ensures Found(cycles', ClosedBy(path, x))
    {
      FoundStays(cycles, cycles', ClosedBy(path, x));
    }
  }

  lemma PushedPops(g: Graph, paths: seq<seq<Item>>, pushed: seq<Item>)
    requires IsPath(g, pushed) && forall p :: p in paths ==> IsPath(g, p)
    ensures forall p :: p in paths + [pushed] ==> IsPath(g, p)
    ensures PopsLeft(g, paths + [pushed]) == PopsLeft(g, paths) + Extensions(g, pushed)
  {
    assert (paths + [pushed])[..|paths|] == paths;
  }

  lemma PushOne(g: Graph, root: Item, cycles: seq<seq<Item>>, rest: seq<seq<Item>>, path: seq<Item>,
                children: seq<Item>, j: nat, paths: seq<seq<Item>>)
    requires j < |children| && Expanding(g, root, cycles, rest, path, children, j, paths)
    requires children[j] !in path
    ensures Expanding(g, root, cycles, rest, path, children, j + 1, paths + [path + [children[j]]])
    ensures ReachedFrom(g, {root}, children[j])
  {
    hide Found, IsPath, IsWalk, NoDup, Handled, PathsFrom, Vertices, PopsLeft, Extensions, ExtensionsVia, ReachedFrom;
    hide Edge, Children;
    var pushed := path + [children[j]];
    assert children[j] in children;
    PushedIsPath(g, root, path, children[j]);
    InPaths(g, root, paths);
    PushedPops(g, paths, pushed);
    ViaNext(g, path, children, j);
    assert children[..j + 1] == children[..j] + [children[j]];
    HandledOneMore(cycles, path, children[..j], paths, children[j]);
    PathsGrow(g, root, paths, pushed);
  }

  lemma PushedIsPath(g: Graph, root: Item, path: seq<Item>, x: Item)
    requires IsPath(g, path) && path[0] == root && Edge(g, Last(path), x) && x !in path
    ensures IsPath(g, path + [x]) && (path + [x])[0] == root && ReachedFrom(g, {root}, x)
  {
    hide IsWalk, NoDup;
    ExtendedPath(g, path, x);
    assert Last(path + [x]) == x && (path + [x])[0] == root;
  }

  lemma InPaths(g: Graph, root: Item, paths: seq<seq<Item>>)
    requires PathsFrom(g, root, paths)
    ensures forall p :: p in paths ==> IsPath(g, p)
  {
  }

  /** Replacing a path by its one-step extensions loses no path from the root. */
  lemma DoneExpanding(g: Graph, root: Item, before: seq<seq<Item>>, cycles: seq<seq<Item>>, rest: seq<seq<Item>>,
                      path: seq<Item>, children: seq<Item>, paths: seq<seq<Item>>)
    requires CoversRoot(g, root, before, rest + [path]) && before <= cycles
    requires Expanding(g, root, cycles, rest, path, children, |children|, paths)
    ensures CoversRoot(g, root, cycles, paths)
  {
    hide Found, IsWalk, NoDup;
    assert children[..|children|] == children;
    forall p | IsPath(g, p) && p[0] == root
      ensures Searched(g, cycles, p) || Pending(paths, p)
    {
      if Searched(g, before, p) {
        forall x | x in Children(g, Last(p)) && x in p
          ensures Found(cycles, ClosedBy(p, x))
        {
          FoundStays(before, cycles, ClosedBy(p, x));
        }
      } else if s :| s in rest && s <= p {
        assert s in paths;
      } else {
        assert path <= p;
        if p != path {
          NextStep(g, path, p);
          assert p[|path|] in children;
          assert path + [p[|path|]] <= p;
        }
      }
    }
  }

  lemma NextStep(g: Graph, path: seq<Item>, p: seq<Item>)
    requires IsPath(g, p) && path < p && path != []
    ensures p[|path|] !in path && p[|path|] in Children(g, Last(path))
  {
    assert Edge(g, p[|path| - 1], p[|path|]);
  }

  lemma FirstPath(g: Graph, root: Item, cycles: seq<seq<Item>>)
    ensures PathsFrom(g, root, [[root]]) && CoversRoot(g, root, cycles, [[root]])
  {
    forall p | IsPath(g, p) && p[0] == root
      ensures Pending([[root]], p)
    {
      assert [root] <= p && [root] in [[root]];
    }
  }

  method SearchFrom(g: Graph, root: Item, cycles0: seq<seq<Item>>, visited0: set<Item>)
    returns (cycles: seq<seq<Item>>, visited: set<Item>)
    requires OnlyCycles(g, cycles0)
    ensures OnlyCycles(g, cycles) && cycles0 <= cycles && CoversRoot(g, root, cycles, [])
    ensures visited0 <= visited && forall x :: x in visited - visited0 ==> ReachedFrom(g, {root}, x)
  {
    hide Found, IsWalk, NoDup, OnlyCycles, CoversRoot, ReachedFrom, ExtensionsVia, PopsLeft;
    cycles, visited := cycles0, visited0;
    var paths := [[root]];
    FirstPath(g, root, cycles);
    while paths != []
      invariant OnlyCycles(g, cycles) && cycles0 <= cycles
      invariant PathsFrom(g, root, paths) && CoversRoot(g, root, cycles, paths)
      invariant visited0 <= visited && forall x :: x in visited - visited0 ==> ReachedFrom(g, {root}, x)
      decreases PopsLeft(g, paths)
    {
      var path := paths[|paths| - 1];
      assert path in paths && paths == paths[..|paths| - 1] + [path];
      paths := paths[..|paths| - 1];
      ghost var rest, before := paths, cycles;
      StartExpanding(g, root, cycles, rest, path);
      var parent := Last(path);
      var children := Children(g, parent);
      for j := 0 to |children|
        invariant OnlyCycles(g, cycles) && before <= cycles
        invariant Expanding(g, root, cycles, rest, path, children, j, paths)
        invariant visited0 <= visited && forall x :: x in visited - visited0 ==> ReachedFrom(g, {root}, x)
      {
        var child := children[j];
        if child in path {
          assert child in children;
          ClosedIsCycle(g, path, child);
          ghost var known := cycles;
          cycles := YieldIfNew(cycles, path[IndexOf(path, child)..], g);
          CloseOne(g, root, known, rest, path, children, j, paths, cycles);
        } else {
          PushOne(g, root, cycles, rest, path, children, j, paths);
          paths := paths + [path + [child]];
          visited := visited + {child};
        }
      }
      DoneExpanding(g, root, before, cycles, rest, path, children, paths);
      assert children[..|children|] == children;
    }
  }

  /** Yields every simple cycle of the graph exactly once up to rotation, and nothing else. */
  method FindCycles(parentChildren: Graph) returns (cycles: seq<seq<Item>>)
    ensures OnlyCycles(parentChildren, cycles)
    ensures forall c :: IsSimpleCycle(parentChildren, c) ==> Found(cycles, c)
  {
    hide IsWalk, NoDup, OnlyCycles, Found, IsSimpleCycle, CoversRoot, ReachedFrom;
    ghost var g, roots := parentChildren, {};
    cycles := [];
    var visited := {};
    assert OnlyCycles(g, cycles) by { NoCyclesYet(g); }
    var order := InSomeOrder(parentChildren.Keys);
    for i := 0 to |order|
      invariant OnlyCycles(g, cycles) && RootsDone(g, roots, cycles)
      invariant forall x :: x in visited || x in order[..i] ==> ReachedFrom(g, roots, x)
    {
      var root := order[i];
      assert order[..i + 1] == order[..i] + [root];
      if root !in visited {
        ghost var known, seen := cycles, visited;
        cycles, visited := SearchFrom(parentChildren, root, cycles, visited);
        RootsStayDone(g, roots, known, cycles);
        ReachedFromMore(g, roots, root);
        roots := roots + {root};
      }
    }
    assert order[..|order|] == order;
    forall x | x in g
      ensures ReachedFrom(g, roots, x)
    {
      assert x in Elements(order);
    }
    forall c | IsSimpleCycle(g, c)
      ensures Found(cycles, c)
    {
      EveryCycleFound(g, roots, cycles, c);
    }
  }

  lemma NoCyclesYet(g: Graph)
    ensures OnlyCycles(g, [])
  {
  }

  lemma RootsStayDone(g: Graph, roots: set<Item>, before: seq<seq<Item>>, after: seq<seq<Item>>)
    requires RootsDone(g, roots, before) && before <= after
    ensures RootsDone(g, roots, after)
  {
    hide IsWalk, NoDup, Found;
    forall r, p | r in roots && IsPath(g, p) && p[0] == r
      ensures Searched(g, after, p)
    {
      assert CoversRoot(g, r, before, []);
      assert Searched(g, before, p);
      forall x | x in Children(g, Last(p)) && x in p
        ensures Found(after, ClosedBy(p, x))
      {
        FoundStays(before, after, ClosedBy(p, x));
      }
    }
  }

  lemma ReachedFromMore(g: Graph, roots: set<Item>, root: Item)
    ensures ReachedFrom(g, roots + {root}, root)
    ensures forall x :: ReachedFrom(g, roots, x) || ReachedFrom(g, {root}, x) ==> ReachedFrom(g, roots + {root}, x)
  {
    assert IsPath(g, [root]) && Last([root]) == root;
  }

  /** The cycle search comes up empty exactly when topsort succeeds on the same graph. */
  lemma NothingFoundIffAcyclic(g: Graph, cycles: seq<seq<Item>>)
    requires OnlyCycles(g, cycles) && forall c :: IsSimpleCycle(g, c) ==> Found(cycles, c)
    ensures cycles == [] <==> !HasCycle(g)
  {
    CyclicIffSimpleCycle(g);
    if cycles != [] {
      assert IsSimpleCycle(g, cycles[0]);
    }
  }
}
