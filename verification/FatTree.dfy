/**
 * examples/dstcp/fat-tree.cc: the wiring of a three-layer fat tree by index arithmetic, and the pod
 * arithmetic by which traffic is kept between pods.
 */
module FatTree {
  import opened Wrappers

  datatype Node = Server(i: nat) | EdgeSwitch(i: nat) | Aggregation(i: nat) | Core(i: nat)

  /** The size of a tree: k pods of k / 2 edge and k / 2 aggregation switches, and the servers of each edge switch. */
  datatype Size = Size(half: nat, serverCount: nat) {
    function K(): nat { 2 * half }
    function Edges(): nat { K() * half }
    function Cores(): nat { half * half }
    function Servers(): nat { serverCount * Edges() }
  }

  /** An odd k is taken down by one. */
  function SizeFor(k: nat, serverCount: nat): Size {
    Size((k - k % 2) / 2, serverCount)
  }

  /**
   * The tree that is built for k: the largest even number of pods up to k, half as many switches of either layer in
   * each, a quarter of its square in cores, and serverCount servers to an edge switch.
   */
  lemma SizeOf(k: nat, serverCount: nat)
    ensures var z := SizeFor(k, serverCount);
            && z.K() % 2 == 0 && z.K() <= k < z.K() + 2 && 2 * z.half == z.K()
            && 2 * z.Edges() == z.K() * z.K() && 4 * z.Cores() == z.K() * z.K()
            && 2 * z.Servers() == serverCount * (z.K() * z.K())
  {
    var z := SizeFor(k, serverCount);
    assert z.K() == k - k % 2;
    Half(z.half, serverCount);
  }

  lemma Half(h: nat, n: nat)
    ensures 2 * ((2 * h) * h) == (2 * h) * (2 * h) == 4 * (h * h)
    ensures 2 * (n * ((2 * h) * h)) == n * ((2 * h) * (2 * h))
  {
  }

  type Link = (Node, Node)

  /** Which nodes a fat tree joins, upper layer second except for servers, by pods and positions. */
  predicate IsLink(z: Size, l: Link) {
    match l
    case (EdgeSwitch(e), Server(s)) => e < z.Edges() && s < z.Servers() && z.serverCount > 0 && s / z.serverCount == e
    case (EdgeSwitch(e), Aggregation(a)) => e < z.Edges() && a < z.Edges() && z.half > 0 && e / z.half == a / z.half
    case (Aggregation(a), Core(c)) => a < z.Edges() && c < z.Cores() && z.half > 0 && c / z.half == a % z.half
    case _ => false
  }

  // ----- Index arithmetic

  /** Position j of row i of a table with rows of n, and back. */
  lemma RowAndColumn(i: nat, j: nat, n: nat)
    requires j < n
    ensures (i * n + j) / n == i && (i * n + j) % n == j
  {
    Unique(i * n + j, n, i, j);
  }

  lemma Unique(x: nat, n: nat, q: nat, r: nat)
    requires n > 0 && x == q * n + r && r < n
    ensures x / n == q && x % n == r
  {
    var d: int := x / n - q;
    assert x == n * (x / n) + x % n;
    assert n * (x / n) == n * q + n * d;
    assert n * d + x % n == r;
    assert d > 0 ==> n * d >= n;
    assert d < 0 ==> n * d + n <= 0;
  }

  lemma RowInTable(i: nat, j: nat, n: nat, m: nat)
    requires j < n && i < m
    ensures i * n + j < m * n
  {
    assert (i + 1) * n <= m * n;
  }

  lemma RowOf(x: nat, n: nat, m: nat)
    requires x < m * n
    ensures n > 0 && x / n < m && x == (x / n) * n + x % n
  {
    assert n > 0;
    var q := x / n;
    assert x == n * q + x % n;
    assert q >= m ==> n * q >= n * m;
  }

  // ----- The three wiring loops

  /** The aggregation switch at position j of edge switch i's pod. */
  function AggregationIndex(half: nat, i: nat, j: nat): nat
    requires half > 0
  {
    var pod: nat := i / half;
    pod * half + j
  }

  /** The core switch at position j of the row for aggregation switch i's position in its pod. */
  function CoreIndex(half: nat, i: nat, j: nat): nat
    requires half > 0
  {
    var position: nat := i % half;
    position * half + j
  }

  /** The t-th link of each loop. */
  function ServerLink(z: Size, t: nat): Link
    requires z.serverCount > 0
  {
    (EdgeSwitch(t / z.serverCount), Server(t))
  }

  function EdgeLink(z: Size, t: nat): Link
    requires z.half > 0
  {
    (EdgeSwitch(t / z.half), Aggregation(AggregationIndex(z.half, t / z.half, t % z.half)))
  }

  function CoreLink(z: Size, t: nat): Link
    requires z.half > 0
  {
    (Aggregation(t / z.half), Core(CoreIndex(z.half, t / z.half, t % z.half)))
  }

  /** The link made in round (i, j) of the second and of the third loop. */
  lemma LinkAt(z: Size, i: nat, j: nat)
    requires j < z.half
    ensures EdgeLink(z, i * z.half + j) == (EdgeSwitch(i), Aggregation(AggregationIndex(z.half, i, j)))
    ensures CoreLink(z, i * z.half + j) == (Aggregation(i), Core(CoreIndex(z.half, i, j)))
  {
    hide AggregationIndex, CoreIndex;
    RowAndColumn(i, j, z.half);
  }

  method ConnectServers(z: Size) returns (links: seq<Link>)
    ensures |links| == z.Edges() * z.serverCount
    ensures forall t :: 0 <= t < |links| ==> z.serverCount > 0 && links[t] == ServerLink(z, t)
  {
    links := [];
    for i := 0 to z.Edges()
      invariant |links| == i * z.serverCount
      invariant forall t :: 0 <= t < |links| ==> z.serverCount > 0 && links[t] == ServerLink(z, t)
    {
      for j := 0 to z.serverCount
        invariant |links| == i * z.serverCount + j
        invariant forall t :: 0 <= t < |links| ==> z.serverCount > 0 && links[t] == ServerLink(z, t)
      {
        var serverIndex := i * z.serverCount + j;
        RowAndColumn(i, j, z.serverCount);
        links := links + [(EdgeSwitch(i), Server(serverIndex))];
      }
    }
  }

  method ConnectEdges(z: Size) returns (links: seq<Link>)
    ensures |links| == z.Edges() * z.half
    ensures forall t :: 0 <= t < |links| ==> z.half > 0 && links[t] == EdgeLink(z, t)
  {
    hide EdgeLink;
    links := [];
    for i := 0 to z.Edges()
      invariant |links| == i * z.half
      invariant forall t :: 0 <= t < |links| ==> z.half > 0 && links[t] == EdgeLink(z, t)
    {
      for j := 0 to z.half
        invariant |links| == i * z.half + j
        invariant forall t :: 0 <= t < |links| ==> z.half > 0 && links[t] == EdgeLink(z, t)
      {
        var aggregationIndex := AggregationIndex(z.half, i, j);
        LinkAt(z, i, j);
        links := links + [(EdgeSwitch(i), Aggregation(aggregationIndex))];
      }
    }
  }

  method ConnectAggregations(z: Size) returns (links: seq<Link>)
    ensures |links| == z.Edges() * z.half
    ensures forall t :: 0 <= t < |links| ==> z.half > 0 && links[t] == CoreLink(z, t)
  {
    hide CoreLink;
    links := [];
    for i := 0 to z.Edges()
      invariant |links| == i * z.half
      invariant forall t :: 0 <= t < |links| ==> z.half > 0 && links[t] == CoreLink(z, t)
    {
      for j := 0 to z.half
        invariant |links| == i * z.half + j
        invariant forall t :: 0 <= t < |links| ==> z.half > 0 && links[t] == CoreLink(z, t)
      {
        var coreIndex := CoreIndex(z.half, i, j);
        LinkAt(z, i, j);
        links := links + [(Aggregation(i), Core(coreIndex))];
      }
    }
  }

  // ----- The loops make exactly the links of a fat tree, each once

  lemma ServerLinks(z: Size, e: nat, s: nat)
    ensures IsLink(z, (EdgeSwitch(e), Server(s))) <==>
            s < z.Edges() * z.serverCount && z.serverCount > 0 && ServerLink(z, s) == (EdgeSwitch(e), Server(s))
  {
    if s < z.Edges() * z.serverCount {
      RowOf(s, z.serverCount, z.Edges());
    }
  }

  /** The t at which the second loop links e to a. */
  lemma EdgeLinks(z: Size, e: nat, a: nat) returns (t: nat)
    ensures IsLink(z, (EdgeSwitch(e), Aggregation(a))) ==>
              t < z.Edges() * z.half && EdgeLink(z, t) == (EdgeSwitch(e), Aggregation(a))
  {
    t := 0;
    if IsLink(z, (EdgeSwitch(e), Aggregation(a))) {
      t := e * z.half + a % z.half;
      RowAndColumn(e, a % z.half, z.half);
      RowInTable(e, a % z.half, z.half, z.Edges());
      RowOf(a, z.half, z.K());
    }
  }

  lemma EdgeLinkIsLink(z: Size, t: nat)
    requires t < z.Edges() * z.half && z.half > 0
    ensures IsLink(z, EdgeLink(z, t))
  {
    RowOf(t, z.half, z.Edges());
    var e := t / z.half;
    RowOf(e, z.half, z.K());
    RowAndColumn(e / z.half, t % z.half, z.half);
    RowInTable(e / z.half, t % z.half, z.half, z.K());
  }

  lemma CoreLinks(z: Size, a: nat, c: nat) returns (t: nat)
    ensures IsLink(z, (Aggregation(a), Core(c))) ==>
              t < z.Edges() * z.half && CoreLink(z, t) == (Aggregation(a), Core(c))
  {
    t := 0;
    if IsLink(z, (Aggregation(a), Core(c))) {
      t := a * z.half + c % z.half;
      RowAndColumn(a, c % z.half, z.half);
      RowInTable(a, c % z.half, z.half, z.Edges());
      RowOf(c, z.half, z.half);
    }
  }

  lemma CoreLinkIsLink(z: Size, t: nat)
    requires t < z.Edges() * z.half && z.half > 0
    ensures IsLink(z, CoreLink(z, t))
  {
    RowOf(t, z.half, z.Edges());
    var a := t / z.half;
    RowAndColumn(a % z.half, t % z.half, z.half);
    RowInTable(a % z.half, t % z.half, z.half, z.half);
  }

  ghost predicate Distinct(links: seq<Link>) {
    forall t, u :: 0 <= t < u < |links| ==> links[t] != links[u]
  }

  lemma LinksDiffer(z: Size, t: nat, u: nat)
    requires z.half > 0 && t != u
    ensures EdgeLink(z, t) != EdgeLink(z, u) && CoreLink(z, t) != CoreLink(z, u)
  {
    var h := z.half;
    assert t == h * (t / h) + t % h && u == h * (u / h) + u % h;
    assert t / h == u / h ==> h * (t / h) == h * (u / h);
  }

  /** Builds the whole tree: exactly its links, each once, for every k and number of servers. */
  method Wire(k: nat, serverCount: nat) returns (links: seq<Link>)
    ensures forall l :: l in links <==> IsLink(SizeFor(k, serverCount), l)
    ensures Distinct(links)
  {
    hide IsLink, ServerLink, EdgeLink, CoreLink;
    var z := SizeFor(k, serverCount);
    var toServers := ConnectServers(z);
    var toAggregations := ConnectEdges(z);
    var toCores := ConnectAggregations(z);
    links := toServers + toAggregations + toCores;
    AllLinks(z, toServers, toAggregations, toCores);
    AllDistinct(z, toServers, toAggregations, toCores);
  }

  ghost predicate MadeBy(z: Size, toServers: seq<Link>, toAggregations: seq<Link>, toCores: seq<Link>) {
    && |toServers| == z.Edges() * z.serverCount && |toAggregations| == |toCores| == z.Edges() * z.half
    && (forall t :: 0 <= t < |toServers| ==> z.serverCount > 0 && toServers[t] == ServerLink(z, t))
    && (forall t :: 0 <= t < |toAggregations| ==> z.half > 0 && toAggregations[t] == EdgeLink(z, t))
    && (forall t :: 0 <= t < |toCores| ==> z.half > 0 && toCores[t] == CoreLink(z, t))
  }

  lemma AllLinks(z: Size, toServers: seq<Link>, toAggregations: seq<Link>, toCores: seq<Link>)
    requires MadeBy(z, toServers, toAggregations, toCores)
    ensures forall l :: l in toServers + toAggregations + toCores <==> IsLink(z, l)
  {
    hide EdgeLink, CoreLink, Size.Edges;
    var links := toServers + toAggregations + toCores;
    forall l | IsLink(z, l)
      ensures l in links
    {
      match l
      case (EdgeSwitch(e), Server(s)) => ServerLinks(z, e, s); assert l == toServers[s];
      case (EdgeSwitch(e), Aggregation(a)) => var t := EdgeLinks(z, e, a); assert l == toAggregations[t];
      case (Aggregation(a), Core(c)) => var t := CoreLinks(z, a, c); assert l == toCores[t];
    }
    forall l | l in links
      ensures IsLink(z, l)
    {
      if l in toServers {
        var t :| 0 <= t < |toServers| && l == toServers[t];
        ServerLinks(z, l.0.i, t);
      } else if l in toAggregations {
        var t :| 0 <= t < |toAggregations| && l == toAggregations[t];
        EdgeLinkIsLink(z, t);
      } else {
        var t :| 0 <= t < |toCores| && l == toCores[t];
        CoreLinkIsLink(z, t);
      }
    }
  }

  lemma AllDistinct(z: Size, toServers: seq<Link>, toAggregations: seq<Link>, toCores: seq<Link>)
    requires MadeBy(z, toServers, toAggregations, toCores)
    ensures Distinct(toServers + toAggregations + toCores)
  {
    hide AggregationIndex, CoreIndex, Size.Edges;
    forall t: nat, u: nat | t < u && z.half > 0
      ensures EdgeLink(z, t) != EdgeLink(z, u) && CoreLink(z, t) != CoreLink(z, u)
    {
      LinksDiffer(z, t, u);
    }
  }

  // ----- What makes it a fat tree

  /** The pod of a node; core switches are in none. */
  function Pod(z: Size, n: Node): nat
    requires z.half > 0 && z.serverCount > 0 && !n.Core?
  {
    match n
    case Server(s) => s / z.serverCount / z.half
    case EdgeSwitch(e) => e / z.half
    case Aggregation(a) => a / z.half
  }

  /** Each core switch is linked to exactly one aggregation switch in each pod. */
  lemma OneAggregationPerPod(z: Size, c: nat, p: nat, a: nat)
    requires c < z.Cores() && p < z.K()
    ensures z.half > 0 && p * z.half + c / z.half < z.Edges()
    ensures IsLink(z, (Aggregation(a), Core(c))) && a / z.half == p <==> a == p * z.half + c / z.half
  {
    RowOf(c, z.half, z.half);
    RowAndColumn(p, c / z.half, z.half);
    RowInTable(p, c / z.half, z.half, z.K());
    assert a == z.half * (a / z.half) + a % z.half;
  }

  /** An edge-aggregation-core-aggregation-edge path, named by its three inner switches. */
  type InterPodPath = (nat, nat, nat)

  predicate IsInterPodPath(z: Size, e1: nat, e2: nat, path: InterPodPath) {
    var (a1, c, a2) := path;
    && IsLink(z, (EdgeSwitch(e1), Aggregation(a1))) && IsLink(z, (Aggregation(a1), Core(c)))
    && IsLink(z, (Aggregation(a2), Core(c))) && IsLink(z, (EdgeSwitch(e2), Aggregation(a2)))
  }

  function PathThrough(z: Size, e1: nat, e2: nat, c: nat): InterPodPath
    requires z.half > 0
  {
    (AggregationIndex(z.half, e1, c / z.half), c, AggregationIndex(z.half, e2, c / z.half))
  }

  /** From an edge switch there is exactly one way up to a core switch. */
  lemma OneWayUp(z: Size, e: nat, c: nat, a: nat)
    requires e < z.Edges() && c < z.Cores()
    ensures z.half > 0
    ensures IsLink(z, (EdgeSwitch(e), Aggregation(a))) && IsLink(z, (Aggregation(a), Core(c))) <==>
            a == e / z.half * z.half + c / z.half
  {
    RowOf(e, z.half, z.K());
    OneAggregationPerPod(z, c, e / z.half, a);
  }

  /** There is exactly one such path through each core switch. */
  lemma OnePathPerCore(z: Size, e1: nat, e2: nat, path: InterPodPath)
    requires e1 < z.Edges() && e2 < z.Edges() && path.1 < z.Cores()
    ensures z.half > 0
    ensures IsInterPodPath(z, e1, e2, path) <==> path == PathThrough(z, e1, e2, path.1)
  {
    hide IsLink;
    OneWayUp(z, e1, path.1, path.0);
    OneWayUp(z, e2, path.1, path.2);
  }

  /** The paths through the first n core switches. */
  function PathsThrough(z: Size, e1: nat, e2: nat, n: nat): set<InterPodPath>
    requires z.half > 0
  {
    set c: nat | c < n :: PathThrough(z, e1, e2, c)
  }

  lemma {:induction false} PathsThroughCount(z: Size, e1: nat, e2: nat, n: nat)
    requires z.half > 0
    ensures |PathsThrough(z, e1, e2, n)| == n
  {
    if n > 0 {
      PathsThroughCount(z, e1, e2, n - 1);
      assert PathsThrough(z, e1, e2, n) == PathsThrough(z, e1, e2, n - 1) + {PathThrough(z, e1, e2, n - 1)};
    }
  }

  /** Two edge switches have exactly (k / 2)^2 such paths; between pods they go up and down by different switches. */
  lemma InterPodPaths(z: Size, e1: nat, e2: nat)
    requires z.half > 0 && e1 < z.Edges() && e2 < z.Edges()
    ensures forall path: InterPodPath :: path in PathsThrough(z, e1, e2, z.Cores()) <==> IsInterPodPath(z, e1, e2, path)
    ensures |PathsThrough(z, e1, e2, z.Cores())| == z.half * z.half
    ensures e1 / z.half != e2 / z.half ==>
              forall path: InterPodPath :: IsInterPodPath(z, e1, e2, path) ==> path.0 != path.2
  {
    PathsThroughCount(z, e1, e2, z.Cores());
    forall path: InterPodPath
      ensures path in PathsThrough(z, e1, e2, z.Cores()) <==> IsInterPodPath(z, e1, e2, path)
    {
      if path.1 < z.Cores() { OnePathPerCore(z, e1, e2, path); }
    }
    forall path: InterPodPath | IsInterPodPath(z, e1, e2, path)
      ensures path.0 / z.half == e1 / z.half && path.2 / z.half == e2 / z.half
    {
    }
  }

  predicate Adjacent(z: Size, a: Node, b: Node) {
    IsLink(z, (a, b)) || IsLink(z, (b, a))
  }

  ghost predicate IsWalk(z: Size, w: seq<Node>) {
    w != [] && forall i :: 0 < i < |w| ==> Adjacent(z, w[i - 1], w[i])
  }

  /** Only core switches join pods: a walk that avoids them stays in its pod. */
  lemma {:induction false} EveryInterPodWalkCrossesACore(z: Size, w: seq<Node>)
    requires z.half > 0 && z.serverCount > 0 && IsWalk(z, w)
    requires !w[0].Core? && !w[|w| - 1].Core?
    ensures Pod(z, w[0]) == Pod(z, w[|w| - 1]) || exists i :: 0 < i < |w| - 1 && w[i].Core?
  {
    if |w| > 1 {
      var v := w[..|w| - 1];
      if !v[|v| - 1].Core? {
        assert IsWalk(z, v);
        EveryInterPodWalkCrossesACore(z, v);
        assert Adjacent(z, w[|w| - 2], w[|w| - 1]);
      }
    }
  }

  // ----- The traffic

  /** install_applications' interval for a pod is exactly the pod the wiring gave each server. */
  lemma PodIntervalIsPod(z: Size, p: nat, s: nat)
    requires s < z.Servers() && p < z.K()
    ensures z.half > 0 && z.serverCount > 0
    ensures p * z.serverCount * z.half <= s < (p + 1) * z.serverCount * z.half <==> Pod(z, Server(s)) == p
    ensures Pod(z, Server(s)) < z.K()
    ensures Pod(z, Server(s)) == Pod(z, EdgeSwitch(s / z.serverCount))
  {
    var n, h := z.serverCount, z.half;
    RowOf(s, n, z.Edges());
    RowOf(s / n, h, z.K());
    var q, j, r := s / n / h, s / n % h, s % n;
    RowInTable(j, r, n, h);
    IntervalIsRow(s, n, h, q, j, r, p);
  }

  lemma IntervalIsRow(s: nat, n: nat, h: nat, q: nat, j: nat, r: nat, p: nat)
    requires s == (q * h + j) * n + r && j * n + r < h * n
    ensures p * n * h <= s < (p + 1) * n * h <==> q == p
  {
    var m := h * n;
    assert (q * h + j) * n == q * m + j * n;
    assert p * n * h == p * m && (p + 1) * n * h == p * m + m;
    Unique(s, m, q, j * n + r);
    if p * m <= s < p * m + m {
      Unique(s, m, p, s - p * m);
    }
  }

  ghost predicate FirstOutside(z: Size, fromPod: nat, draws: seq<nat>, d: nat)
    requires z.half > 0 && z.serverCount > 0
  {
    exists i :: 0 <= i < |draws| && draws[i] == d && Pod(z, Server(d)) != fromPod
                && forall j :: 0 <= j < i ==> Pod(z, Server(draws[j])) == fromPod
  }

  /**
   * The destination for a sender: draws are taken until one lies outside the sender's pod interval. None if
   * the given draws run out first.
   */
  method PickDestination(z: Size, fromPod: nat, fromServer: nat, draws: seq<nat>) returns (dest: Option<nat>)
    requires fromPod < z.K() && fromServer < z.Servers() && forall d :: d in draws ==> d < z.Servers()
    requires fromPod * z.serverCount * z.half <= fromServer < (fromPod + 1) * z.serverCount * z.half
    ensures z.half > 0 && z.serverCount > 0
    ensures match dest
            case Some(d) => FirstOutside(z, fromPod, draws, d)
            case None => forall d :: d in draws ==> Pod(z, Server(d)) == fromPod
  {
    hide Pod, Size.Servers, Size.K;
    PodIntervalIsPod(z, fromPod, fromServer);
    var destServer := fromServer;
    var i := 0;
    while fromPod * z.serverCount * z.half <= destServer < (fromPod + 1) * z.serverCount * z.half
      invariant i <= |draws|
      invariant forall j :: 0 <= j < i - 1 ==> Pod(z, Server(draws[j])) == fromPod
      invariant destServer == if i == 0 then fromServer else draws[i - 1]
      decreases |draws| - i
    {
      if i > 0 {
        assert destServer in draws;
        PodIntervalIsPod(z, fromPod, destServer);
      }
      if i == |draws| {
        return None;
      }
      destServer := draws[i];
      i := i + 1;
    }
    assert destServer in draws;
    PodIntervalIsPod(z, fromPod, destServer);
    return Some(destServer);
  }
}
