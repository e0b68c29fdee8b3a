/** bindings/python/rad_util.py, permutations: all rearrangements of a list. */
module Permutations {
  import opened Items

  function Insert(s: seq<Item>, i: nat, item: Item): (r: seq<Item>)
    requires i <= |s|
    ensures |r| == |s| + 1
  {
    s[..i] + [item] + s[i..]
  }

  lemma InsertMultiset(s: seq<Item>, i: nat, item: Item)
    requires i <= |s|
    ensures multiset(Insert(s, i, item)) == multiset(s) + multiset{item}
  {
    assert s == s[..i] + s[i..];
  }

  function Remove(s: seq<Item>, i: nat): seq<Item>
    requires i < |s|
  {
    s[..i] + s[i + 1..]
  }

  function Factorial(n: nat): nat {
    if n == 0 then 1 else n * Factorial(n - 1)
  }

  ghost predicate IsRearrangement(p: seq<Item>, s: seq<Item>) {
    multiset(p) == multiset(s)
  }

  ghost predicate Distinct(lists: seq<seq<Item>>) {
    forall i, j :: 0 <= i < j < |lists| ==> lists[i] != lists[j]
  }

  /** All rearrangements of the input, and how many and how different they are. */
  ghost predicate ArePermutations(lists: seq<seq<Item>>, s: seq<Item>) {
    && |lists| == Factorial(|s|)
    && (forall p :: p in lists <==> IsRearrangement(p, s))
    && (NoDup(s) ==> Distinct(lists))
  }

  // ----- Weaving one more item into lists

  /** The item put at each of the first n positions of a list. */
  function Insertions(sub: seq<Item>, item: Item, n: nat): (out: seq<seq<Item>>)
    requires n <= |sub| + 1
    ensures |out| == n && forall i :: 0 <= i < n ==> out[i] == Insert(sub, i, item)
  {
    if n == 0 then [] else Insertions(sub, item, n - 1) + [Insert(sub, n - 1, item)]
  }

  function Woven(subs: seq<seq<Item>>, item: Item, n: nat): (out: seq<seq<Item>>)
    requires forall k :: 0 <= k < |subs| ==> |subs[k]| + 1 == n
    ensures forall k :: 0 <= k < |out| ==> |out[k]| == n
  {
    if subs == [] then []
    else Woven(subs[..|subs| - 1], item, n) + Insertions(subs[|subs| - 1], item, n)
  }

  ghost predicate WovenFrom(subs: seq<seq<Item>>, item: Item, p: seq<Item>) {
    exists b, j :: 0 <= b < |subs| && 0 <= j <= |subs[b]| && p == Insert(subs[b], j, item)
  }

  lemma {:induction false} WovenSize(subs: seq<seq<Item>>, item: Item, n: nat)
    requires forall k :: 0 <= k < |subs| ==> |subs[k]| + 1 == n
    ensures |Woven(subs, item, n)| == |subs| * n
  {
    hide Insert;
    if subs != [] {
      var m := |subs| - 1;
      WovenSize(subs[..m], item, n);
      assert (m + 1) * n == m * n + n;
    }
  }

  lemma {:induction false} WovenMembers(subs: seq<seq<Item>>, item: Item, n: nat, p: seq<Item>)
    requires forall k :: 0 <= k < |subs| ==> |subs[k]| + 1 == n
    ensures p in Woven(subs, item, n) <==> WovenFrom(subs, item, p)
  {
    hide Insert;
    if subs != [] {
      var m := |subs| - 1;
      WovenMembers(subs[..m], item, n, p);
      WovenFromMore(subs, item, p);
      InsertionMembers(subs[m], item, p);
    }
  }

  lemma InsertionMembers(sub: seq<Item>, item: Item, p: seq<Item>)
    ensures p in Insertions(sub, item, |sub| + 1) <==> exists j :: 0 <= j <= |sub| && p == Insert(sub, j, item)
  {
    hide Insert;
    var out := Insertions(sub, item, |sub| + 1);
    if j :| 0 <= j <= |sub| && p == Insert(sub, j, item) {
      assert out[j] == p;
    }
  }

  lemma WovenFromMore(subs: seq<seq<Item>>, item: Item, p: seq<Item>)
    requires subs != []
    ensures var m := |subs| - 1;
            WovenFrom(subs, item, p) <==>
            WovenFrom(subs[..m], item, p) || exists j :: 0 <= j <= |subs[m]| && p == Insert(subs[m], j, item)
  {
    hide Insert;
    var m := |subs| - 1;
    if WovenFrom(subs[..m], item, p) {
      var b, j :| 0 <= b < m && 0 <= j <= |subs[..m][b]| && p == Insert(subs[..m][b], j, item);
      assert p == Insert(subs[b], j, item);
    }
    if WovenFrom(subs, item, p) {
      var b, j :| 0 <= b < |subs| && 0 <= j <= |subs[b]| && p == Insert(subs[b], j, item);
      if b < m { assert p == Insert(subs[..m][b], j, item); }
    }
  }

  /** Where the item went in, and into which list, can be read off the result. */
  lemma InsertInjective(s: seq<Item>, i: nat, t: seq<Item>, j: nat, item: Item)
    requires i <= |s| && j <= |t| && item !in s && item !in t && Insert(s, i, item) == Insert(t, j, item)
    ensures i == j && s == t
  {
    var r := Insert(s, i, item);
    assert r[i] == item && r[j] == item;
    assert Remove(r, i) == s && Remove(r, j) == t;
  }

  lemma InsertionsDistinct(sub: seq<Item>, item: Item, n: nat)
    requires n <= |sub| + 1 && item !in sub
    ensures Distinct(Insertions(sub, item, n))
  {
    hide Insert;
    forall i, j | 0 <= i < j < n
      ensures Insert(sub, i, item) != Insert(sub, j, item)
    {
      if Insert(sub, i, item) == Insert(sub, j, item) { InsertInjective(sub, i, sub, j, item); }
    }
  }

  lemma InsertionsNew(subs: seq<seq<Item>>, sub: seq<Item>, item: Item, i: nat)
    requires sub !in subs && item !in sub && i <= |sub| && forall k :: 0 <= k < |subs| ==> item !in subs[k]
    ensures !WovenFrom(subs, item, Insert(sub, i, item))
  {
    hide Insert;
    forall b, j | 0 <= b < |subs| && 0 <= j <= |subs[b]|
      ensures Insert(sub, i, item) != Insert(subs[b], j, item)
    {
      if Insert(sub, i, item) == Insert(subs[b], j, item) { InsertInjective(sub, i, subs[b], j, item); }
    }
  }

  lemma {:induction false} WovenDistinct(subs: seq<seq<Item>>, item: Item, n: nat)
    requires forall k :: 0 <= k < |subs| ==> |subs[k]| + 1 == n && item !in subs[k]
    requires Distinct(subs)
    ensures Distinct(Woven(subs, item, n))
  {
    hide Insert, WovenFrom, Insertions;
    if subs != [] {
      var m := |subs| - 1;
      WovenDistinct(subs[..m], item, n);
      InsertionsDistinct(subs[m], item, n);
      var before, last := Woven(subs[..m], item, n), Insertions(subs[m], item, n);
      forall i, j | 0 <= i < |before| && 0 <= j < |last|
        ensures before[i] != last[j]
      {
        assert before[i] in before;
        WovenMembers(subs[..m], item, n, last[j]);
        InsertionsNew(subs[..m], subs[m], item, j);
      }
    }
  }

  lemma RemoveMultiset(s: seq<Item>, i: nat)
    requires i < |s|
    ensures multiset(s) == multiset(Remove(s, i)) + multiset{s[i]}
    ensures Insert(Remove(s, i), i, s[i]) == s
  {
    assert s == s[..i] + [s[i]] + s[i + 1..];
  }

  lemma InsertRearranges(s: seq<Item>, sub: seq<Item>, j: nat)
    requires s != [] && IsRearrangement(sub, s[1..]) && j <= |sub|
    ensures IsRearrangement(Insert(sub, j, s[0]), s)
  {
    InsertMultiset(sub, j, s[0]);
    assert s == [s[0]] + s[1..];
  }

  lemma FirstMultiset(s: seq<Item>)
    requires s != []
    ensures multiset(s) == multiset{s[0]} + multiset(s[1..])
  {
    assert s == [s[0]] + s[1..];
  }

  lemma PositionOf(p: seq<Item>, x: Item) returns (j: nat)
    requires x in multiset(p)
    ensures j < |p| && p[j] == x
  {
    j :| 0 <= j < |p| && p[j] == x;
  }

  lemma TakeOutFirst(s: seq<Item>, p: seq<Item>) returns (j: nat)
    requires s != [] && IsRearrangement(p, s)
    ensures j < |p| && IsRearrangement(Remove(p, j), s[1..]) && Insert(Remove(p, j), j, s[0]) == p
  {
    assert s[0] in multiset(p);
    j := PositionOf(p, s[0]);
    RemoveMultiset(p, j);
    FirstMultiset(s);
    SizeAfterRemove(p, j);
    hide Remove, Insert;
    assert multiset(Remove(p, j)) == multiset(p) - multiset{s[0]};
    assert multiset(s[1..]) == multiset(s) - multiset{s[0]};
  }

  /** Every list woven from rearrangements of the rest is a rearrangement of the whole, and the other way round. */
  lemma WovenRearrangements(s: seq<Item>, subs: seq<seq<Item>>, p: seq<Item>)
    requires s != [] && forall q :: q in subs <==> IsRearrangement(q, s[1..])
    ensures WovenFrom(subs, s[0], p) <==> IsRearrangement(p, s)
  {
    hide Insert, Remove, IsRearrangement;
    if WovenFrom(subs, s[0], p) {
      var b, j :| 0 <= b < |subs| && 0 <= j <= |subs[b]| && p == Insert(subs[b], j, s[0]);
      assert subs[b] in subs;
      InsertRearranges(s, subs[b], j);
    }
    if IsRearrangement(p, s) {
      var j := TakeOutFirst(s, p);
      var b :| 0 <= b < |subs| && subs[b] == Remove(p, j);
      assert j <= |subs[b]| by { SizeAfterRemove(p, j); }
      assert p == Insert(subs[b], j, s[0]);
    }
  }

  lemma SizeAfterRemove(p: seq<Item>, j: nat)
    requires j < |p|
    ensures |Remove(p, j)| == |p| - 1
  {
  }

  lemma NotInRest(s: seq<Item>, q: seq<Item>)
    requires s != [] && NoDup(s) && IsRearrangement(q, s[1..])
    ensures s[0] !in q
  {
    assert s[0] !in multiset(s[1..]);
    assert forall x :: x in q <==> x in multiset(q);
  }

  /** Weaving the first item into all permutations of the rest gives all permutations of the whole. */
  lemma WovenArePermutations(s: seq<Item>, subs: seq<seq<Item>>)
    requires s != [] && ArePermutations(subs, s[1..])
    requires forall k :: 0 <= k < |subs| ==> |subs[k]| + 1 == |s|
    ensures ArePermutations(Woven(subs, s[0], |s|), s)
  {
    hide Woven, WovenFrom, IsRearrangement;
    WovenSize(subs, s[0], |s|);
    forall p
      ensures p in Woven(subs, s[0], |s|) <==> IsRearrangement(p, s)
    {
      WovenMembers(subs, s[0], |s|, p);
      WovenRearrangements(s, subs, p);
    }
    if NoDup(s) {
      assert NoDup(s[1..]);
      forall k | 0 <= k < |subs|
        ensures s[0] !in subs[k]
      {
        assert subs[k] in subs;
        NotInRest(s, subs[k]);
      }
      WovenDistinct(subs, s[0], |s|);
    }
  }

  // ----- The method

  /** The permutations in the order in which they are made. */
  function PermutationsOf(s: seq<Item>): (out: seq<seq<Item>>)
    ensures forall k :: 0 <= k < |out| ==> |out[k]| == |s|
  {
    if |s| <= 1 then [s] else Woven(PermutationsOf(s[1..]), s[0], |s|)
  }

  method Permutations(input: seq<Item>) returns (out: seq<seq<Item>>)
    ensures ArePermutations(out, input) && out == PermutationsOf(input)
    decreases |input|
  {
    hide ArePermutations, Insert;
    if |input| > 1 {
      var item := input[0];
      var subs := Permutations(input[1..]);
      out := [];
      for a := 0 to |subs|
        invariant out == Woven(subs[..a], item, |input|)
      {
        assert subs[..a + 1][..a] == subs[..a];
        for i := 0 to |input|
          invariant out == Woven(subs[..a], item, |input|) + Insertions(subs[a], item, i)
        {
          out := out + [Insert(subs[a], i, item)];
        }
      }
      assert subs[..|subs|] == subs;
      WovenArePermutations(input, subs);
    } else {
      out := [input];
      OnlyOne(input);
    }
  }

  /** Place i of row b, in rows of n. */
  function Place(b: nat, n: nat, i: nat): nat {
    b * n + i
  }

  lemma PlaceFits(b: nat, n: nat, i: nat, m: nat)
    requires b < m && i < n
    ensures Place(b, n, i) < m * n
  {
    assert (b + 1) * n <= m * n;
  }

  /** Each list of the rest is woven in one go, and the first item wanders through it from the front to the end. */
  lemma {:induction false} WovenAt(subs: seq<seq<Item>>, item: Item, n: nat, b: nat, i: nat)
    requires (forall k :: 0 <= k < |subs| ==> |subs[k]| + 1 == n) && b < |subs| && i < n
    ensures Place(b, n, i) < |Woven(subs, item, n)| && Woven(subs, item, n)[Place(b, n, i)] == Insert(subs[b], i, item)
  {
    hide Insert, Insertions, Place;
    var m := |subs| - 1;
    WovenSize(subs, item, n);
    WovenSize(subs[..m], item, n);
    PlaceFits(b, n, i, |subs|);
    if b < m {
      WovenAt(subs[..m], item, n, b, i);
    } else {
      LastRow(m, n, i);
    }
  }

  lemma LastRow(m: nat, n: nat, i: nat)
    ensures Place(m, n, i) == m * n + i
  {
  }

  lemma PermutationsWoven(s: seq<Item>)
    requires |s| > 1
    ensures forall k :: 0 <= k < |PermutationsOf(s[1..])| ==> |PermutationsOf(s[1..])[k]| + 1 == |s|
    ensures PermutationsOf(s) == Woven(PermutationsOf(s[1..]), s[0], |s|)
  {
  }

  /** The permutation at place i of row b is the b-th of the rest with the first item put at i. */
  lemma PermutationAt(s: seq<Item>, b: nat, i: nat)
    requires |s| > 1 && b < |PermutationsOf(s[1..])| && i < |s|
    ensures Place(b, |s|, i) < |PermutationsOf(s)|
    ensures PermutationsOf(s)[Place(b, |s|, i)] == Insert(PermutationsOf(s[1..])[b], i, s[0])
  {
    hide *;
    PermutationsWoven(s);
    WovenAt(PermutationsOf(s[1..]), s[0], |s|, b, i);
  }

  lemma OnlyOne(s: seq<Item>)
    requires |s| <= 1
    ensures ArePermutations([s], s)
  {
    forall p | IsRearrangement(p, s)
      ensures p == s
    {
      assert |multiset(p)| == |multiset(s)|;
      if s != [] { assert p[0] in multiset(s); }
    }
    assert Factorial(1) == 1;
  }
}
