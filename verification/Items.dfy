/** The things that are sorted or searched: any values that can be compared and used as dictionary keys. */
module Items {

  type Item(==, !new)

  ghost predicate NoDup(s: seq<Item>) {
    forall i, j :: 0 <= i < j < |s| ==> s[i] != s[j]
  }

  function Elements(s: seq<Item>): set<Item> {
    set x | x in s
  }

  /** Pigeonhole: a duplicate-free list drawn from v is no longer than v is large. */
  lemma {:induction false} NoDupFits(s: seq<Item>, v: set<Item>)
    requires NoDup(s) && Elements(s) <= v
    ensures |s| <= |v|
    ensures |s| == |Elements(s)|
  {
    if s != [] {
      var rest := s[1..];
      assert Elements(s) == Elements(rest) + {s[0]};
      NoDupFits(rest, v - {s[0]});
    }
  }

  /** A dictionary's keys in the order Python happens to iterate them: any order. */
  method InSomeOrder(keys: set<Item>) returns (order: seq<Item>)
    ensures NoDup(order) && Elements(order) == keys
  {
    order := [];
    var rest := keys;
    while rest != {}
      invariant rest <= keys && NoDup(order) && Elements(order) == keys - rest
      decreases rest
    {
      var k :| k in rest;
      assert Elements(order + [k]) == Elements(order) + {k};
      order, rest := order + [k], rest - {k};
    }
  }
}
