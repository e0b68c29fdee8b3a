/** bindings/python/rad_util.py, is_rotated: rotations of lists. */
module Rotation {
  import opened Items
  import opened Wrappers

  function Rotate(s: seq<Item>, k: nat): seq<Item>
    requires k <= |s|
  {
    s[k..] + s[..k]
  }

  ghost predicate IsRotation(a: seq<Item>, b: seq<Item>) {
    exists k: nat :: k <= |a| && Rotate(a, k) == b
  }

  lemma RotationSymmetric(a: seq<Item>, b: seq<Item>)
    requires IsRotation(a, b)
    ensures IsRotation(b, a)
  {
    var k: nat :| k <= |a| && Rotate(a, k) == b;
    assert Rotate(b, |a| - k) == a;
  }

  lemma RotateParts(x: seq<Item>, y: seq<Item>)
    ensures Rotate(x + y, |x|) == y + x
  {
  }

  lemma RotateTwice(x: seq<Item>, y: seq<Item>, z: seq<Item>)
    ensures Rotate(y + z + x, |y|) == Rotate(x + y + z, |x + y|)
    ensures Rotate(z + x + y, |z + x|) == Rotate(x + y + z, |x|)
  {
    RotateParts(y, z + x);
    RotateParts(x + y, z);
    RotateParts(z + x, y);
    RotateParts(x, y + z);
    assert y + (z + x) == y + z + x && x + (y + z) == x + y + z;
    assert z + x + y == z + (x + y) && y + z + x == y + (z + x);
  }

  lemma RotationsAddUp(a: seq<Item>, j: nat, k: nat)
    requires j <= |a| && k <= |a|
    ensures IsRotation(a, Rotate(Rotate(a, j), k))
  {
    var b := Rotate(a, j);
    if j + k <= |a| {
      var x, y, z := a[..j], a[j..j + k], a[j + k..];
      assert a == x + y + z && b == y + z + x by { assert a[j..] == y + z; }
      RotateTwice(x, y, z);
      assert b[..k] == y && b[k..] == z + x;
    } else {
      var m := j + k - |a|;
      var x, y, z := a[..m], a[m..j], a[j..];
      assert a == x + y + z && b == z + x + y by { assert a[..j] == x + y; }
      RotateTwice(x, y, z);
      assert b[..k] == z + x && b[k..] == y;
    }
  }

  lemma RotationTransitive(a: seq<Item>, b: seq<Item>, c: seq<Item>)
    requires IsRotation(a, b) && IsRotation(b, c)
    ensures IsRotation(a, c)
  {
    var j: nat :| j <= |a| && Rotate(a, j) == b;
    var k: nat :| k <= |b| && Rotate(b, k) == c;
    RotationsAddUp(a, j, k);
  }

  /** None is the IndexError that two empty lists end in. */
  method IsRotated(seq1: seq<Item>, seq2: seq<Item>) returns (r: Option<bool>)
    ensures r == None <==> seq1 == [] && seq2 == []
    ensures r.Some? ==> (r.value <==> IsRotation(seq1, seq2))
  {
    if |seq1| != |seq2| {
      return Some(false);
    }
    var startIndexes: seq<nat> := [];
    if seq2 == [] {
      return None;
    }
    var headItem := seq2[0];
    for index1 := 0 to |seq1|
      invariant forall k :: k in startIndexes <==> 0 <= k < index1 && seq1[k] == headItem
    {
      if seq1[index1] == headItem {
        startIndexes := startIndexes + [index1];
      }
    }
    var doubleSeq1 := seq1 + seq1;
    for i := 0 to |startIndexes|
      invariant forall j :: 0 <= j < i ==> startIndexes[j] < |seq1| && Rotate(seq1, startIndexes[j]) != seq2
    {
      var k := startIndexes[i];
      assert k in startIndexes;
      assert doubleSeq1[k..k + |seq1|] == Rotate(seq1, k);
      if doubleSeq1[k..k + |seq1|] == seq2 {
        return Some(true);
      }
    }
    forall k: nat | k <= |seq1|
      ensures Rotate(seq1, k) != seq2
    {
      if k == |seq1| {
        assert Rotate(seq1, k) == Rotate(seq1, 0);
      }
      var k' := if k == |seq1| then 0 else k;
      if Rotate(seq1, k')[0] == headItem {
        assert k' in startIndexes;
      }
    }
    return Some(false);
  }
}
