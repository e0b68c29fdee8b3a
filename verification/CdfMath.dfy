/** Empirical distributions as tables of points, over the reals: sampling, average, and what holds of them. */
module CdfMath {

  datatype Entry = Entry(value: real, cdf: real)

  /** Neither values nor cumulated probabilities are negative or ever fall. */
  ghost predicate IsTable(t: seq<Entry>) {
    && t != [] && t[0].value >= 0.0 && t[0].cdf >= 0.0
    && forall i, j :: 0 <= i < j < |t| ==> t[i].value <= t[j].value && t[i].cdf <= t[j].cdf
  }

  const ORIGIN := Entry(0.0, 0.0)

  function Previous(t: seq<Entry>, i: nat): Entry
    requires i <= |t|
  {
    if i == 0 then ORIGIN else t[i - 1]
  }

  /** Wherever the cdf rises the value does, counting from the origin. */
  ghost predicate Rising(t: seq<Entry>) {
    forall i :: 0 <= i < |t| && Previous(t, i).cdf < t[i].cdf ==> Previous(t, i).value < t[i].value
  }

  function Interpolate(x: real, x1: real, y1: real, x2: real, y2: real): real {
    if x1 == x2 then (y1 + y2) / 2.0
    else y1 + (x - x1) * (y2 - y1) / (x2 - x1)
  }

  /** The first entry whose cdf is at least x. */
  function Find(t: seq<Entry>, x: real): (i: nat)
    ensures i <= |t| && (i < |t| ==> x <= t[i].cdf) && forall j :: 0 <= j < i ==> t[j].cdf < x
  {
    if t == [] then 0
    else if x <= t[0].cdf then 0
    else
      var i := Find(t[1..], x);
      assert forall j :: 0 < j < i + 1 ==> t[j] == t[1..][j - 1];
      i + 1
  }

  /** The value for x once the search has ended at entry i. */
  function SampleAt(t: seq<Entry>, x: real, i: nat): real
    requires t != [] && i <= |t|
  {
    if i == |t| then t[|t| - 1].value
    else
      var p := Previous(t, i);
      Interpolate(x, p.cdf, p.value, t[i].cdf, t[i].value)
  }

  /** The value at cumulated probability x. */
  function Sample(t: seq<Entry>, x: real): real
    requires t != []
  {
    SampleAt(t, x, Find(t, x))
  }

  /** The first entry whose value is at least v. */
  function FindValue(t: seq<Entry>, v: real): (i: nat)
    ensures i <= |t| && (i < |t| ==> v <= t[i].value) && forall j :: 0 <= j < i ==> t[j].value < v
  {
    if t == [] then 0
    else if v <= t[0].value then 0
    else
      var i := FindValue(t[1..], v);
      assert forall j :: 0 < j < i + 1 ==> t[j] == t[1..][j - 1];
      i + 1
  }

  /** The piecewise-linear distribution function through the origin and the table's points. */
  function Distribution(t: seq<Entry>, v: real): real
    requires t != []
  {
    var i := FindValue(t, v);
    if i == |t| then t[|t| - 1].cdf
    else
      var p := Previous(t, i);
      Interpolate(v, p.value, p.cdf, t[i].value, t[i].cdf)
  }

  /** The area of the trapezium between two neighbouring points. */
  function Slice(p: Entry, e: Entry): real {
    (e.value + p.value) / 2.0 * (e.cdf - p.cdf)
  }

  function AverageFrom(p: Entry, t: seq<Entry>): real
    decreases t
  {
    if t == [] then 0.0 else Slice(p, t[0]) + AverageFrom(t[0], t[1..])
  }

  function Average(t: seq<Entry>): real {
    AverageFrom(ORIGIN, t)
  }

  // ----- Lines

  lemma SameSign(a: real, d: real)
    requires d > 0.0
    ensures a * d >= 0.0 <==> a >= 0.0
    ensures a * d > 0.0 <==> a > 0.0
    ensures a * d == 0.0 <==> a == 0.0
  {
  }

  /** On a proper segment the interpolated point is on the line, between the ends, and moves up with x. */
  lemma OnLine(x: real, x1: real, y1: real, x2: real, y2: real)
    requires x1 < x2
    ensures (Interpolate(x, x1, y1, x2, y2) - y1) * (x2 - x1) == (x - x1) * (y2 - y1)
  {
  }

  /** A point is the interpolated one iff it is on the line. */
  lemma LineIsUnique(x: real, y: real, x1: real, y1: real, x2: real, y2: real)
    requires x1 < x2 && (y - y1) * (x2 - x1) == (x - x1) * (y2 - y1)
    ensures y == Interpolate(x, x1, y1, x2, y2)
  {
    hide Interpolate;
    var z := Interpolate(x, x1, y1, x2, y2);
    OnLine(x, x1, y1, x2, y2);
    assert (y - z) * (x2 - x1) == 0.0;
    SameSign(y - z, x2 - x1);
  }

  lemma Between(x: real, x1: real, y1: real, x2: real, y2: real)
    requires x1 < x2 && x1 <= x <= x2 && y1 <= y2
    ensures y1 <= Interpolate(x, x1, y1, x2, y2) <= y2
    ensures y1 < y2 && x1 < x ==> y1 < Interpolate(x, x1, y1, x2, y2)
  {
    hide Interpolate;
    var z, d := Interpolate(x, x1, y1, x2, y2), x2 - x1;
    OnLine(x, x1, y1, x2, y2);
    assert (y2 - z) * d == (x2 - x) * (y2 - y1);
    SameSign(z - y1, d);
    SameSign(y2 - z, d);
    if y1 < y2 {
      SameSign(x - x1, y2 - y1);
      SameSign(x2 - x, y2 - y1);
    }
  }

  lemma Upward(x: real, x': real, x1: real, y1: real, x2: real, y2: real)
    requires x1 < x2 && x <= x' && y1 <= y2
    ensures Interpolate(x, x1, y1, x2, y2) <= Interpolate(x', x1, y1, x2, y2)
  {
    hide Interpolate;
    var z, z', d := Interpolate(x, x1, y1, x2, y2), Interpolate(x', x1, y1, x2, y2), x2 - x1;
    OnLine(x, x1, y1, x2, y2);
    OnLine(x', x1, y1, x2, y2);
    assert (z' - z) * d == (x' - x) * (y2 - y1);
    SameSign(z' - z, d);
    if y1 < y2 { SameSign(x' - x, y2 - y1); }
  }

  /** Swapping the axes turns interpolation around. */
  lemma Inverse(x: real, x1: real, y1: real, x2: real, y2: real)
    requires x1 < x2 && y1 < y2
    ensures Interpolate(Interpolate(x, x1, y1, x2, y2), y1, x1, y2, x2) == x
  {
    hide Interpolate;
    var z := Interpolate(x, x1, y1, x2, y2);
    OnLine(x, x1, y1, x2, y2);
    LineIsUnique(z, x, y1, x1, y2, x2);
  }

  // ----- Sampling

  /** On the segment that is interpolated the cdf rises, except that a first entry can be met at x = 0. */
  lemma FoundSegment(t: seq<Entry>, x: real)
    requires IsTable(t) && x >= 0.0
    ensures var i := Find(t, x);
            i < |t| ==>
              && Previous(t, i).value <= t[i].value
              && (Previous(t, i).cdf < x <= t[i].cdf || (i == 0 && x == 0.0))
  {
  }

  lemma SampleInSegment(t: seq<Entry>, x: real)
    requires IsTable(t) && x >= 0.0
    ensures var i := Find(t, x);
            i < |t| ==>
              && Previous(t, i).value <= Sample(t, x) <= t[i].value
              && (x > 0.0 && Previous(t, i).value < t[i].value ==> Previous(t, i).value < Sample(t, x))
  {
    var i := Find(t, x);
    FoundSegment(t, x);
    if i < |t| {
      var p := Previous(t, i);
      if p.cdf < t[i].cdf {
        Between(x, p.cdf, p.value, t[i].cdf, t[i].value);
      }
    }
  }

  lemma SampleInRange(t: seq<Entry>, x: real)
    requires IsTable(t) && x >= 0.0
    ensures 0.0 <= Sample(t, x) <= t[|t| - 1].value
    ensures x > t[|t| - 1].cdf ==> Sample(t, x) == t[|t| - 1].value
  {
    SampleInSegment(t, x);
    var i := Find(t, x);
    if i < |t| - 1 { assert t[i].value <= t[|t| - 1].value; }
    if 0 < i - 1 < |t| { assert t[0].value <= t[i - 1].value; }
    if |t| > 1 { assert t[0].value <= t[|t| - 1].value; }
  }

  lemma SampleMonotone(t: seq<Entry>, x: real, x': real)
    requires IsTable(t) && 0.0 <= x <= x'
    ensures Sample(t, x) <= Sample(t, x')
  {
    hide Interpolate;
    var i, i' := Find(t, x), Find(t, x');
    SampleInSegment(t, x);
    SampleInSegment(t, x');
    SampleInRange(t, x);
    FoundSegment(t, x);
    FoundSegment(t, x');
    if i == i' < |t| {
      var p := Previous(t, i);
      if p.cdf < t[i].cdf {
        Upward(x, x', p.cdf, p.value, t[i].cdf, t[i].value);
      }
    } else if i < i' < |t| {
      if i < i' - 1 { assert t[i].value <= t[i' - 1].value; }
    }
  }

  /** At 0 the sample is 0, or half the first value if that is met at 0 too. */
  lemma SampleAtZero(t: seq<Entry>)
    requires IsTable(t)
    ensures Sample(t, 0.0) == if t[0].cdf == 0.0 then t[0].value / 2.0 else 0.0
  {
    if t[0].cdf > 0.0 {
      OnLine(0.0, 0.0, 0.0, t[0].cdf, t[0].value);
      SameSign(Interpolate(0.0, 0.0, 0.0, t[0].cdf, t[0].value), t[0].cdf);
    }
  }

  lemma FindValueIs(t: seq<Entry>, v: real, i: nat)
    requires IsTable(t) && i < |t| && v <= t[i].value && (i == 0 || t[i - 1].value < v)
    ensures FindValue(t, v) == i
  {
    assert forall k :: 0 <= k < i - 1 ==> t[k].value <= t[i - 1].value;
  }

  /** On a rising table the distribution function takes every sample back to where it was drawn. */
  lemma DistributionOfSample(t: seq<Entry>, x: real)
    requires IsTable(t) && Rising(t) && 0.0 <= x <= t[|t| - 1].cdf
    ensures Distribution(t, Sample(t, x)) == x
  {
    hide FindValue;
    var i := Find(t, x);
    var v := Sample(t, x);
    var p := Previous(t, i);
    SampleInSegment(t, x);
    FoundSegment(t, x);
    FindValueIs(t, v, i);
    if p.cdf < t[i].cdf {
      hide Interpolate;
      Inverse(x, p.cdf, p.value, t[i].cdf, t[i].value);
    }
  }

  lemma FlatLine(x: real, x1: real, y: real, x2: real)
    ensures Interpolate(x, x1, y, x2, y) == y
  {
    assert (x - x1) * (y - y) == 0.0;
  }

  /** A whole range of numbers gives one sample where the cdf rises and the value does not. */
  lemma FlatSegment(t: seq<Entry>, i: nat, x: real)
    requires IsTable(t) && i < |t| && Previous(t, i).value >= t[i].value
    requires Previous(t, i).cdf < x <= t[i].cdf
    ensures Sample(t, x) == t[i].value
  {
    hide Interpolate;
    assert Previous(t, i).value == t[i].value;
    FlatLine(x, Previous(t, i).cdf, t[i].value, t[i].cdf);
    assert forall j :: 0 <= j < i - 1 ==> t[j].cdf <= t[i - 1].cdf;
    FindIs(t, x, i);
  }

  /** A flat segment has two numbers that the distribution function cannot tell apart. */
  lemma FlatIsNotInverted(t: seq<Entry>, i: nat) returns (x: real)
    requires IsTable(t) && i < |t| && Previous(t, i).cdf < t[i].cdf && Previous(t, i).value >= t[i].value
    ensures 0.0 <= x <= t[|t| - 1].cdf && Distribution(t, Sample(t, x)) != x
  {
    var c, d := Previous(t, i).cdf, t[i].cdf;
    assert 0.0 <= c && d <= t[|t| - 1].cdf;
    x := (c + d) / 2.0;
    hide *;
    FlatSegment(t, i, x);
    FlatSegment(t, i, d);
    if Distribution(t, Sample(t, x)) == x {
      x := d;
    }
  }

  /** The distribution function inverts sampling exactly on the rising tables. */
  lemma InvertedIffRising(t: seq<Entry>)
    requires IsTable(t)
    ensures (forall x :: 0.0 <= x <= t[|t| - 1].cdf ==> Distribution(t, Sample(t, x)) == x) <==> Rising(t)
  {
    if Rising(t) {
      forall x | 0.0 <= x <= t[|t| - 1].cdf
        ensures Distribution(t, Sample(t, x)) == x
      {
        DistributionOfSample(t, x);
      }
    } else {
      hide Distribution, Sample, IsTable, Previous;
      var i :| 0 <= i < |t| && Previous(t, i).cdf < t[i].cdf && Previous(t, i).value >= t[i].value;
      var x := FlatIsNotInverted(t, i);
    }
  }

  lemma RisingFromNeighbours(t: seq<Entry>)
    requires t != [] && t[0] == ORIGIN
    requires forall i :: 0 < i < |t| ==> t[i - 1].value < t[i].value && t[i - 1].cdf <= t[i].cdf
    ensures IsTable(t) && Rising(t)
  {
    forall i, j | 0 <= i < j < |t|
      ensures t[i].value <= t[j].value && t[i].cdf <= t[j].cdf
    {
      NeverFalls(t, i, j);
    }
  }

  lemma {:induction false} NeverFalls(t: seq<Entry>, i: nat, j: nat)
    requires i < j < |t| && forall k :: 0 < k < |t| ==> t[k - 1].value < t[k].value && t[k - 1].cdf <= t[k].cdf
    ensures t[i].value <= t[j].value && t[i].cdf <= t[j].cdf
  {
    if i < j - 1 { NeverFalls(t, i, j - 1); }
  }

  /** The table in DCTCP_CDF.txt. */
  const DCTCP_CDF := [
    Entry(0.0, 0.0), Entry(10000.0, 0.15), Entry(20000.0, 0.2), Entry(30000.0, 0.3), Entry(50000.0, 0.4),
    Entry(80000.0, 0.53), Entry(200000.0, 0.6), Entry(1000000.0, 0.7), Entry(2000000.0, 0.8),
    Entry(5000000.0, 0.9), Entry(10000000.0, 0.97), Entry(30000000.0, 1.0)]

  lemma ShippedTableIsRising()
    ensures IsTable(DCTCP_CDF) && Rising(DCTCP_CDF)
  {
    RisingFromNeighbours(DCTCP_CDF);
  }

  // ----- Refining a table

  /** The table with the sampled point for x put in before the entry found for x. */
  function Refined(t: seq<Entry>, x: real): seq<Entry>
    requires t != []
  {
    var i := Find(t, x);
    t[..i] + [Entry(Sample(t, x), x)] + t[i..]
  }

  lemma FindIs(t: seq<Entry>, x: real, i: nat)
    requires i <= |t| && (i < |t| ==> x <= t[i].cdf) && forall j :: 0 <= j < i ==> t[j].cdf < x
    ensures Find(t, x) == i
  {
  }

  /** Both halves of a cut segment lie on its line. */
  lemma CutLine(m: real, x: real, x1: real, y1: real, x2: real, y2: real)
    requires x1 < m <= x2
    ensures var y := Interpolate(m, x1, y1, x2, y2);
            && Interpolate(x, x1, y1, m, y) == Interpolate(x, x1, y1, x2, y2)
            && (m < x2 ==> Interpolate(x, m, y, x2, y2) == Interpolate(x, x1, y1, x2, y2))
            && (m == x2 ==> y == y2)
  {
    hide Interpolate;
    var y, z, d := Interpolate(m, x1, y1, x2, y2), Interpolate(x, x1, y1, x2, y2), x2 - x1;
    OnLine(m, x1, y1, x2, y2);
    OnLine(x, x1, y1, x2, y2);
    OnTheSameLine(z - y1, m - x1, x - x1, y - y1, d, y2 - y1);
    LineIsUnique(x, z, x1, y1, m, y);
    if m < x2 {
      assert (z - y) * d == (x - m) * (y2 - y1) && (y2 - y) * d == (x2 - m) * (y2 - y1);
      OnTheSameLine(z - y, x2 - m, x - m, y2 - y, d, y2 - y1);
      LineIsUnique(x, z, m, y, x2, y2);
    } else {
      SameSign(y - y2, d);
    }
  }

  /** Two points off an origin on one line: their coordinates are in the same proportion. */
  lemma OnTheSameLine(z: real, m: real, x: real, y: real, d: real, e: real)
    requires d > 0.0 && z * d == x * e && y * d == m * e
    ensures z * m == x * y
  {
    assert (z * m) * d == m * (z * d) == m * (x * e) == x * (m * e) == x * (y * d) == (x * y) * d;
    SameSign(z * m - x * y, d);
  }

  /** Where the search ends in the refined table. */
  lemma FindInRefined(t: seq<Entry>, m: real, x: real)
    requires IsTable(t) && Find(t, m) < |t|
    ensures var i, k := Find(t, m), Find(t, x);
            Find(Refined(t, m), x) == if k < i || x <= m then k else k + 1
    ensures x <= m ==> Find(t, x) <= Find(t, m)
    ensures Find(t, x) < Find(t, m) ==> x <= m
  {
    hide SampleAt;
    var i, k := Find(t, m), Find(t, x);
    var r := Refined(t, m);
    assert i < k ==> t[i].cdf < x;
    FindIs(r, x, if k < i || x <= m then k else k + 1);
  }

  /** Putting an interpolated point into the table changes no sample. */
  lemma RefinedSamplesSame(t: seq<Entry>, m: real, x: real)
    requires IsTable(t) && m > 0.0 && Find(t, m) < |t|
    ensures Sample(Refined(t, m), x) == Sample(t, x)
  {
    hide Interpolate, IsTable, Find;
    var i, k := Find(t, m), Find(t, x);
    var p := Previous(t, i);
    FoundSegment(t, m);
    FindInRefined(t, m, x);
    CutLine(m, x, p.cdf, p.value, t[i].cdf, t[i].value);
  }

  /** The refined table is a table again, so it can be refined further. */
  lemma RefinedIsTable(t: seq<Entry>, m: real)
    requires IsTable(t) && m > 0.0 && Find(t, m) < |t|
    ensures IsTable(Refined(t, m))
  {
    hide Find, SampleAt, Interpolate;
    var i, r := Find(t, m), Refined(t, m);
    FoundSegment(t, m);
    SampleInSegment(t, m);
    forall j, k | 0 <= j < k < |r|
      ensures r[j].value <= r[k].value && r[j].cdf <= r[k].cdf
    {
      if k == i && j < i - 1 { assert t[j].value <= t[i - 1].value && t[j].cdf <= t[i - 1].cdf; }
      if j == i && i < k - 1 { assert t[i].value <= t[k - 1].value && t[i].cdf <= t[k - 1].cdf; }
    }
  }

  lemma CutSlice(p: Entry, e: Entry, m: real)
    requires p.cdf < m <= e.cdf
    ensures var c := Entry(Interpolate(m, p.cdf, p.value, e.cdf, e.value), m);
            Slice(p, c) + Slice(c, e) == Slice(p, e)
  {
    var y := Interpolate(m, p.cdf, p.value, e.cdf, e.value);
    OnLine(m, p.cdf, p.value, e.cdf, e.value);
    assert (y - p.value) * (e.cdf - p.cdf) == (m - p.cdf) * (e.value - p.value);
  }

  lemma {:induction false} AverageSplit(p: Entry, a: seq<Entry>, b: seq<Entry>)
    ensures AverageFrom(p, a + b) == AverageFrom(p, a) + AverageFrom(if a == [] then p else a[|a| - 1], b)
    decreases |a|
  {
    if a == [] {
      assert a + b == b;
    } else {
      AverageSplit(a[0], a[1..], b);
      assert (a + b)[1..] == a[1..] + b;
    }
  }

  lemma AverageHead(p: Entry, e: Entry, rest: seq<Entry>)
    ensures AverageFrom(p, [e] + rest) == Slice(p, e) + AverageFrom(e, rest)
  {
    assert ([e] + rest)[1..] == rest;
  }

  /** Nor does it change the average. */
  lemma RefinedAverageSame(t: seq<Entry>, m: real)
    requires IsTable(t) && m > 0.0 && Find(t, m) < |t|
    ensures Average(Refined(t, m)) == Average(t)
  {
    hide Interpolate, Slice, AverageFrom, IsTable, Find;
    var i := Find(t, m);
    var p, c, e, rest := Previous(t, i), Entry(Sample(t, m), m), t[i], t[i + 1..];
    FoundSegment(t, m);
    CutSlice(p, e, m);
    AverageSplit(ORIGIN, t[..i], [e] + rest);
    AverageSplit(ORIGIN, t[..i], [c] + ([e] + rest));
    AverageHead(p, e, rest);
    AverageHead(p, c, [e] + rest);
    AverageHead(c, e, rest);
    assert t == t[..i] + ([e] + rest) && Refined(t, m) == t[..i] + ([c] + ([e] + rest));
  }
}
