/** examples/dstcp/cdf.c: the average of a table is the mean of what is sampled from it. */
module CdfMean {
  import opened CdfMath

  // ----- Areas over stretches that never fall

  ghost predicate Climbs(p: Entry, es: seq<Entry>)
    decreases |es|
  {
    es == [] || (p.value <= es[0].value && p.cdf <= es[0].cdf && Climbs(es[0], es[1..]))
  }

  lemma SliceWithin(p: Entry, e: Entry)
    requires p.value <= e.value && p.cdf <= e.cdf
    ensures p.value * (e.cdf - p.cdf) <= Slice(p, e) <= e.value * (e.cdf - p.cdf)
  {
    var d, r := (e.value - p.value) / 2.0, e.cdf - p.cdf;
    Product(d, r);
    assert Slice(p, e) == p.value * r + d * r;
    assert Slice(p, e) == e.value * r - d * r;
  }

  lemma Product(a: real, b: real)
    requires a >= 0.0 && b >= 0.0
    ensures a * b >= 0.0
  {
  }

  lemma {:induction false} ClimbsToLast(p: Entry, es: seq<Entry>)
    requires Climbs(p, es) && es != []
    ensures p.value <= es[|es| - 1].value && p.cdf <= es[|es| - 1].cdf
    decreases |es|
  {
    if |es| > 1 { ClimbsToLast(es[0], es[1..]); }
  }

  /** Two areas side by side, each between its lower and its upper rectangle. */
  lemma SideBySide(p: Entry, e: Entry, last: Entry, s: real, rest: real)
    requires p.value <= e.value <= last.value && p.cdf <= e.cdf <= last.cdf
    requires p.value * (e.cdf - p.cdf) <= s <= e.value * (e.cdf - p.cdf)
    requires e.value * (last.cdf - e.cdf) <= rest <= last.value * (last.cdf - e.cdf)
    ensures p.value * (last.cdf - p.cdf) <= s + rest <= last.value * (last.cdf - p.cdf)
  {
    var v, w := e.value - p.value, last.value - e.value;
    Product(v, last.cdf - e.cdf);
    Product(w, e.cdf - p.cdf);
    assert v * (last.cdf - e.cdf) == e.value * (last.cdf - e.cdf) - p.value * (last.cdf - e.cdf);
    assert w * (e.cdf - p.cdf) == last.value * (e.cdf - p.cdf) - e.value * (e.cdf - p.cdf);
  }

  /** The area over a stretch lies between its first and its last value times its width. */
  lemma {:induction false} AverageWithin(p: Entry, es: seq<Entry>)
    requires Climbs(p, es) && es != []
    ensures var last := es[|es| - 1];
            p.value * (last.cdf - p.cdf) <= AverageFrom(p, es) <= last.value * (last.cdf - p.cdf)
    decreases |es|
  {
    hide Slice;
    var e := es[0];
    SliceWithin(p, e);
    if |es| > 1 {
      AverageWithin(e, es[1..]);
      ClimbsToLast(e, es[1..]);
      SideBySide(p, e, es[|es| - 1], Slice(p, e), AverageFrom(e, es[1..]));
    } else {
      assert es[1..] == [];
    }
  }

  // ----- The area up to x

  function Point(t: seq<Entry>, x: real): Entry
    requires t != []
  {
    Entry(Sample(t, x), x)
  }

  function AreaTo(t: seq<Entry>, x: real): real
    requires t != [] && Find(t, x) < |t|
  {
    AverageFrom(ORIGIN, t[..Find(t, x)]) + Slice(Previous(t, Find(t, x)), Point(t, x))
  }

  /** A point that is met on its segment cuts the segment's area in two. */
  lemma CutAt(t: seq<Entry>, a: real, e: Entry)
    requires IsTable(t) && 0.0 <= a && Find(t, a) < |t|
    requires var i := Find(t, a);
             e == t[i] || (Find(t, e.cdf) == i && e.cdf > a && e == Point(t, e.cdf))
    ensures var p := Previous(t, Find(t, a)); Slice(p, Point(t, a)) + Slice(Point(t, a), e) == Slice(p, e)
  {
    var i := Find(t, a);
    var p := Previous(t, i);
    FoundSegment(t, a);
    if p.cdf < a {
      if e == t[i] {
        CutSlice(p, e, a);
      } else {
        CutLine(e.cdf, a, p.cdf, p.value, t[i].cdf, t[i].value);
        hide Interpolate, Slice;
        CutSlice(p, e, a);
      }
    } else {
      CutAtZero(t, e);
    }
  }

  lemma CutAtZero(t: seq<Entry>, e: Entry)
    requires IsTable(t) && Find(t, 0.0) == 0
    requires e == t[0] || (Find(t, e.cdf) == 0 && e.cdf > 0.0 && e == Point(t, e.cdf))
    ensures Slice(ORIGIN, Point(t, 0.0)) + Slice(Point(t, 0.0), e) == Slice(ORIGIN, e)
  {
    hide Find;
    var c := Point(t, 0.0);
    assert Slice(ORIGIN, c) == 0.0;
    if t[0].cdf > 0.0 {
      OnLine(0.0, 0.0, 0.0, t[0].cdf, t[0].value);
      SameSign(c.value, t[0].cdf);
      assert c == ORIGIN;
    }
  }

  /** The stretch between two points: the entries between them, and the second point. */
  function Stretch(t: seq<Entry>, a: real, b: real): seq<Entry>
    requires t != [] && Find(t, a) <= Find(t, b) < |t|
  {
    t[Find(t, a)..Find(t, b)] + [Point(t, b)]
  }

  lemma FindMonotone(t: seq<Entry>, a: real, b: real)
    requires IsTable(t) && a <= b <= t[|t| - 1].cdf
    ensures Find(t, a) <= Find(t, b) < |t|
  {
    hide Find;
  }

  lemma AreaBehind(t: seq<Entry>, i: nat, es: seq<Entry>)
    requires i <= |t|
    ensures AverageFrom(ORIGIN, t[..i] + es) == AverageFrom(ORIGIN, t[..i]) + AverageFrom(Previous(t, i), es)
  {
    hide AverageFrom;
    AverageSplit(ORIGIN, t[..i], es);
    assert i > 0 ==> t[..i][i - 1] == t[i - 1];
  }

  lemma CutStretch(t: seq<Entry>, a: real, b: real)
    requires IsTable(t) && 0.0 <= a < b && Find(t, a) <= Find(t, b) < |t|
    ensures var p, c, es := Previous(t, Find(t, a)), Point(t, a), Stretch(t, a, b);
            AverageFrom(p, es) == Slice(p, c) + AverageFrom(c, es)
  {
    hide IsTable, Find, Sample, SampleAt, Interpolate, Slice, AverageFrom, Previous;
    var i, k := Find(t, a), Find(t, b);
    var p, c, d := Previous(t, i), Point(t, a), Point(t, b);
    if i == k {
      CutAt(t, a, d);
      One(p, d);
      One(c, d);
      assert Stretch(t, a, b) == [d];
    } else {
      var e, rest := t[i], t[i + 1..k] + [d];
      CutAt(t, a, e);
      assert Stretch(t, a, b) == [e] + rest;
      AverageHead(c, e, rest);
      AverageHead(p, e, rest);
    }
  }

  lemma NotEmpty(t: seq<Entry>)
    requires IsTable(t)
    ensures t != []
  {
  }

  lemma AreaStep(t: seq<Entry>, a: real, b: real)
    requires IsTable(t) && 0.0 <= a < b <= t[|t| - 1].cdf
    ensures Find(t, a) <= Find(t, b) < |t|
    ensures AreaTo(t, b) == AreaTo(t, a) + AverageFrom(Point(t, a), Stretch(t, a, b))
  {
    hide IsTable, Find, Sample, SampleAt, Interpolate, Slice, AverageFrom, Previous, Point;
    FindMonotone(t, a, b);
    var i, k, d := Find(t, a), Find(t, b), Point(t, b);
    AreaBehind(t, k, [d]);
    One(Previous(t, k), d);
    assert t[..k] + [d] == t[..i] + Stretch(t, a, b);
    AreaBehind(t, i, Stretch(t, a, b));
    CutStretch(t, a, b);
  }

  lemma One(p: Entry, e: Entry)
    ensures AverageFrom(p, [e]) == Slice(p, e)
  {
    hide Slice;
    assert [e][1..] == [];
  }

  lemma {:induction false} EntriesClimb(t: seq<Entry>, p: Entry, i: nat, k: nat, d: Entry)
    requires IsTable(t) && i <= k <= |t|
    requires i < k ==> p.value <= t[i].value && p.cdf <= t[i].cdf && t[k - 1].value <= d.value && t[k - 1].cdf <= d.cdf
    requires i == k ==> p.value <= d.value && p.cdf <= d.cdf
    ensures Climbs(p, t[i..k] + [d])
    decreases k - i
  {
    var es := t[i..k] + [d];
    if i < k {
      assert i + 1 < k ==> t[i].value <= t[i + 1].value && t[i].cdf <= t[i + 1].cdf;
      EntriesClimb(t, t[i], i + 1, k, d);
      assert es[1..] == t[i + 1..k] + [d];
    } else {
      assert es[1..] == [];
    }
  }

  lemma StretchClimbs(t: seq<Entry>, a: real, b: real)
    requires IsTable(t) && 0.0 <= a < b <= t[|t| - 1].cdf
    ensures Find(t, a) <= Find(t, b) < |t| && Climbs(Point(t, a), Stretch(t, a, b))
  {
    FindMonotone(t, a, b);
    SampleMonotone(t, a, b);
    SampleInSegment(t, a);
    SampleInSegment(t, b);
    FoundSegment(t, a);
    FoundSegment(t, b);
    hide Find, Sample;
    var i, k := Find(t, a), Find(t, b);
    EntriesClimb(t, Point(t, a), i, k, Point(t, b));
  }

  /** Between two numbers the area grows by at least the first sample and at most the last, times their distance. */
  lemma AreaGrows(t: seq<Entry>, a: real, b: real)
    requires IsTable(t) && 0.0 <= a < b <= t[|t| - 1].cdf
    ensures Find(t, a) <= Find(t, b) < |t|
    ensures Sample(t, a) * (b - a) <= AreaTo(t, b) - AreaTo(t, a) <= Sample(t, b) * (b - a)
  {
    hide Find, Sample, Climbs, AreaTo, AverageFrom;
    AreaStep(t, a, b);
    StretchClimbs(t, a, b);
    AverageWithin(Point(t, a), Stretch(t, a, b));
  }

  // ----- From 0 to the end

  lemma NoAreaAtZero(t: seq<Entry>)
    requires IsTable(t)
    ensures Find(t, 0.0) == 0 && AreaTo(t, 0.0) == 0.0
  {
    assert t[..0] == [];
    hide Interpolate;
  }

  lemma {:induction false} NoAreaOnTheLevel(p: Entry, es: seq<Entry>)
    requires forall k :: 0 <= k < |es| ==> es[k].cdf == p.cdf
    ensures AverageFrom(p, es) == 0.0
    decreases |es|
  {
    if es != [] {
      assert Slice(p, es[0]) == 0.0;
      NoAreaOnTheLevel(es[0], es[1..]);
    }
  }

  lemma EndIsFound(t: seq<Entry>, x: real)
    requires IsTable(t) && x == t[|t| - 1].cdf
    ensures var i := Find(t, x);
            && i < |t| && t[i].cdf == x
            && Slice(Previous(t, i), Point(t, x)) == Slice(Previous(t, i), t[i])
            && forall k :: i <= k < |t| ==> t[k].cdf == x
  {
    FindMonotone(t, x, x);
    FoundSegment(t, x);
    var i := Find(t, x);
    hide Find, Interpolate;
    assert forall k :: i <= k < |t| - 1 ==> t[i].cdf <= t[k].cdf <= x || k == i;
    var p := Previous(t, i);
    if p.cdf < x { AtTheEnd(p.cdf, p.value, x, t[i].value); }
  }

  lemma AllArea(t: seq<Entry>)
    requires IsTable(t)
    ensures Find(t, t[|t| - 1].cdf) < |t| && AreaTo(t, t[|t| - 1].cdf) == Average(t)
  {
    hide IsTable, Find, Sample, SampleAt, Interpolate, Slice, AverageFrom, Previous, Point;
    NotEmpty(t);
    var x := t[|t| - 1].cdf;
    EndIsFound(t, x);
    var i := Find(t, x);
    assert t == t[..i] + ([t[i]] + t[i + 1..]);
    AreaBehind(t, i, [t[i]] + t[i + 1..]);
    AverageHead(Previous(t, i), t[i], t[i + 1..]);
    NoAreaOnTheLevel(t[i], t[i + 1..]);
  }

  lemma AtTheEnd(x1: real, y1: real, x2: real, y2: real)
    requires x1 < x2
    ensures Interpolate(x2, x1, y1, x2, y2) == y2
  {
    LineIsUnique(x2, y2, x1, y1, x2, y2);
  }

  // ----- The mean of the samples

  /** Numbers from 0 up to the last cdf. */
  predicate IsGrid(xs: seq<real>, end: real) {
    xs != [] && xs[0] == 0.0 && xs[|xs| - 1] == end && forall k :: 0 < k < |xs| ==> xs[k - 1] < xs[k]
  }

  /** Each step of the grid times the sample at its start, and times the sample at its end. */
  function LowSum(t: seq<Entry>, xs: seq<real>): real
    requires t != []
  {
    if |xs| < 2 then 0.0
    else
      var n := |xs| - 1;
      LowSum(t, xs[..n]) + Sample(t, xs[n - 1]) * (xs[n] - xs[n - 1])
  }

  function HighSum(t: seq<Entry>, xs: seq<real>): real
    requires t != []
  {
    if |xs| < 2 then 0.0
    else
      var n := |xs| - 1;
      HighSum(t, xs[..n]) + Sample(t, xs[n]) * (xs[n] - xs[n - 1])
  }

  lemma {:induction false} AreaOverGrid(t: seq<Entry>, xs: seq<real>, end: real)
    requires IsTable(t) && IsGrid(xs, end) && end <= t[|t| - 1].cdf
    ensures end >= 0.0 && Find(t, end) < |t|
    ensures LowSum(t, xs) <= AreaTo(t, end) <= HighSum(t, xs)
    decreases |xs|
  {
    hide IsTable, Find, Sample, SampleAt, Interpolate, AverageFrom, AreaTo;
    NotEmpty(t);
    if |xs| == 1 {
      NoAreaAtZero(t);
    } else {
      var n := |xs| - 1;
      AreaOverGrid(t, xs[..n], xs[n - 1]);
      AreaGrows(t, xs[n - 1], end);
    }
  }

  /**
   * However finely one cuts the numbers that are drawn, the average lies between the sums of the lower and of the
   * upper samples: it is the integral of the sampler, from 0 to the last cdf.
   */
  lemma AverageIsMean(t: seq<Entry>, xs: seq<real>)
    requires IsTable(t) && IsGrid(xs, t[|t| - 1].cdf)
    ensures LowSum(t, xs) <= Average(t) <= HighSum(t, xs)
  {
    hide *;
    NotEmpty(t);
    AreaOverGrid(t, xs, t[|t| - 1].cdf);
    AllArea(t);
  }

  lemma Taller(h: real, a: real, b: real, c: real, step: real, d: real)
    requires h <= d * (b - a) && b <= c && step <= d
    ensures h + (c - b) * step <= d * (c - a)
  {
    Product(c - b, d - step);
    assert (c - b) * (d - step) == d * (c - a) - d * (b - a) - (c - b) * step;
  }

  /** The two sums come together: on a grid of steps of at most d they differ by at most d times the samples' range. */
  lemma {:induction false} SumsClose(t: seq<Entry>, xs: seq<real>, end: real, d: real)
    requires IsTable(t) && IsGrid(xs, end) && end <= t[|t| - 1].cdf
    requires forall k :: 0 < k < |xs| ==> xs[k] - xs[k - 1] <= d
    ensures end >= 0.0
    ensures HighSum(t, xs) - LowSum(t, xs) <= d * (Sample(t, end) - Sample(t, 0.0))
    decreases |xs|
  {
    hide IsTable, Find, Sample, SampleAt, Interpolate, LowSum, HighSum;
    NotEmpty(t);
    if |xs| == 1 {
      NoSums(t, xs, d);
    } else {
      var n := |xs| - 1;
      SumsClose(t, xs[..n], xs[n - 1], d);
      SampleMonotone(t, xs[n - 1], end);
      LastStep(t, xs);
      Taller(HighSum(t, xs[..n]) - LowSum(t, xs[..n]), Sample(t, 0.0), Sample(t, xs[n - 1]), Sample(t, end),
             end - xs[n - 1], d);
    }
  }

  lemma NoSums(t: seq<Entry>, xs: seq<real>, d: real)
    requires t != [] && |xs| == 1
    ensures HighSum(t, xs) - LowSum(t, xs) == d * (Sample(t, xs[0]) - Sample(t, xs[0]))
  {
    hide Sample;
  }

  lemma LastStep(t: seq<Entry>, xs: seq<real>)
    requires t != [] && |xs| > 1
    ensures var n := |xs| - 1;
            HighSum(t, xs) - LowSum(t, xs) ==
            HighSum(t, xs[..n]) - LowSum(t, xs[..n]) + (Sample(t, xs[n]) - Sample(t, xs[n - 1])) * (xs[n] - xs[n - 1])
  {
    hide Sample;
  }

  // ----- The average from the entries alone

  /** Each rise of the cdf times the value before it, and times the value it rises to. */
  function Under(p: Entry, es: seq<Entry>): real
    decreases |es|
  {
    if es == [] then 0.0 else p.value * (es[0].cdf - p.cdf) + Under(es[0], es[1..])
  }

  function Over(p: Entry, es: seq<Entry>): real
    decreases |es|
  {
    if es == [] then 0.0 else es[0].value * (es[0].cdf - p.cdf) + Over(es[0], es[1..])
  }

  lemma {:induction false} SlicesBetween(p: Entry, es: seq<Entry>)
    requires Climbs(p, es)
    ensures Under(p, es) <= AverageFrom(p, es) <= Over(p, es)
    decreases |es|
  {
    hide Slice;
    if es != [] {
      SliceWithin(p, es[0]);
      SlicesBetween(es[0], es[1..]);
    }
  }

  /** No table's average is below its values before each rise, or above those it rises to. */
  lemma AverageBetween(t: seq<Entry>)
    requires IsTable(t)
    ensures Under(ORIGIN, t) <= Average(t) <= Over(ORIGIN, t)
  {
    var k := |t| - 1;
    assert t == t[0..k] + [t[k]];
    assert k > 0 ==> t[k - 1].value <= t[k].value && t[k - 1].cdf <= t[k].cdf;
    EntriesClimb(t, ORIGIN, 0, k, t[k]);
    SlicesBetween(ORIGIN, t);
  }
}
