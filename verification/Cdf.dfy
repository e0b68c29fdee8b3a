/** examples/dstcp/cdf.c: a growing table of distribution points, its average, and sampling from it. */
module Cdf {
  import opened CdfMath

  const TG_CDF_TABLE_ENTRY: nat := 32

  function Min(a: real, b: real): real { if b < a then b else a }
  function Max(a: real, b: real): real { if a < b then b else a }

  /** The smallest of a start value and the cdfs of a list, and the largest. */
  function MinCdf(start: real, t: seq<Entry>): real {
    if t == [] then start else Min(MinCdf(start, t[..|t| - 1]), t[|t| - 1].cdf)
  }

  function MaxCdf(start: real, t: seq<Entry>): real {
    if t == [] then start else Max(MaxCdf(start, t[..|t| - 1]), t[|t| - 1].cdf)
  }

  /** No bound is passed, and each is the start value or some cdf. */
  lemma {:induction false} BoundsAreMet(start: real, t: seq<Entry>)
    ensures MinCdf(start, t) <= start <= MaxCdf(start, t)
    ensures forall e :: e in t ==> MinCdf(start, t) <= e.cdf <= MaxCdf(start, t)
    ensures MinCdf(start, t) == start || exists e :: e in t && MinCdf(start, t) == e.cdf
    ensures MaxCdf(start, t) == start || exists e :: e in t && MaxCdf(start, t) == e.cdf
  {
    if t != [] {
      var n := |t| - 1;
      BoundsAreMet(start, t[..n]);
      assert t == t[..n] + [t[n]];
    }
  }

  lemma NoneYet(min: real, max: real, t: seq<Entry>)
    ensures MinCdf(min, t[..0]) == min && MaxCdf(max, t[..0]) == max
  {
  }

  lemma OneMore(min: real, max: real, t: seq<Entry>, l: nat)
    requires l < |t|
    ensures t[..l + 1] == t[..l] + [t[l]]
    ensures MinCdf(min, t[..l + 1]) == Min(MinCdf(min, t[..l]), t[l].cdf)
    ensures MaxCdf(max, t[..l + 1]) == Max(MaxCdf(max, t[..l]), t[l].cdf)
  {
    assert t[..l + 1][..l] == t[..l];
  }

  class CdfTable {
    var entries: array<Entry>
    var numEntry: nat
    var maxEntry: nat
    var minCdf: real
    var maxCdf: real

    ghost predicate Valid()
      reads this
    {
      numEntry <= maxEntry == entries.Length && maxEntry > 0
    }

    ghost function Contents(): seq<Entry>
      reads this, entries
      requires Valid()
    {
      entries[..numEntry]
    }

    /** init_cdf */
    constructor ()
      ensures Valid() && fresh(entries) && Contents() == [] && maxEntry == 32 && minCdf == 0.0 && maxCdf == 1.0
    {
      entries := new Entry[TG_CDF_TABLE_ENTRY];
      numEntry, maxEntry, minCdf, maxCdf := 0, TG_CDF_TABLE_ENTRY, 0.0, 1.0;
    }

    /** load_cdf's resizing: twice the room, the same contents. */
    method Resize()
      requires Valid()
      modifies this
      ensures Valid() && fresh(entries) && maxEntry == 2 * old(maxEntry)
      ensures Contents() == old(Contents())
      ensures numEntry == old(numEntry) && minCdf == old(minCdf) && maxCdf == old(maxCdf)
    {
      var e := new Entry[2 * maxEntry];
      for i := 0 to numEntry
        invariant unchanged(this)
        invariant e[..i] == entries[..i]
      {
        e[i] := entries[i];
      }
      maxEntry := 2 * maxEntry;
      entries := e;
    }

    /** One turn of load_cdf's loop. */
    method LoadLine(e: Entry)
      requires Valid()
      modifies this, entries
      ensures Valid() && (entries == old(entries) || fresh(entries))
      ensures Contents() == old(Contents()) + [e]
      ensures maxEntry == if old(numEntry) < old(maxEntry) then old(maxEntry) else 2 * old(maxEntry)
      ensures minCdf == Min(old(minCdf), e.cdf) && maxCdf == Max(old(maxCdf), e.cdf)
    {
      if numEntry >= maxEntry {
        Resize();
      }
      entries[numEntry] := e;
      if minCdf > entries[numEntry].cdf {
        minCdf := entries[numEntry].cdf;
      }
      if maxCdf < entries[numEntry].cdf {
        maxCdf := entries[numEntry].cdf;
      }
      numEntry := numEntry + 1;
      assert Contents()[..numEntry - 1] == old(Contents());
    }

    /** load_cdf, from the number pairs on the lines of the file. */
    method Load(lines: seq<Entry>)
      requires Valid()
      modifies this, entries
      ensures Valid() && (entries == old(entries) || fresh(entries))
      ensures Contents() == old(Contents()) + lines
      ensures minCdf == MinCdf(old(minCdf), lines) && maxCdf == MaxCdf(old(maxCdf), lines)
    {
      hide MinCdf, MaxCdf, Min, Max, Contents;
      NoneYet(old(minCdf), old(maxCdf), lines);
      assert old(Contents()) + [] == old(Contents());
      for l := 0 to |lines|
        invariant Valid() && (entries == old(entries) || fresh(entries))
        invariant Contents() == old(Contents()) + lines[..l]
        invariant minCdf == MinCdf(old(minCdf), lines[..l]) && maxCdf == MaxCdf(old(maxCdf), lines[..l])
      {
        LoadLine(lines[l]);
        OneMore(old(minCdf), old(maxCdf), lines, l);
      }
      assert lines[..|lines|] == lines;
    }

    /** avg_cdf */
    method Avg() returns (avg: real)
      requires Valid()
      ensures avg == Average(Contents())
    {
      avg := 0.0;
      ghost var t := Contents();
      for i := 0 to numEntry
        invariant avg + AverageFrom(Previous(t, i), t[i..]) == Average(t)
      {
        var value, prob;
        if i == 0 {
          value := entries[i].value / 2.0;
          prob := entries[i].cdf;
        } else {
          value := (entries[i].value + entries[i - 1].value) / 2.0;
          prob := entries[i].cdf - entries[i - 1].cdf;
        }
        assert t[i..] == [t[i]] + t[i + 1..];
        AverageHead(Previous(t, i), t[i], t[i + 1..]);
        avg := avg + value * prob;
      }
      assert t[numEntry..] == [];
    }

    /** gen_random_cdf, with the number drawn between minCdf and maxCdf as an argument. */
    method GenRandom(x: real) returns (value: real)
      requires Valid() && numEntry > 0
      ensures value == Sample(Contents(), x)
    {
      ghost var t := Contents();
      for i := 0 to numEntry
        invariant forall j :: 0 <= j < i ==> t[j].cdf < x
      {
        if x <= entries[i].cdf {
          FindIs(t, x, i);
          if i == 0 {
            return Interpolate(x, 0.0, 0.0, entries[i].cdf, entries[i].value);
          } else {
            return Interpolate(x, entries[i - 1].cdf, entries[i - 1].value, entries[i].cdf, entries[i].value);
          }
        }
      }
      FindIs(t, x, numEntry);
      return entries[numEntry - 1].value;
    }
  }

  /** A loaded table is sampled from 0 up whenever no cdf in it is negative, whatever was drawn. */
  lemma {:induction false} LoadedMinIsZero(t: seq<Entry>)
    requires forall i :: 0 <= i < |t| ==> t[i].cdf >= 0.0
    ensures MinCdf(0.0, t) == 0.0
  {
    if t != [] {
      LoadedMinIsZero(t[..|t| - 1]);
    }
  }

  /** And never above its last cdf, or 1 if that is more. */
  lemma {:induction false} LoadedMaxIsLast(t: seq<Entry>)
    requires t != [] && forall i, j :: 0 <= i < j < |t| ==> t[i].cdf <= t[j].cdf
    ensures MaxCdf(1.0, t) == Max(1.0, t[|t| - 1].cdf)
  {
    if |t| > 1 {
      LoadedMaxIsLast(t[..|t| - 1]);
    } else {
      assert t[..0] == [];
    }
  }
}
