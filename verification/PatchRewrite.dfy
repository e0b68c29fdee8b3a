/**
 * utils/check-style.py, remove_trailing_whitespace_changes, on the lines of a chunk as values: what it does
 * to the two views of a chunk, whose context lines are shared between both.
 */
module PatchRewrite {
  import opened PatchText

  /** The positions of the lines src() and dst() list. */
  function SrcAt(lines: seq<Line>): (at: seq<nat>)
    ensures forall k :: 0 <= k < |at| ==> at[k] < |lines|
  {
    if lines == [] then []
    else SrcAt(lines[..|lines| - 1]) + if lines[|lines| - 1].IsSrc() then [|lines| - 1] else []
  }

  function DstAt(lines: seq<Line>): (at: seq<nat>)
    ensures forall k :: 0 <= k < |at| ==> at[k] < |lines|
  {
    if lines == [] then []
    else DstAt(lines[..|lines| - 1]) + if lines[|lines| - 1].IsDst() then [|lines| - 1] else []
  }

  ghost predicate InBounds(lines: seq<Line>, at: seq<nat>) {
    forall k :: 0 <= k < |at| ==> at[k] < |lines|
  }

  /** They list every line of their kind once, in order. */
  ghost predicate Lists(at: seq<nat>, lines: seq<Line>, kind: Kind) {
    && (forall k :: 0 <= k < |at| ==> at[k] < |lines| && (lines[at[k]].kind == kind || lines[at[k]].kind == Both))
    && (forall k, m :: 0 <= k < m < |at| ==> at[k] < at[m])
    && (forall p :: 0 <= p < |lines| && (lines[p].kind == kind || lines[p].kind == Both) ==> p in at)
  }

  lemma {:induction false} SrcAtLists(lines: seq<Line>)
    ensures Lists(SrcAt(lines), lines, Src)
  {
    if lines != [] { SrcAtLists(lines[..|lines| - 1]); }
  }

  lemma {:induction false} DstAtLists(lines: seq<Line>)
    ensures Lists(DstAt(lines), lines, Dst)
  {
    if lines != [] { DstAtLists(lines[..|lines| - 1]); }
  }

  /** How many pairs of source and destination lines the loop looks at. */
  function Pairs(lines: seq<Line>): nat {
    if |SrcAt(lines)| <= |DstAt(lines)| then |SrcAt(lines)| else |DstAt(lines)|
  }

  /** The loop runs out of destination lines, and gives up on everything that follows. */
  predicate Stops(lines: seq<Line>) {
    |DstAt(lines)| < |SrcAt(lines)|
  }

  /** s is d with one more character, a space or a tab: what the white-space pattern comes down to on a line. */
  predicate LostBlank(s: string, d: string) {
    s != "" && (s[|s| - 1] == ' ' || s[|s| - 1] == '\t') && s[..|s| - 1] == d
  }

  /** From i on the text is blanks and nothing else, and at least one. */
  predicate BlankFrom(s: string, i: nat) {
    i < |s| && forall k :: i <= k < |s| ==> s[k] == ' ' || s[k] == '\t'
  }

  /** Where "^(.*)([ \t]+)$" cuts a text, which has no line end: its first group takes all it can. */
  ghost predicate CutsAt(s: string, i: nat) {
    BlankFrom(s, i) && forall j :: i < j < |s| ==> !BlankFrom(s, j)
  }

  /** What the pattern comes down to: its second group is the last character. */
  lemma LostBlankIs(s: string, d: string)
    ensures LostBlank(s, d) <==> s == d + " " || s == d + "\t"
    ensures LostBlank(s, d) <==> exists i: nat :: CutsAt(s, i) && s[..i] == d
    ensures forall i: nat :: CutsAt(s, i) ==> s[i..] == [s[|s| - 1]]
  {
    if s != "" {
      var n := |s| - 1;
      assert s == s[..n] + [s[n]];
      assert CutsAt(s, n) <==> BlankFrom(s, n);
      forall i: nat | CutsAt(s, i)
        ensures i == n
      {
        assert BlankFrom(s, n);
      }
    }
    if s == d + " " || s == d + "\t" { assert s[..|s| - 1] == d; }
  }

  /** One turn of the loop, for the source line at p and the destination line at q. */
  function RestoreAt(lines: seq<Line>, p: nat, q: nat): seq<Line>
    requires p < |lines| && q < |lines|
  {
    if LostBlank(lines[p].text, lines[q].text) then
      lines[q := lines[q].(text := lines[q].text + [lines[p].text[|lines[p].text| - 1]])]
    else lines
  }

  /** The first n turns; where the views stand in the chunk is settled before them. */
  function Restored(lines: seq<Line>, src: seq<nat>, dst: seq<nat>, n: nat): (r: seq<Line>)
    requires n <= |src| && n <= |dst|
    requires forall k :: 0 <= k < n ==> src[k] < |lines| && dst[k] < |lines|
    ensures |r| == |lines|
  {
    if n == 0 then lines else RestoreAt(Restored(lines, src, dst, n - 1), src[n - 1], dst[n - 1])
  }

  lemma RestoredStep(lines: seq<Line>, src: seq<nat>, dst: seq<nat>, n: nat)
    requires n < |src| && n < |dst|
    requires forall k :: 0 <= k < n + 1 ==> src[k] < |lines| && dst[k] < |lines|
    ensures Restored(lines, src, dst, n + 1) == RestoreAt(Restored(lines, src, dst, n), src[n], dst[n])
  {
  }

  function Rewritten(lines: seq<Line>): (r: seq<Line>)
    ensures |r| == |lines|
  {
    Restored(lines, SrcAt(lines), DstAt(lines), Pairs(lines))
  }

  // ----- What never changes, and what only grows

  lemma {:induction false} TextsGrow(lines: seq<Line>, src: seq<nat>, dst: seq<nat>, n: nat, p: nat)
    requires n <= |src| && n <= |dst| && p < |lines|
    requires forall k :: 0 <= k < n ==> src[k] < |lines| && dst[k] < |lines|
    ensures Restored(lines, src, dst, n)[p].kind == lines[p].kind
    ensures |lines[p].text| <= |Restored(lines, src, dst, n)[p].text|
  {
    if n > 0 { TextsGrow(lines, src, dst, n - 1, p); }
  }

  lemma {:induction false} TextsKeepGrowing(lines: seq<Line>, src: seq<nat>, dst: seq<nat>, m: nat, n: nat, p: nat)
    requires m <= n <= |src| && n <= |dst| && p < |lines|
    requires forall k :: 0 <= k < n ==> src[k] < |lines| && dst[k] < |lines|
    ensures |Restored(lines, src, dst, m)[p].text| <= |Restored(lines, src, dst, n)[p].text|
  {
    if m < n { TextsKeepGrowing(lines, src, dst, m, n - 1, p); }
  }

  lemma {:induction false} SameKinds(lines: seq<Line>, lines': seq<Line>)
    requires |lines| == |lines'| && forall p :: 0 <= p < |lines| ==> lines[p].kind == lines'[p].kind
    ensures SrcAt(lines) == SrcAt(lines') && DstAt(lines) == DstAt(lines')
  {
    if lines != [] {
      SameKinds(lines[..|lines| - 1], lines'[..|lines| - 1]);
    }
  }

  /** Kinds, and with them both views' sizes and positions, are kept. */
  lemma RewrittenKeepsKinds(lines: seq<Line>)
    ensures forall p :: 0 <= p < |lines| ==> Rewritten(lines)[p].kind == lines[p].kind
    ensures SrcAt(Rewritten(lines)) == SrcAt(lines) && DstAt(Rewritten(lines)) == DstAt(lines)
  {
    forall p | 0 <= p < |lines|
      ensures Rewritten(lines)[p].kind == lines[p].kind
    {
      TextsGrow(lines, SrcAt(lines), DstAt(lines), Pairs(lines), p);
    }
    SameKinds(lines, Rewritten(lines));
  }

  lemma {:induction false} SrcByPosition(lines: seq<Line>)
    ensures |SrcLines(lines)| == |SrcAt(lines)|
    ensures forall k :: 0 <= k < |SrcAt(lines)| ==> SrcLines(lines)[k] == lines[SrcAt(lines)[k]]
  {
    if lines != [] { SrcByPosition(lines[..|lines| - 1]); }
  }

  lemma {:induction false} DstByPosition(lines: seq<Line>)
    ensures |DstLines(lines)| == |DstAt(lines)|
    ensures forall k :: 0 <= k < |DstAt(lines)| ==> DstLines(lines)[k] == lines[DstAt(lines)[k]]
  {
    if lines != [] { DstByPosition(lines[..|lines| - 1]); }
  }

  // ----- What becomes of each line

  /** Turn i has something to give back: its source line as it stands then, its destination line as it always stood. */
  predicate Acts(lines: seq<Line>, src: seq<nat>, dst: seq<nat>, i: nat)
    requires i < |src| && i < |dst| && forall k :: 0 <= k <= i ==> src[k] < |lines| && dst[k] < |lines|
  {
    LostBlank(Restored(lines, src, dst, i)[src[i]].text, lines[dst[i]].text)
  }

  /** A line at a destination's position changes in that destination's turn only, and then equals its source line. */
  lemma {:induction false} OnlyItsTurn(lines: seq<Line>, src: seq<nat>, dst: seq<nat>, n: nat, i: nat)
    requires n <= |src| && n <= |dst| && i < |dst| && InBounds(lines, src) && InBounds(lines, dst)
    requires forall k, m :: 0 <= k < m < |dst| ==> dst[k] < dst[m]
    ensures Restored(lines, src, dst, n)[dst[i]] ==
            if i < n && Acts(lines, src, dst, i)
            then lines[dst[i]].(text := Restored(lines, src, dst, i)[src[i]].text) else lines[dst[i]]
  {
    if n > 0 {
      OnlyItsTurn(lines, src, dst, n - 1, i);
      var before := Restored(lines, src, dst, n - 1);
      var s, d := before[src[n - 1]].text, before[dst[n - 1]].text;
      assert LostBlank(s, d) ==> d + [s[|s| - 1]] == s;
      assert i != n - 1 ==> dst[i] != dst[n - 1];
    }
  }

  lemma {:induction false} OthersStay(lines: seq<Line>, src: seq<nat>, dst: seq<nat>, n: nat, p: nat)
    requires n <= |src| && n <= |dst| && InBounds(lines, src) && InBounds(lines, dst)
    requires p < |lines| && p !in dst
    ensures Restored(lines, src, dst, n)[p] == lines[p]
  {
    if n > 0 { OthersStay(lines, src, dst, n - 1, p); }
  }

  /** The destination view after the rewrite, line by line, whether or not context lines are changed. */
  lemma DestinationAfter(lines: seq<Line>, i: nat)
    requires i < |DstAt(lines)|
    ensures InBounds(lines, SrcAt(lines)) && InBounds(lines, DstAt(lines))
    ensures Rewritten(lines)[DstAt(lines)[i]] ==
            if i < Pairs(lines) && Acts(lines, SrcAt(lines), DstAt(lines), i)
            then lines[DstAt(lines)[i]].(text := Restored(lines, SrcAt(lines), DstAt(lines), i)[SrcAt(lines)[i]].text)
            else lines[DstAt(lines)[i]]
  {
    DstAtLists(lines);
    OnlyItsTurn(lines, SrcAt(lines), DstAt(lines), Pairs(lines), i);
  }

  /** The same line, or a destination line with one more blank at its end. */
  predicate KeptOrBlank(l: Line, l': Line) {
    l' == l || (l.IsDst() && l'.kind == l.kind && LostBlank(l'.text, l.text))
  }

  lemma EveryLineKeptOrBlank(lines: seq<Line>)
    ensures forall p :: 0 <= p < |lines| ==> KeptOrBlank(lines[p], Rewritten(lines)[p])
  {
    var dst := DstAt(lines);
    DstAtLists(lines);
    forall p | 0 <= p < |lines|
      ensures KeptOrBlank(lines[p], Rewritten(lines)[p])
    {
      if p in dst {
        var i :| 0 <= i < |dst| && dst[i] == p;
        hide Restored, SrcAt, DstAt;
        DestinationAfter(lines, i);
      } else {
        OthersStay(lines, SrcAt(lines), dst, Pairs(lines), p);
      }
    }
  }

  // ----- When the source view is left alone

  /** The i-th pair of the original lines is one the loop acts on. */
  predicate Hit(lines: seq<Line>, i: nat)
    requires i < Pairs(lines)
  {
    LostBlank(lines[SrcAt(lines)[i]].text, lines[DstAt(lines)[i]].text)
  }

  /** None of the first n pairs asks for a change to a context line. */
  ghost predicate NoneDirty(lines: seq<Line>, src: seq<nat>, dst: seq<nat>, n: nat)
    requires n <= |src| && n <= |dst|
    requires InBounds(lines, src) && InBounds(lines, dst)
  {
    forall i :: 0 <= i < n && LostBlank(lines[src[i]].text, lines[dst[i]].text) ==> lines[dst[i]].kind != Both
  }

  ghost predicate CleanUpTo(lines: seq<Line>, n: nat)
    requires n <= Pairs(lines)
  {
    NoneDirty(lines, SrcAt(lines), DstAt(lines), n)
  }

  ghost predicate Clean(lines: seq<Line>) {
    CleanUpTo(lines, Pairs(lines))
  }

  /** What n turns that touch no context line come to: the acted-on destination lines equal their sources. */
  ghost predicate Repaired(lines: seq<Line>, src: seq<nat>, dst: seq<nat>, n: nat, lines': seq<Line>)
    requires n <= |src| && n <= |dst|
    requires InBounds(lines, src) && InBounds(lines, dst)
  {
    && |lines'| == |lines|
    && (forall p :: 0 <= p < |lines| && lines[p].kind != Dst ==> lines'[p] == lines[p])
    && (forall i :: 0 <= i < |dst| ==>
          lines'[dst[i]] == if i < n && LostBlank(lines[src[i]].text, lines[dst[i]].text)
                            then Line(Dst, lines[src[i]].text) else lines[dst[i]])
  }

  lemma NoTurn(lines: seq<Line>, src: seq<nat>, dst: seq<nat>)
    requires Lists(src, lines, Src) && Lists(dst, lines, Dst)
    ensures InBounds(lines, src) && InBounds(lines, dst)
    ensures Repaired(lines, src, dst, 0, lines)
  {
  }

  lemma {:induction false} CleanTurns(lines: seq<Line>, src: seq<nat>, dst: seq<nat>, n: nat)
    requires Lists(src, lines, Src) && Lists(dst, lines, Dst) && n <= |src| && n <= |dst|
    requires InBounds(lines, src) && InBounds(lines, dst) && NoneDirty(lines, src, dst, n)
    ensures Repaired(lines, src, dst, n, Restored(lines, src, dst, n))
  {
    hide Lists, Repaired, LostBlank, RestoreAt;
    NoTurn(lines, src, dst);
    if n > 0 {
      CleanTurns(lines, src, dst, n - 1);
      OneMoreTurn(lines, src, dst, n - 1, Restored(lines, src, dst, n - 1));
    }
  }

  lemma OneMoreTurn(lines: seq<Line>, src: seq<nat>, dst: seq<nat>, n: nat, before: seq<Line>)
    requires Lists(src, lines, Src) && Lists(dst, lines, Dst) && n < |src| && n < |dst|
    requires LostBlank(lines[src[n]].text, lines[dst[n]].text) ==> lines[dst[n]].kind != Both
    requires Repaired(lines, src, dst, n, before)
    ensures Repaired(lines, src, dst, n + 1, RestoreAt(before, src[n], dst[n]))
  {
    var p, q := src[n], dst[n];
    assert before[p] == lines[p] && before[q] == lines[q];
    assert forall i :: 0 <= i < |dst| && i != n ==> dst[i] != q;
    if LostBlank(lines[p].text, lines[q].text) {
      assert lines[p].text == lines[q].text + [lines[p].text[|lines[p].text| - 1]];
    }
  }

  lemma {:induction false} FirstDirty(lines: seq<Line>, n: nat) returns (i: nat)
    requires n <= Pairs(lines) && !CleanUpTo(lines, n)
    ensures i < n && CleanUpTo(lines, i) && Hit(lines, i) && lines[DstAt(lines)[i]].kind == Both
  {
    hide Pairs, LostBlank;
    if CleanUpTo(lines, n - 1) {
      i := n - 1;
    } else {
      i := FirstDirty(lines, n - 1);
    }
  }

  /** A context line that a turn acts on gets longer. */
  lemma DirtyTurnGrows(lines: seq<Line>, src: seq<nat>, dst: seq<nat>, i: nat)
    requires Lists(src, lines, Src) && Lists(dst, lines, Dst) && i < |src| && i < |dst|
    requires Repaired(lines, src, dst, i, Restored(lines, src, dst, i))
    requires LostBlank(lines[src[i]].text, lines[dst[i]].text) && lines[dst[i]].kind == Both
    ensures |Restored(lines, src, dst, i + 1)[dst[i]].text| == |lines[dst[i]].text| + 1
  {
    var before := Restored(lines, src, dst, i);
    assert before[src[i]] == lines[src[i]] && before[dst[i]] == lines[dst[i]];
  }

  /** The first pair that asks for a change to a context line gets it, and keeps it. */
  lemma DirtyPairGrows(lines: seq<Line>, i: nat)
    requires i < Pairs(lines) && CleanUpTo(lines, i) && Hit(lines, i) && lines[DstAt(lines)[i]].kind == Both
    ensures |lines[DstAt(lines)[i]].text| < |Rewritten(lines)[DstAt(lines)[i]].text|
  {
    hide Lists, Repaired, LostBlank, Restored, RestoreAt, SrcAt, DstAt;
    SrcAtLists(lines);
    DstAtLists(lines);
    DirtyTurnStays(lines, SrcAt(lines), DstAt(lines), i, Pairs(lines));
  }

  lemma DirtyTurnStays(lines: seq<Line>, src: seq<nat>, dst: seq<nat>, i: nat, n: nat)
    requires Lists(src, lines, Src) && Lists(dst, lines, Dst) && i < n <= |src| && n <= |dst|
    requires InBounds(lines, src) && InBounds(lines, dst) && NoneDirty(lines, src, dst, i)
    requires LostBlank(lines[src[i]].text, lines[dst[i]].text) && lines[dst[i]].kind == Both
    ensures |lines[dst[i]].text| < |Restored(lines, src, dst, n)[dst[i]].text|
  {
    hide Lists, Repaired, LostBlank, Restored, RestoreAt;
    CleanTurns(lines, src, dst, i);
    DirtyTurnGrows(lines, src, dst, i);
    TextsKeepGrowing(lines, src, dst, i + 1, n, dst[i]);
  }

  lemma InSource(lines: seq<Line>, src: seq<nat>, p: nat) returns (k: nat)
    requires Lists(src, lines, Src) && p < |lines| && lines[p].kind == Both
    ensures k < |src| && src[k] == p
  {
    k :| 0 <= k < |src| && src[k] == p;
  }

  lemma CleanKeepsSource(lines: seq<Line>)
    requires Clean(lines)
    ensures SrcLines(Rewritten(lines)) == SrcLines(lines)
  {
    hide Lists, SrcAt, DstAt, SrcLines, LostBlank, Restored;
    SrcAtLists(lines);
    DstAtLists(lines);
    SrcByPosition(lines);
    SrcByPosition(Rewritten(lines));
    RewrittenKeepsKinds(lines);
    CleanTurns(lines, SrcAt(lines), DstAt(lines), Pairs(lines));
    SourceNotDst(lines);
  }

  lemma SourceNotDst(lines: seq<Line>)
    ensures forall k :: 0 <= k < |SrcAt(lines)| ==> lines[SrcAt(lines)[k]].kind != Dst
  {
    SrcAtLists(lines);
  }

  /** The source view is left unchanged iff no pair asks for a change to a context line. */
  lemma SourceKeptIffClean(lines: seq<Line>)
    ensures SrcLines(Rewritten(lines)) == SrcLines(lines) <==> Clean(lines)
  {
    if Clean(lines) {
      CleanKeepsSource(lines);
    } else {
      hide Lists, SrcAt, DstAt, SrcLines, Rewritten;
      var lines' := Rewritten(lines);
      SrcAtLists(lines);
      SrcByPosition(lines);
      SrcByPosition(lines');
      RewrittenKeepsKinds(lines);
      var i := FirstDirty(lines, Pairs(lines));
      DirtyPairGrows(lines, i);
      var k := InSource(lines, SrcAt(lines), DstAt(lines)[i]);
      assert SrcLines(lines')[k] == lines'[SrcAt(lines)[k]] && SrcLines(lines)[k] == lines[SrcAt(lines)[k]];
    }
  }

  /**
   * Then a destination line changes only by getting back the one blank that makes it equal to its paired source
   * line, and every line that can be repaired so is.
   */
  lemma DestinationRepaired(lines: seq<Line>)
    requires Clean(lines)
    ensures |DstLines(Rewritten(lines))| == |DstLines(lines)| && Pairs(lines) <= |SrcLines(lines)|
    ensures forall i :: 0 <= i < |DstLines(lines)| ==>
              DstLines(Rewritten(lines))[i] ==
              if i < Pairs(lines) && LostBlank(SrcLines(lines)[i].text, DstLines(lines)[i].text)
              then Line(Dst, SrcLines(lines)[i].text) else DstLines(lines)[i]
  {
    SrcAtLists(lines);
    DstAtLists(lines);
    SrcByPosition(lines);
    DstByPosition(lines);
    DstByPosition(Rewritten(lines));
    RewrittenKeepsKinds(lines);
    CleanTurns(lines, SrcAt(lines), DstAt(lines), Pairs(lines));
  }

  /** Every context line has the same index in both views. */
  ghost predicate Aligned(lines: seq<Line>) {
    forall i, j :: 0 <= i < |SrcAt(lines)| && 0 <= j < |DstAt(lines)| && SrcAt(lines)[i] == DstAt(lines)[j] ==> i == j
  }

  lemma AlignedIsClean(lines: seq<Line>)
    requires Aligned(lines)
    ensures Clean(lines)
  {
    var src, dst := SrcAt(lines), DstAt(lines);
    SrcAtLists(lines);
    forall i | 0 <= i < Pairs(lines) && lines[dst[i]].kind == Both
      ensures !LostBlank(lines[src[i]].text, lines[dst[i]].text)
    {
      var k := InSource(lines, src, dst[i]);
      assert k == i;
    }
  }

  const SHIFTED := [Line(Src, "a"), Line(Both, "x "), Line(Both, "x"), Line(Dst, "b")]

  lemma ShiftedViews()
    ensures SrcAt(SHIFTED) == [0, 1, 2] && DstAt(SHIFTED) == [1, 2, 3]
  {
    hide LostBlank;
    var l3, l2, l1 := SHIFTED[..3], SHIFTED[..2], SHIFTED[..1];
    assert l3[..2] == l2 && l2[..1] == l1 && l1[..0] == [];
    assert SrcAt(l1) == [0] && DstAt(l1) == [];
    assert SrcAt(l2) == [0, 1] && DstAt(l2) == [1];
    assert SrcAt(l3) == [0, 1, 2] && DstAt(l3) == [1, 2];
  }

  /** Without that, the rewrite can change what a patch says was there before. */
  lemma SourceCanChange()
    ensures !Stops(SHIFTED) && !Aligned(SHIFTED) && SrcLines(Rewritten(SHIFTED)) != SrcLines(SHIFTED)
  {
    hide SrcLines, SrcAt, DstAt, Rewritten;
    ShiftedViews();
    assert Hit(SHIFTED, 1);
    assert SrcAt(SHIFTED)[1] == DstAt(SHIFTED)[0];
    SourceKeptIffClean(SHIFTED);
  }

  // ----- All chunks of a patch set

  /** How many chunks are looked at: all, or those up to the first that stops the rewrite. */
  function ReachedCount(chunks: seq<Chunk>): (n: nat)
    ensures n <= |chunks|
    ensures forall i :: 0 <= i < n - 1 ==> !Stops(chunks[i].lines)
    ensures n < |chunks| ==> n > 0 && Stops(chunks[n - 1].lines)
  {
    if chunks == [] then 0 else if Stops(chunks[0].lines) then 1 else 1 + ReachedCount(chunks[1..])
  }

  function RewriteChunk(c: Chunk): Chunk {
    c.(lines := Rewritten(c.lines))
  }

  /** The first n chunks rewritten. */
  function RewriteFirst(chunks: seq<Chunk>, n: nat): (r: seq<Chunk>)
    ensures |r| == |chunks|
    ensures forall i :: 0 <= i < |chunks| ==> r[i] == if i < n then RewriteChunk(chunks[i]) else chunks[i]
  {
    seq(|chunks|, i requires 0 <= i < |chunks| => if i < n then RewriteChunk(chunks[i]) else chunks[i])
  }

  lemma NothingRewritten(chunks: seq<Chunk>)
    ensures RewriteFirst(chunks, 0) == chunks
  {
  }

  lemma RewriteNext(chunks: seq<Chunk>, n: nat)
    requires n < |chunks|
    ensures RewriteFirst(chunks, n)[n] == chunks[n]
    ensures RewriteFirst(chunks, n)[n := RewriteChunk(chunks[n])] == RewriteFirst(chunks, n + 1)
  {
    hide RewriteChunk;
  }

  function RewriteRow(chunks: seq<Chunk>): seq<Chunk> {
    RewriteFirst(chunks, ReachedCount(chunks))
  }

  lemma ReachedCountIs(chunks: seq<Chunk>, n: nat)
    requires n <= |chunks| && forall i :: 0 <= i < n - 1 ==> !Stops(chunks[i].lines)
    requires n < |chunks| ==> n > 0 && Stops(chunks[n - 1].lines)
    ensures ReachedCount(chunks) == n
  {
    hide Stops;
  }

  /** All source views of a patch set are kept iff every chunk that is reached is clean; alignment is enough. */
  lemma RowSourcesKeptIffClean(chunks: seq<Chunk>)
    ensures (forall i :: 0 <= i < |chunks| ==> SrcLines(RewriteRow(chunks)[i].lines) == SrcLines(chunks[i].lines)) <==>
            (forall i :: 0 <= i < ReachedCount(chunks) ==> Clean(chunks[i].lines))
    ensures (forall i :: 0 <= i < |chunks| ==> Aligned(chunks[i].lines)) ==>
            forall i :: 0 <= i < ReachedCount(chunks) ==> Clean(chunks[i].lines)
  {
    hide Clean, Aligned, Rewritten, SrcLines;
    forall i | 0 <= i < |chunks|
      ensures SrcLines(Rewritten(chunks[i].lines)) == SrcLines(chunks[i].lines) <==> Clean(chunks[i].lines)
      ensures Aligned(chunks[i].lines) ==> Clean(chunks[i].lines)
    {
      SourceKeptIffClean(chunks[i].lines);
      if Aligned(chunks[i].lines) { AlignedIsClean(chunks[i].lines); }
    }
    forall i | 0 <= i < ReachedCount(chunks)
      ensures SrcLines(RewriteRow(chunks)[i].lines) == SrcLines(chunks[i].lines) <==> Clean(chunks[i].lines)
    {
    }
  }

  /**
   * Of a patch set, the rewrite changes destination lines of the chunks it reaches, each by one blank at most,
   * and nothing else: neither positions nor numbers of lines nor kinds, nor any chunk behind the one that stops it.
   */
  lemma RowKeptOrBlank(chunks: seq<Chunk>)
    ensures forall i :: 0 <= i < |chunks| ==>
              && RewriteRow(chunks)[i] == chunks[i].(lines := RewriteRow(chunks)[i].lines)
              && |RewriteRow(chunks)[i].lines| == |chunks[i].lines|
              && forall p :: 0 <= p < |chunks[i].lines| ==>
                   && KeptOrBlank(chunks[i].lines[p], RewriteRow(chunks)[i].lines[p])
                   && (i >= ReachedCount(chunks) ==> RewriteRow(chunks)[i].lines[p] == chunks[i].lines[p])
  {
    hide Rewritten;
    forall i | 0 <= i < |chunks|
      ensures forall p :: 0 <= p < |chunks[i].lines| ==> KeptOrBlank(chunks[i].lines[p], Rewritten(chunks[i].lines)[p])
    {
      EveryLineKeptOrBlank(chunks[i].lines);
    }
  }
}
