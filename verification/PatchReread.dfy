/** utils/check-style.py: which patch sets the program itself can hold, and whether they can be read back. */
module PatchReread {
  import opened Wrappers
  import opened PatchText
  import opened PatchRoundTrip
  import opened PatchRewrite

  // ----- Whatever is read is fit to be printed

  predicate OneLineNames(heads: seq<Head>) {
    forall i :: 0 <= i < |heads| ==> OneLine(heads[i].src) && OneLine(heads[i].dst)
  }

  predicate ClearChunks(chunks: seq<Chunk>) {
    forall i :: 0 <= i < |chunks| ==> ClearLines(chunks[i].lines)
  }

  /** A text that "(.*)$" matched has no line end, and one that could be a file name has been taken for one. */
  lemma ClassifiedIsClear(line: string)
    ensures match Classify(line)
            case SrcFile(name) => OneLine(name)
            case DstFile(name) => OneLine(name)
            case Text(l) => ClearLine(l)
            case _ => true
  {
    hide ChunkStart;
    var b := Body(line);
    if b.Some? && b.value != "" {
      var rest := b.value[1..];
      assert b.value == [b.value[0]] + rest;
      assert OneLine(rest);
      SignedPrefix(b.value[0], rest, '-');
      SignedPrefix(b.value[0], rest, '+');
      assert ['-', '-', '-', ' '] == "--- " && ['-', '-', ' '] == "-- ";
      assert ['+', '+', '+', ' '] == "+++ " && ['+', '+', ' '] == "++ ";
    }
  }

  lemma AcceptKeepsClear(st: Parsing, item: Item)
    requires OneLineNames(st.heads) && ClearChunks(st.chunks) && Accept(st, item).Ok?
    requires match item
             case SrcFile(name) => OneLine(name)
             case DstFile(name) => OneLine(name)
             case Text(l) => ClearLine(l)
             case _ => true
    ensures OneLineNames(Accept(st, item).value.heads) && ClearChunks(Accept(st, item).value.chunks)
  {
    hide ClearLine, LineOk, Confusing;
    assert OneLine("");
  }

  lemma {:induction false} FeedIsClear(lines: seq<string>)
    requires Feed(START, lines).Ok?
    ensures OneLineNames(Feed(START, lines).value.heads) && ClearChunks(Feed(START, lines).value.chunks)
  {
    if lines != [] {
      var n := |lines| - 1;
      hide Classify, Accept, ClearLine, OneLineNames, ClearChunks, OneLine;
      FeedIsClear(lines[..n]);
      ClassifiedIsClear(lines[n]);
      AcceptKeepsClear(Feed(START, lines[..n]).value, Classify(lines[n]));
    }
  }

  // ----- From the row of chunks to the patch set

  lemma {:induction false} ConfusingConcat(a: seq<Chunk>, b: seq<Chunk>)
    ensures ConfusingChunks(a + b) == ConfusingChunks(a) + ConfusingChunks(b)
  {
    hide ConfusingIn;
    if b == [] {
      assert a + b == a;
    } else {
      var n := |b| - 1;
      ConfusingConcat(a, b[..n]);
      assert (a + b)[..|a| + n] == a + b[..n];
    }
  }

  lemma {:induction false} ConfusingFlat(patches: seq<Patch>)
    ensures ConfusingPatches(patches) == ConfusingChunks(Flatten(patches).chunks)
  {
    if patches != [] {
      hide ConfusingChunks;
      var n := |patches| - 1;
      ConfusingFlat(patches[..n]);
      ConfusingConcat(Flatten(patches[..n]).chunks, patches[n].chunks);
    }
  }

  predicate LinesOk(lines: seq<Line>) {
    forall p :: 0 <= p < |lines| ==> LineOk(lines[p])
  }

  predicate AllOk(chunks: seq<Chunk>) {
    forall i :: 0 <= i < |chunks| ==> LinesOk(chunks[i].lines)
  }

  predicate HasConfusing(lines: seq<Line>) {
    exists p :: 0 <= p < |lines| && Confusing(lines[p])
  }

  predicate NoneConfusing(chunks: seq<Chunk>) {
    forall i :: 0 <= i < |chunks| ==> !HasConfusing(chunks[i].lines)
  }

  lemma AssembledPrintable(heads: seq<Head>, chunks: seq<Chunk>)
    requires InOrder(heads, |chunks|) && OneLineNames(heads) && AllOk(chunks)
    ensures Printable(Assemble(heads, chunks))
  {
    hide LineOk, OneLine, InOrder, Assemble;
    var ps := Assemble(heads, chunks);
    forall j: nat | j < |ps|
      ensures PatchOk(ps[j])
    {
      AssembleAt(heads, chunks, j);
    }
  }

  /** A patch set reads back iff no line in its row of chunks is confusing. */
  lemma AssembledReadsBackIff(heads: seq<Head>, chunks: seq<Chunk>)
    requires InOrder(heads, |chunks|) && OneLineNames(heads) && AllOk(chunks)
    ensures Printable(Assemble(heads, chunks))
    ensures Clear(Assemble(heads, chunks)) <==> NoneConfusing(chunks)
    ensures ParseOf(WriteAll(Assemble(heads, chunks))) == Ok(Assemble(heads, chunks)) <==> NoneConfusing(chunks)
  {
    AssembledPrintable(heads, chunks);
    OkByMembers(chunks);
    hide *;
    var ps := Assemble(heads, chunks);
    FlattenAssemble(heads, chunks);
    ConfusingFlat(ps);
    PatchesLost(ps);
    ChunksLost(chunks);
    ReadUndoesWriteIffClear(ps);
  }

  lemma OkByMembers(chunks: seq<Chunk>)
    ensures AllOk(chunks) ==> forall c, l :: c in chunks && l in c.lines ==> LineOk(l)
    ensures NoneConfusing(chunks) <==> forall c, l :: c in chunks && l in c.lines ==> !Confusing(l)
  {
    hide LineOk, Confusing;
    if forall c, l :: c in chunks && l in c.lines ==> !Confusing(l) {
      forall i, p | 0 <= i < |chunks| && 0 <= p < |chunks[i].lines|
        ensures !Confusing(chunks[i].lines[p])
      {
        assert chunks[i] in chunks && chunks[i].lines[p] in chunks[i].lines;
      }
    } else {
      var c, l :| c in chunks && l in c.lines && Confusing(l);
      assert HasConfusing(c.lines);
    }
  }

  lemma RowIsOk(chunks: seq<Chunk>)
    requires ClearChunks(chunks)
    ensures AllOk(chunks) && NoneConfusing(chunks)
  {
    hide ClearLines, LinesOk, HasConfusing;
    forall i | 0 <= i < |chunks|
      ensures LinesOk(chunks[i].lines) && !HasConfusing(chunks[i].lines)
    {
      ClearIsOk(chunks[i].lines);
    }
  }

  /** Reading undoes writing on everything that was itself read, with no condition at all. */
  lemma ParsedReadsBack(lines: seq<string>)
    requires ParseOf(lines).Ok?
    ensures Printable(ParseOf(lines).value) && Clear(ParseOf(lines).value)
    ensures ParseOf(WriteAll(ParseOf(lines).value)) == ParseOf(lines)
  {
    hide Feed, WriteAll, Assemble, Printable, Clear, LineOk, Confusing;
    FeedInOrder(lines);
    FeedIsClear(lines);
    var st := Feed(START, lines).value;
    RowIsOk(st.chunks);
    AssembledReadsBackIff(st.heads, st.chunks);
  }

  // ----- What the rewrite can spoil

  /** The turn before i in which the line at position q is the destination, or i if there is none. */
  function TurnOf(dst: seq<nat>, q: nat, i: nat): (j: nat)
    requires i <= |dst|
    ensures j <= i && (j < i ==> dst[j] == q) && (j == i ==> forall k :: 0 <= k < i ==> dst[k] != q)
  {
    if i == 0 then 0
    else
      var j := TurnOf(dst, q, i - 1);
      if j < i - 1 then j else if dst[i - 1] == q then i - 1 else i
  }

  /** The text of the i-th source line in its turn, told from the lines as read: a context line may have got a blank. */
  function SourceText(lines: seq<Line>, src: seq<nat>, dst: seq<nat>, i: nat): string
    requires i < |src| && i < |dst| && InBounds(lines, src) && InBounds(lines, dst)
    decreases i
  {
    if Lengthened(lines, src, dst, i) then SourceText(lines, src, dst, TurnOf(dst, src[i], i)) else lines[src[i]].text
  }

  /** An earlier turn has given the i-th source line a blank. */
  predicate Lengthened(lines: seq<Line>, src: seq<nat>, dst: seq<nat>, i: nat)
    requires i < |src| && i < |dst| && InBounds(lines, src) && InBounds(lines, dst)
    decreases i, 0
  {
    var j := TurnOf(dst, src[i], i);
    j < i && LostBlank(SourceText(lines, src, dst, j), lines[src[i]].text)
  }

  lemma {:induction false} SourceTextIs(lines: seq<Line>, src: seq<nat>, dst: seq<nat>, i: nat)
    requires i < |src| && i < |dst| && InBounds(lines, src) && Lists(dst, lines, Dst)
    ensures InBounds(lines, dst)
    ensures SourceText(lines, src, dst, i) == Restored(lines, src, dst, i)[src[i]].text
    decreases i
  {
    var q, j := src[i], TurnOf(dst, src[i], i);
    hide LostBlank, RestoreAt, Restored;
    if j < i {
      SourceTextIs(lines, src, dst, j);
      OnlyItsTurn(lines, src, dst, i, j);
    } else if q in dst {
      var k :| 0 <= k < |dst| && dst[k] == q;
      OnlyItsTurn(lines, src, dst, i, k);
    } else {
      OthersStay(lines, src, dst, i, q);
    }
  }

  /** Pair i of a chunk gives a space back to a destination line "++". */
  predicate SpacesPlus(lines: seq<Line>, i: nat) {
    && i < Pairs(lines) && lines[DstAt(lines)[i]] == Line(Dst, "++")
    && (SrcAtIn(lines); DstAtIn(lines); SourceText(lines, SrcAt(lines), DstAt(lines), i) == "++ ")
  }

  lemma SrcAtIn(lines: seq<Line>)
    ensures InBounds(lines, SrcAt(lines))
  {
  }

  lemma DstAtIn(lines: seq<Line>)
    ensures InBounds(lines, DstAt(lines))
  {
  }

  // ----- Where such a space comes from

  /** The destination line of pair j is a context line "++" that is the source line of a later pair i. */
  predicate Passes(lines: seq<Line>, src: seq<nat>, dst: seq<nat>, j: nat, i: nat)
    requires InBounds(lines, src) && InBounds(lines, dst)
  {
    j < i < |src| && i < |dst| && dst[j] == src[i] && lines[src[i]].text == "++"
  }

  /** Pairs from a source line "++ " that no earlier turn has lengthened, each passing the space on to the next. */
  predicate PlusChain(lines: seq<Line>, src: seq<nat>, dst: seq<nat>, chain: seq<nat>)
    requires InBounds(lines, src) && InBounds(lines, dst)
  {
    && chain != [] && chain[0] < |src| && chain[0] < |dst|
    && lines[src[chain[0]]].text == "++ " && !Lengthened(lines, src, dst, chain[0])
    && forall k :: 0 < k < |chain| ==> Passes(lines, src, dst, chain[k - 1], chain[k])
  }

  predicate PlusChainTo(lines: seq<Line>, src: seq<nat>, dst: seq<nat>, chain: seq<nat>, i: nat)
    requires InBounds(lines, src) && InBounds(lines, dst)
  {
    PlusChain(lines, src, dst, chain) && chain[|chain| - 1] == i
  }

  lemma OneTurnEach(dst: seq<nat>, q: nat, i: nat, j: nat)
    requires j < i <= |dst| && dst[j] == q && forall k, m :: 0 <= k < m < |dst| ==> dst[k] < dst[m]
    ensures TurnOf(dst, q, i) == j
  {
  }

  lemma {:induction false} ChainBrings(lines: seq<Line>, src: seq<nat>, dst: seq<nat>, chain: seq<nat>)
    requires InBounds(lines, src) && Lists(dst, lines, Dst) && InBounds(lines, dst)
    requires PlusChain(lines, src, dst, chain)
    ensures var i := chain[|chain| - 1]; i < |src| && i < |dst| && SourceText(lines, src, dst, i) == "++ "
    decreases |chain|
  {
    if |chain| > 1 {
      var n := |chain| - 1;
      ChainBrings(lines, src, dst, chain[..n]);
      assert Passes(lines, src, dst, chain[n - 1], chain[n]);
      OneTurnEach(dst, src[chain[n]], chain[n], chain[n - 1]);
      assert "++ "[..2] == "++";
    }
  }

  lemma {:induction false} BroughtByChain(lines: seq<Line>, src: seq<nat>, dst: seq<nat>, i: nat)
    returns (chain: seq<nat>)
    requires i < |src| && i < |dst| && InBounds(lines, src) && InBounds(lines, dst)
    requires SourceText(lines, src, dst, i) == "++ "
    ensures PlusChain(lines, src, dst, chain) && chain[|chain| - 1] == i
    decreases i
  {
    if Lengthened(lines, src, dst, i) {
      var j := TurnOf(dst, src[i], i);
      var front := BroughtByChain(lines, src, dst, j);
      assert lines[src[i]].text == "++ "[..2] == "++";
      assert Passes(lines, src, dst, j, i);
      chain := front + [i];
    } else {
      chain := [i];
    }
  }

  /** A pair spaces a "++" iff a chain of pairs, on the lines as read, ends in it. */
  lemma SpacesPlusIffChain(lines: seq<Line>, i: nat)
    ensures InBounds(lines, SrcAt(lines)) && InBounds(lines, DstAt(lines))
    ensures SpacesPlus(lines, i) <==>
            && i < Pairs(lines) && lines[DstAt(lines)[i]] == Line(Dst, "++")
            && exists chain :: PlusChainTo(lines, SrcAt(lines), DstAt(lines), chain, i)
  {
    hide SourceText, SrcAt, DstAt;
    SrcAtIn(lines);
    DstAtIn(lines);
    DstAtLists(lines);
    var src, dst := SrcAt(lines), DstAt(lines);
    if SpacesPlus(lines, i) {
      var chain := BroughtByChain(lines, src, dst, i);
      assert PlusChainTo(lines, src, dst, chain, i);
    }
    if chain :| PlusChainTo(lines, src, dst, chain, i) {
      ChainBrings(lines, src, dst, chain);
    }
  }

  lemma BlankPrefix(s: string, d: string)
    requires LostBlank(s, d)
    ensures "++ " <= s <==> "++ " <= d || s == "++ "
  {
    assert |d| >= 3 ==> s[..3] == d[..3];
  }

  /** One blank more makes a clear line confusing only if it makes "++ " of an added "++". */
  lemma BlankConfuses(l: Line, l': Line)
    requires ClearLine(l) && KeptOrBlank(l, l')
    ensures Confusing(l') <==> l == Line(Dst, "++") && l' == Line(Dst, "++ ")
    ensures LineOk(l')
  {
    if l' != l {
      assert l'.text == l.text + [l'.text[|l'.text| - 1]];
      BlankPrefix(l'.text, l.text);
    }
  }

  ghost predicate HasSpaced(lines: seq<Line>) {
    exists i: nat :: SpacesPlus(lines, i)
  }

  lemma RewrittenConfusingIff(lines: seq<Line>)
    requires ClearLines(lines)
    ensures LinesOk(Rewritten(lines))
    ensures HasConfusing(Rewritten(lines)) <==> HasSpaced(lines)
  {
    hide ClearLine, LineOk, Confusing, KeptOrBlank, Rewritten, SpacesPlus;
    EveryLineKeptOrBlank(lines);
    forall p | 0 <= p < |lines|
      ensures LineOk(Rewritten(lines)[p])
      ensures Confusing(Rewritten(lines)[p]) <==> lines[p] == Line(Dst, "++") && Rewritten(lines)[p] == Line(Dst, "++ ")
    {
      BlankConfuses(lines[p], Rewritten(lines)[p]);
    }
    if HasConfusing(Rewritten(lines)) {
      var p :| 0 <= p < |lines| && Confusing(Rewritten(lines)[p]);
      var i := TurnThatSpaced(lines, p);
    }
    if HasSpaced(lines) {
      var i: nat :| SpacesPlus(lines, i);
      var p := SpacedTurn(lines, i);
    }
  }

  lemma TurnThatSpaced(lines: seq<Line>, p: nat) returns (i: nat)
    requires p < |lines| && lines[p] == Line(Dst, "++") && Rewritten(lines)[p] == Line(Dst, "++ ")
    ensures SpacesPlus(lines, i)
  {
    hide Restored, SrcAt, DstAt, Rewritten;
    DstAtLists(lines);
    assert p in DstAt(lines);
    i :| 0 <= i < |DstAt(lines)| && DstAt(lines)[i] == p;
    DestinationAfter(lines, i);
    if i < Pairs(lines) { SourceTextIs(lines, SrcAt(lines), DstAt(lines), i); }
  }

  lemma SpacedTurn(lines: seq<Line>, i: nat) returns (p: nat)
    requires SpacesPlus(lines, i)
    ensures p < |lines| && lines[p] == Line(Dst, "++") && Rewritten(lines)[p] == Line(Dst, "++ ")
  {
    hide Restored, SrcAt, DstAt, Rewritten;
    DestinationAfter(lines, i);
    DstAtLists(lines);
    SourceTextIs(lines, SrcAt(lines), DstAt(lines), i);
    assert "++ "[..2] == "++";
    p := DstAt(lines)[i];
  }

  /**
   * What is written after the rewrite of a patch set that was read reads back as the rewritten set iff no pair
   * that was reached gave a space back to a destination line "++".
   */
  lemma RewrittenReadsBackIff(lines: seq<string>)
    requires Feed(START, lines).Ok?
    ensures var st := Feed(START, lines).value;
            && InOrder(st.heads, |RewriteRow(st.chunks)|)
            && var ps := Assemble(st.heads, RewriteRow(st.chunks));
               ParseOf(WriteAll(ps)) == Ok(ps) <==>
               forall k :: 0 <= k < ReachedCount(st.chunks) ==> !HasSpaced(st.chunks[k].lines)
  {
    FeedInOrder(lines);
    FeedIsClear(lines);
    var st := Feed(START, lines).value;
    hide Feed, WriteAll, Assemble, InOrder;
    RowConfusingIff(st.chunks);
    AssembledReadsBackIff(st.heads, RewriteRow(st.chunks));
  }

  lemma RowConfusingIff(chunks: seq<Chunk>)
    requires ClearChunks(chunks)
    ensures AllOk(RewriteRow(chunks))
    ensures NoneConfusing(RewriteRow(chunks)) <==>
            forall k :: 0 <= k < ReachedCount(chunks) ==> !HasSpaced(chunks[k].lines)
  {
    hide Rewritten, HasSpaced, HasConfusing, LinesOk, ClearLines;
    var row := RewriteRow(chunks);
    forall k | 0 <= k < |chunks|
      ensures LinesOk(row[k].lines)
      ensures HasConfusing(row[k].lines) <==> k < ReachedCount(chunks) && HasSpaced(chunks[k].lines)
    {
      assert ClearLines(chunks[k].lines);
      RewrittenConfusingIff(chunks[k].lines);
      ClearIsOk(chunks[k].lines);
    }
  }

  lemma ClearIsOk(lines: seq<Line>)
    requires ClearLines(lines)
    ensures LinesOk(lines) && !HasConfusing(lines)
  {
    forall p | 0 <= p < |lines|
      ensures ClearLine(lines[p])
    {
      assert lines[p] in lines;
    }
  }

  /** In a chunk whose source view is kept, the lines as they were read say it. */
  lemma SpacesPlusWhenClean(lines: seq<Line>, i: nat)
    requires Clean(lines)
    ensures SpacesPlus(lines, i) <==>
            && i < Pairs(lines) && lines[SrcAt(lines)[i]].text == "++ " && lines[DstAt(lines)[i]] == Line(Dst, "++")
  {
    hide Restored, LostBlank, SrcAt, DstAt, SourceText;
    if i < Pairs(lines) {
      SrcAtLists(lines);
      DstAtLists(lines);
      SourceTextIs(lines, SrcAt(lines), DstAt(lines), i);
      CleanTurns(lines, SrcAt(lines), DstAt(lines), i);
      SourceNotDst(lines);
    }
  }

  // ----- A patch set that is read, rewritten, written, and not read back

  const PLUSES := [Line(Src, "++ "), Line(Dst, "++")]

  const PLUS_PATCH := [Patch("a", "b", [Chunk(1, 1, PLUSES)])]

  lemma PlusLines()
    ensures SrcAt(PLUSES) == [0] && DstAt(PLUSES) == [1] && SpacesPlus(PLUSES, 0)
    ensures !Stops(PLUSES) && Clean(PLUSES) && forall p :: 0 <= p < |PLUSES| ==> ClearLine(PLUSES[p])
  {
    var l1 := PLUSES[..1];
    assert l1[..0] == [];
    assert SrcAt(l1) == [0] && DstAt(l1) == [];
    assert "-- "[0] != "++ "[0];
  }

  lemma RewriteCanConfuse()
    ensures Printable(PLUS_PATCH) && Clear(PLUS_PATCH) && ParseOf(WriteAll(PLUS_PATCH)) == Ok(PLUS_PATCH)
    ensures Rewritten(PLUSES) == [Line(Src, "++ "), Line(Dst, "++ ")]
    ensures var rewritten := [Patch("a", "b", [Chunk(1, 1, Rewritten(PLUSES))])];
            ParseOf(WriteAll(rewritten)) != Ok(rewritten)
  {
    hide SrcAt, DstAt, Rewritten, WriteAll, ParseOf, Stops, Clean;
    PlusLines();
    EveryLineKeptOrBlank(PLUSES);
    var p := SpacedTurn(PLUSES, 0);
    assert forall i :: 0 <= i < 2 ==> ClearLine(PLUSES[i]);
    ReadUndoesWriteIffClear(PLUS_PATCH);
    var rewritten := [Patch("a", "b", [Chunk(1, 1, Rewritten(PLUSES))])];
    var l := Rewritten(PLUSES)[1];
    assert Confusing(l) && l in rewritten[0].chunks[0].lines && rewritten[0].chunks[0] in rewritten[0].chunks;
    assert !ClearPatch(rewritten[0]) && rewritten[0] in rewritten;
    assert !Clear(rewritten);
    ReadUndoesWriteIffClear(rewritten);
  }
}
