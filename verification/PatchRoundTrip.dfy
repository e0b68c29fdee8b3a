/** Reading back what was printed gives the same patch set, exactly when no line is mistaken for a file name. */
module PatchRoundTrip {
  import opened Wrappers
  import opened PatchText

  // ----- Composing reads

  function Then(r: Parsed, lines: seq<string>): Parsed {
    match r
    case Err(e) => Err(e)
    case Ok(st) => Feed(st, lines)
  }

  lemma {:induction false} FeedConcat(st: Parsing, a: seq<string>, b: seq<string>)
    ensures Feed(st, a + b) == Then(Feed(st, a), b)
  {
    hide Accept, Classify;
    if b == [] {
      assert a + b == a;
    } else {
      var n := |b| - 1;
      FeedConcat(st, a, b[..n]);
      assert (a + b)[..|a| + n] == a + b[..n];
    }
  }

  lemma FeedOne(st: Parsing, line: string)
    ensures Feed(st, [line]) == Accept(st, Classify(line))
  {
    assert Feed(st, [line][..0]) == Ok(st);
  }

  // ----- The parser's state for a patch set

  function Flatten(patches: seq<Patch>): Parsing {
    if patches == [] then START
    else
      var st := Flatten(patches[..|patches| - 1]);
      var p := patches[|patches| - 1];
      Parsing(st.heads + [Head(p.src, p.dst, |st.chunks|)], st.chunks + p.chunks)
  }

  lemma AssembleOneMore(heads: seq<Head>, chunks: seq<Chunk>, p: Patch)
    requires InOrder(heads, |chunks|)
    ensures var heads' := heads + [Head(p.src, p.dst, |chunks|)];
            InOrder(heads', |chunks + p.chunks|) && Assemble(heads', chunks + p.chunks) == Assemble(heads, chunks) + [p]
  {
    var heads' := heads + [Head(p.src, p.dst, |chunks|)];
    assert heads'[..|heads|] == heads;
    assert (chunks + p.chunks)[..|chunks|] == chunks && (chunks + p.chunks)[|chunks|..] == p.chunks;
  }

  lemma {:induction false} AssembleFlatten(patches: seq<Patch>)
    ensures InOrder(Flatten(patches).heads, |Flatten(patches).chunks|)
    ensures Assemble(Flatten(patches).heads, Flatten(patches).chunks) == patches
  {
    hide InOrder, Assemble;
    if patches != [] {
      var n := |patches| - 1;
      AssembleFlatten(patches[..n]);
      var before := Flatten(patches[..n]);
      AssembleOneMore(before.heads, before.chunks, patches[n]);
      assert patches == patches[..n] + [patches[n]];
    } else {
      AssembleNone();
    }
  }

  lemma AssembleNone()
    ensures InOrder([], 0) && Assemble([], []) == []
  {
  }

  // ----- If nothing is confusing, every line is read as what it was

  predicate ClearPatch(p: Patch) {
    forall c, l :: c in p.chunks && l in c.lines ==> !Confusing(l)
  }

  predicate Clear(patches: seq<Patch>) {
    forall p :: p in patches ==> ClearPatch(p)
  }

  predicate ClearLine(l: Line) {
    LineOk(l) && !Confusing(l)
  }

  predicate ClearLines(lines: seq<Line>) {
    forall l :: l in lines ==> ClearLine(l)
  }

  lemma {:induction false} FeedLines(st: Parsing, c: Chunk, lines: seq<Line>)
    requires ClearLines(lines)
    ensures Feed(st.(chunks := st.chunks + [c]), WriteLines(lines))
            == Ok(st.(chunks := st.chunks + [c.(lines := c.lines + lines)]))
  {
    hide Classify, WriteLine, LineOk, Confusing;
    if lines == [] {
      assert c.lines + lines == c.lines;
    } else {
      var n := |lines| - 1;
      FeedLines(st, c, lines[..n]);
      assert lines[n] in lines;
      ClassifyLine(lines[n]);
      assert c.lines + lines[..n] + [lines[n]] == c.lines + lines;
      var before, after := c.(lines := c.lines + lines[..n]), c.(lines := c.lines + lines);
      assert (st.chunks + [before])[|st.chunks| := after] == st.chunks + [after];
    }
  }

  lemma FeedChunk(st: Parsing, c: Chunk)
    requires st.heads != [] && ClearLines(c.lines)
    ensures Feed(st, WriteChunk(c)) == Ok(st.(chunks := st.chunks + [c]))
  {
    hide Classify, Feed, WriteHeader, WriteLines, ClearLines;
    var empty := Chunk(c.srcPos, c.dstPos, []);
    FeedConcat(st, [WriteHeader(c)], WriteLines(c.lines));
    FeedOne(st, WriteHeader(c));
    ClassifyHeader(c);
    FeedLines(st, empty, c.lines);
    assert empty.(lines := empty.lines + c.lines) == c;
  }

  lemma FeedOneMore(st: Parsing, front: seq<Chunk>, c: Chunk)
    requires st.heads != [] && ClearLines(c.lines)
    requires Feed(st, WriteChunks(front)) == Ok(st.(chunks := st.chunks + front))
    ensures Feed(st, WriteChunks(front + [c])) == Ok(st.(chunks := st.chunks + (front + [c])))
  {
    hide Feed, WriteChunk, ClearLines;
    assert (front + [c])[..|front|] == front;
    FeedConcat(st, WriteChunks(front), WriteChunk(c));
    FeedChunk(st.(chunks := st.chunks + front), c);
    assert st.chunks + front + [c] == st.chunks + (front + [c]);
  }

  lemma {:induction false} FeedChunks(st: Parsing, chunks: seq<Chunk>)
    requires st.heads != [] && forall c :: c in chunks ==> ClearLines(c.lines)
    ensures Feed(st, WriteChunks(chunks)) == Ok(st.(chunks := st.chunks + chunks))
  {
    if chunks == [] {
      assert st.chunks + chunks == st.chunks;
    } else {
      hide *;
      var front, c := chunks[..|chunks| - 1], chunks[|chunks| - 1];
      assert chunks == front + [c] && c in chunks;
      FeedChunks(st, front);
      FeedOneMore(st, front, c);
    }
  }

  lemma FeedPatch(st: Parsing, p: Patch)
    requires PatchOk(p) && ClearPatch(p)
    ensures Feed(st, WritePatch(p)) == Ok(Parsing(st.heads + [Head(p.src, p.dst, |st.chunks|)], st.chunks + p.chunks))
  {
    hide Classify, WriteChunks, LineOk, Confusing;
    var a, b := "--- " + p.src + "\n", "+++ " + p.dst + "\n";
    ClassifySrcFile(p.src);
    ClassifyDstFile(p.dst);
    var st1 := st.(heads := st.heads + [Head(p.src, "", |st.chunks|)]);
    var st2 := st.(heads := st.heads + [Head(p.src, p.dst, |st.chunks|)]);
    FeedOne(st, a);
    FeedOne(st1, b);
    assert st1.heads[|st.heads| := Head(p.src, p.dst, |st.chunks|)] == st2.heads;
    FeedConcat(st, [a], [b]);
    FeedConcat(st, [a, b], WriteChunks(p.chunks));
    assert [a] + [b] == [a, b];
    FeedChunks(st2, p.chunks);
  }

  lemma {:induction false} FeedAll(patches: seq<Patch>)
    requires Printable(patches) && Clear(patches)
    ensures Feed(START, WriteAll(patches)) == Ok(Flatten(patches))
  {
    if patches != [] {
      hide Feed, WritePatch, PatchOk, ClearPatch;
      var n := |patches| - 1;
      var p := patches[n];
      FeedAll(patches[..n]);
      assert p in patches;
      FeedConcat(START, WriteAll(patches[..n]), WritePatch(p));
      FeedPatch(Flatten(patches[..n]), p);
    } else {
      assert WriteAll(patches) == [];
    }
  }

  // ----- If something is confusing, a line gets lost

  function LinesIn(chunks: seq<Chunk>): nat {
    if chunks == [] then 0 else LinesIn(chunks[..|chunks| - 1]) + |chunks[|chunks| - 1].lines|
  }

  function TextCount(lines: seq<string>): nat {
    if lines == [] then 0
    else TextCount(lines[..|lines| - 1]) + if Classify(lines[|lines| - 1]).Text? then 1 else 0
  }

  lemma {:induction false} TextCountConcat(a: seq<string>, b: seq<string>)
    ensures TextCount(a + b) == TextCount(a) + TextCount(b)
  {
    hide Classify;
    if b == [] {
      assert a + b == a;
    } else {
      var n := |b| - 1;
      TextCountConcat(a, b[..n]);
      assert (a + b)[..|a| + n] == a + b[..n];
    }
  }

  /** The parser keeps as many lines as it took for lines. */
  lemma {:induction false} FeedCounts(lines: seq<string>)
    requires Feed(START, lines).Ok?
    ensures LinesIn(Feed(START, lines).value.chunks) == TextCount(lines)
  {
    hide Classify;
    if lines != [] {
      var n := |lines| - 1;
      FeedCounts(lines[..n]);
      var st := Feed(START, lines[..n]).value;
      var st' := Feed(START, lines).value;
      if Classify(lines[n]).Text? {
        var m := |st.chunks| - 1;
        assert st'.chunks[..m] == st.chunks[..m];
      } else if Classify(lines[n]).Header? {
        assert st'.chunks[..|st.chunks|] == st.chunks;
      }
    }
  }

  lemma {:induction false} LinesInConcat(a: seq<Chunk>, b: seq<Chunk>)
    ensures LinesIn(a + b) == LinesIn(a) + LinesIn(b)
  {
    if b == [] {
      assert a + b == a;
    } else {
      var n := |b| - 1;
      LinesInConcat(a, b[..n]);
      assert (a + b)[..|a| + n] == a + b[..n];
    }
  }

  function ConfusingIn(lines: seq<Line>): nat {
    if lines == [] then 0
    else ConfusingIn(lines[..|lines| - 1]) + if Confusing(lines[|lines| - 1]) then 1 else 0
  }

  function ConfusingChunks(chunks: seq<Chunk>): nat {
    if chunks == [] then 0
    else ConfusingChunks(chunks[..|chunks| - 1]) + ConfusingIn(chunks[|chunks| - 1].lines)
  }

  function ConfusingPatches(patches: seq<Patch>): nat {
    if patches == [] then 0
    else ConfusingPatches(patches[..|patches| - 1]) + ConfusingChunks(patches[|patches| - 1].chunks)
  }

  lemma {:induction false} LinesLost(lines: seq<Line>)
    requires forall l :: l in lines ==> LineOk(l)
    ensures TextCount(WriteLines(lines)) + ConfusingIn(lines) == |lines|
    ensures ConfusingIn(lines) == 0 <==> forall l :: l in lines ==> !Confusing(l)
  {
    hide Classify, WriteLine, LineOk, Confusing;
    if lines != [] {
      var n := |lines| - 1;
      LinesLost(lines[..n]);
      assert lines[n] in lines;
      ClassifyLine(lines[n]);
      assert lines == lines[..n] + [lines[n]];
    }
  }

  lemma {:induction false} ChunksLost(chunks: seq<Chunk>)
    requires forall c, l :: c in chunks && l in c.lines ==> LineOk(l)
    ensures TextCount(WriteChunks(chunks)) + ConfusingChunks(chunks) == LinesIn(chunks)
    ensures ConfusingChunks(chunks) == 0 <==> forall c, l :: c in chunks && l in c.lines ==> !Confusing(l)
  {
    hide Classify, WriteLine, WriteHeader, LineOk, Confusing;
    if chunks != [] {
      var n := |chunks| - 1;
      var c := chunks[n];
      ChunksLost(chunks[..n]);
      assert c in chunks;
      LinesLost(c.lines);
      ClassifyHeader(c);
      TextCountConcat(WriteChunks(chunks[..n]), [WriteHeader(c)] + WriteLines(c.lines));
      TextCountConcat([WriteHeader(c)], WriteLines(c.lines));
      assert TextCount([WriteHeader(c)][..0]) == 0;
      assert chunks == chunks[..n] + [c];
    }
  }

  lemma PatchLost(p: Patch)
    requires PatchOk(p)
    ensures TextCount(WritePatch(p)) + ConfusingChunks(p.chunks) == LinesIn(p.chunks)
    ensures ConfusingChunks(p.chunks) == 0 <==> ClearPatch(p)
  {
    hide Classify, TextCount, WriteChunks, Confusing, LineOk;
    var a, b := "--- " + p.src + "\n", "+++ " + p.dst + "\n";
    ClassifySrcFile(p.src);
    ClassifyDstFile(p.dst);
    ChunksLost(p.chunks);
    TextCountOne(a);
    TextCountOne(b);
    TextCountConcat([a], [b]);
    TextCountConcat([a, b], WriteChunks(p.chunks));
    assert [a] + [b] == [a, b];
  }

  lemma TextCountOne(line: string)
    ensures TextCount([line]) == if Classify(line).Text? then 1 else 0
  {
    assert TextCount([line][..0]) == 0;
  }

  lemma {:induction false} PatchesLost(patches: seq<Patch>)
    requires Printable(patches)
    ensures TextCount(WriteAll(patches)) + ConfusingPatches(patches) == LinesIn(Flatten(patches).chunks)
    ensures ConfusingPatches(patches) == 0 <==> Clear(patches)
  {
    hide PatchOk, ClearPatch, TextCount, LinesIn, WritePatch, ConfusingChunks;
    if patches != [] {
      var n := |patches| - 1;
      var p := patches[n];
      PatchesLost(patches[..n]);
      assert p in patches;
      PatchLost(p);
      TextCountConcat(WriteAll(patches[..n]), WritePatch(p));
      LinesInConcat(Flatten(patches[..n]).chunks, p.chunks);
      assert patches == patches[..n] + [p];
    } else {
      NothingWritten();
    }
  }

  lemma NothingWritten()
    ensures TextCount([]) == 0 && LinesIn([]) == 0
  {
  }

  lemma InOrderPrefix(heads: seq<Head>, n: nat)
    requires InOrder(heads, n) && heads != []
    ensures heads[|heads| - 1].first <= n && InOrder(heads[..|heads| - 1], heads[|heads| - 1].first)
  {
  }

  lemma {:induction false} FlattenAssemble(heads: seq<Head>, chunks: seq<Chunk>)
    requires InOrder(heads, |chunks|)
    ensures Flatten(Assemble(heads, chunks)) == Parsing(heads, chunks)
    decreases |heads|
  {
    if heads == [] {
      FlattenNone(chunks);
    } else {
      InOrderPrefix(heads, |chunks|);
      hide *;
      var before, h := heads[..|heads| - 1], heads[|heads| - 1];
      assert heads == before + [h] && chunks == chunks[..h.first] + chunks[h.first..];
      FlattenAssemble(before, chunks[..h.first]);
      FlattenLast(before, h, chunks[..h.first], chunks[h.first..]);
    }
  }

  lemma FlattenNone(chunks: seq<Chunk>)
    requires InOrder([], |chunks|)
    ensures Flatten(Assemble([], chunks)) == Parsing([], chunks)
  {
  }

  lemma FlattenLast(before: seq<Head>, h: Head, done: seq<Chunk>, last: seq<Chunk>)
    requires InOrder(before, |done|) && InOrder(before + [h], |done + last|) && h.first == |done|
    requires Flatten(Assemble(before, done)) == Parsing(before, done)
    ensures Flatten(Assemble(before + [h], done + last)) == Parsing(before + [h], done + last)
  {
    hide *;
    AssembleLast(before, h, done, last);
    FlattenOneMore(Assemble(before, done), Patch(h.src, h.dst, last));
  }

  lemma AssembleLast(before: seq<Head>, h: Head, done: seq<Chunk>, last: seq<Chunk>)
    requires InOrder(before, |done|) && InOrder(before + [h], |done + last|) && h.first == |done|
    ensures Assemble(before + [h], done + last) == Assemble(before, done) + [Patch(h.src, h.dst, last)]
  {
    hide InOrder;
    assert (before + [h])[..|before|] == before && (done + last)[..|done|] == done && (done + last)[|done|..] == last;
  }

  lemma FlattenOneMore(patches: seq<Patch>, p: Patch)
    ensures var st := Flatten(patches);
            Flatten(patches + [p]) == Parsing(st.heads + [Head(p.src, p.dst, |st.chunks|)], st.chunks + p.chunks)
  {
    assert (patches + [p])[..|patches|] == patches;
  }

  /** If reading succeeds, exactly the confusing lines are lost. */
  lemma ConfusingLosesLines(patches: seq<Patch>)
    requires Printable(patches)
    ensures var r := Feed(START, WriteAll(patches));
            r.Ok? ==> LinesIn(r.value.chunks) + ConfusingPatches(patches) == LinesIn(Flatten(patches).chunks)
    ensures ConfusingPatches(patches) == 0 <==> Clear(patches)
    ensures !Clear(patches) ==> ParseOf(WriteAll(patches)) != Ok(patches)
  {
    hide Printable, Clear, Feed, TextCount, LinesIn, WriteAll, Flatten, Assemble, ConfusingPatches;
    PatchesLost(patches);
    if Feed(START, WriteAll(patches)).Ok? {
      FeedCounts(WriteAll(patches));
      FeedInOrder(WriteAll(patches));
      var st := Feed(START, WriteAll(patches)).value;
      FlattenAssemble(st.heads, st.chunks);
    }
  }

  /** Reading undoes printing iff no removed line begins with "-- " and no added line with "++ ". */
  lemma ReadUndoesWriteIffClear(patches: seq<Patch>)
    requires Printable(patches)
    ensures ParseOf(WriteAll(patches)) == Ok(patches) <==> Clear(patches)
  {
    hide Printable, Clear, Feed, WriteAll, Flatten, Assemble;
    AssembleFlatten(patches);
    if Clear(patches) {
      FeedAll(patches);
    } else {
      ConfusingLosesLines(patches);
    }
  }
}
