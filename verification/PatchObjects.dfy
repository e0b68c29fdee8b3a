/** utils/check-style.py: the line, chunk and patch objects, the parser that builds them, and the rewrite. */
module PatchObjects {
  import opened Wrappers
  import T = PatchText
  import R = PatchRewrite

  class PatchChunkLine {
    var kind: T.Kind
    var text: string

    constructor ()
      ensures Value() == T.Line(T.Unset, "")
    {
      kind, text := T.Unset, "";
    }

    function Value(): T.Line
      reads this
    {
      T.Line(kind, text)
    }

    method SetSrc(line: string)
      modifies this
      ensures Value() == T.Line(T.Src, line)
    {
      kind, text := T.Src, line;
    }

    method SetDst(line: string)
      modifies this
      ensures Value() == T.Line(T.Dst, line)
    {
      kind, text := T.Dst, line;
    }

    method SetBoth(line: string)
      modifies this
      ensures Value() == T.Line(T.Both, line)
    {
      kind, text := T.Both, line;
    }

    method AppendToLine(s: string)
      modifies this`text
      ensures text == old(text) + s
    {
      text := text + s;
    }
  }

  /** The values of line objects. */
  function Values(lines: seq<PatchChunkLine>): (r: seq<T.Line>)
    reads lines
    ensures |r| == |lines| && forall k :: 0 <= k < |lines| ==> r[k] == lines[k].Value()
  {
    if lines == [] then [] else Values(lines[..|lines| - 1]) + [lines[|lines| - 1].Value()]
  }

  class PatchChunk {
    var lines: seq<PatchChunkLine>
    const srcPos: nat
    const dstPos: nat

    constructor (srcPos: nat, dstPos: nat)
      ensures lines == [] && Value() == T.Chunk(srcPos, dstPos, [])
    {
      lines := [];
      this.srcPos, this.dstPos := srcPos, dstPos;
    }

    function Value(): T.Chunk
      reads this, lines
    {
      T.Chunk(srcPos, dstPos, Values(lines))
    }

    method AddLine(line: PatchChunkLine)
      modifies this
      ensures lines == old(lines) + [line] && Value() == T.WithLine(old(Value()), line.Value())
    {
      ghost var before := lines;
      lines := lines + [line];
      assert lines[..|before|] == before;
    }

    /** The source view: the line objects themselves, shared with the destination view where they are context. */
    method Src() returns (src: seq<PatchChunkLine>)
      ensures |src| == |R.SrcAt(Values(lines))|
      ensures forall k :: 0 <= k < |src| ==> src[k] == lines[R.SrcAt(Values(lines))[k]]
    {
      src := [];
      for i := 0 to |lines|
        invariant |src| == |R.SrcAt(Values(lines)[..i])|
        invariant forall k :: 0 <= k < |src| ==> src[k] == lines[R.SrcAt(Values(lines)[..i])[k]]
      {
        assert Values(lines)[..i + 1][..i] == Values(lines)[..i];
        if lines[i].Value().IsSrc() {
          src := src + [lines[i]];
        }
      }
      assert Values(lines)[..|lines|] == Values(lines);
    }

    method Dst() returns (dst: seq<PatchChunkLine>)
      ensures |dst| == |R.DstAt(Values(lines))|
      ensures forall k :: 0 <= k < |dst| ==> dst[k] == lines[R.DstAt(Values(lines))[k]]
    {
      dst := [];
      for i := 0 to |lines|
        invariant |dst| == |R.DstAt(Values(lines)[..i])|
        invariant forall k :: 0 <= k < |dst| ==> dst[k] == lines[R.DstAt(Values(lines)[..i])[k]]
      {
        assert Values(lines)[..i + 1][..i] == Values(lines)[..i];
        if lines[i].Value().IsDst() {
          dst := dst + [lines[i]];
        }
      }
      assert Values(lines)[..|lines|] == Values(lines);
    }

    /** Writes the chunk on a file, up to the first line that was never set; true if that one raised an exception. */
    method Write() returns (file: seq<string>, raised: bool)
      ensures raised <==> !T.AllSet(Value().lines)
      ensures file == T.ChunkOnFile(Value())
    {
      hide T.WriteLine, T.WriteLines, T.Positions, T.SetCount, Values;
      ghost var v := Values(lines);
      var src := Src();
      var dst := Dst();
      R.SrcByPosition(v);
      R.DstByPosition(v);
      file := [T.Positions(srcPos, |src|, dstPos, |dst|)];
      T.WriteNone(v);
      ghost var header := file;
      for i := 0 to |lines|
        invariant file == header + T.WriteLines(v[..i])
        invariant T.AllSet(v[..i])
      {
        if lines[i].kind == T.Unset {
          T.SetCountIs(v, i);
          return file, true;
        }
        T.WriteNext(v, i);
        assert v[..i + 1] == v[..i] + [v[i]];
        file := file + [T.WriteLine(lines[i].Value())];
      }
      assert v[..|lines|] == v;
      T.SetCountIs(v, |lines|);
      raised := false;
    }

    /** One turn of the rewriting loop, for the source line at position p and the destination line at position q. */
    method RestorePair(s: PatchChunkLine, d: PatchChunkLine, ghost p: nat, ghost q: nat)
      requires p < |lines| && q < |lines| && lines[p] == s && lines[q] == d
      requires forall k :: 0 <= k < |lines| && k != q ==> lines[k] != d
      modifies d`text
      ensures Values(lines) == R.RestoreAt(old(Values(lines)), p, q)
    {
      ghost var turn := Values(lines);
      assert turn[p] == s.Value() && turn[q] == d.Value();
      if R.LostBlank(s.text, d.text) {
        d.AppendToLine([s.text[|s.text| - 1]]);
      }
    }

    /** The rewriting loop for one chunk; true if it ran out of destination lines. */
    method Rewrite() returns (stopped: bool)
      requires Distinct(lines)
      modifies lines
      ensures Values(lines) == R.Rewritten(old(Values(lines)))
      ensures stopped <==> R.Stops(old(Values(lines)))
    {
      ghost var before := Values(lines);
      ghost var srcAt, dstAt := R.SrcAt(before), R.DstAt(before);
      var src := Src();
      var dst := Dst();
      hide *;
      RewriteStart(before, srcAt, dstAt);
      for i := 0 to |src|
        invariant i <= |dst|
        invariant Values(lines) == R.Restored(before, srcAt, dstAt, i)
      {
        if i == |dst| {
          RewriteEnd(before, i);
          return true;
        }
        OthersDiffer(lines, dstAt[i]);
        RestorePair(src[i], dst[i], srcAt[i], dstAt[i]);
        R.RestoredStep(before, srcAt, dstAt, i);
      }
      RewriteEnd(before, |src|);
      return false;
    }
  }

  /** The values of chunk objects. */
  ghost function ChunkValues(chunks: seq<PatchChunk>): (r: seq<T.Chunk>)
    reads *
    ensures |r| == |chunks| && forall k :: 0 <= k < |chunks| ==> r[k] == chunks[k].Value()
  {
    if chunks == [] then []
    else
      var n := |chunks| - 1;
      assert chunks[n] in chunks;
      ChunkValues(chunks[..n]) + [chunks[n].Value()]
  }

  ghost predicate Distinct(lines: seq<PatchChunkLine>) {
    forall k, m :: 0 <= k < m < |lines| ==> lines[k] != lines[m]
  }

  lemma OthersDiffer(lines: seq<PatchChunkLine>, q: nat)
    requires Distinct(lines) && q < |lines|
    ensures forall k :: 0 <= k < |lines| && k != q ==> lines[k] != lines[q]
  {
  }

  lemma RewriteStart(before: seq<T.Line>, srcAt: seq<nat>, dstAt: seq<nat>)
    requires srcAt == R.SrcAt(before) && dstAt == R.DstAt(before)
    ensures R.Restored(before, srcAt, dstAt, 0) == before
  {
  }

  lemma RewriteEnd(before: seq<T.Line>, i: nat)
    requires i <= |R.SrcAt(before)| && i <= |R.DstAt(before)| && (i == |R.SrcAt(before)| || i == |R.DstAt(before)|)
    ensures R.Restored(before, R.SrcAt(before), R.DstAt(before), i) == R.Rewritten(before)
    ensures i < |R.SrcAt(before)| <==> R.Stops(before)
  {
  }

  twostate lemma {:induction false} ValuesKept(lines: seq<PatchChunkLine>)
    requires forall l :: l in lines ==> unchanged(l)
    ensures Values(lines) == old(Values(lines))
  {
    if lines != [] {
      var n := |lines| - 1;
      assert lines[n] in lines && forall l :: l in lines[..n] ==> l in lines;
      ValuesKept(lines[..n]);
    }
  }

  twostate lemma ValueKept(c: PatchChunk)
    requires unchanged(c) && forall l :: l in c.lines ==> unchanged(l)
    ensures c.Value() == old(c.Value())
  {
    ValuesKept(c.lines);
  }

  class Patch {
    var src: string
    var dst: string
    var chunks: seq<PatchChunk>

    constructor ()
      ensures src == "" && dst == "" && chunks == []
    {
      src, dst, chunks := "", "", [];
    }

    method AddChunk(chunk: PatchChunk)
      modifies this`chunks
      ensures chunks == old(chunks) + [chunk]
    {
      chunks := chunks + [chunk];
    }

    /** Writes the patch on a file, up to the first line that was never set; true if that one raised an exception. */
    method Write() returns (file: seq<string>, raised: bool)
      ensures raised <==> !T.ChunksSet(ChunkValues(chunks))
      ensures file == T.PatchOnFile(T.Patch(src, dst, ChunkValues(chunks)))
    {
      hide PatchChunk.Value, T.ChunkOnFile, T.WriteChunk, T.WriteChunks, T.AllSet, T.WholeCount, ChunkValues;
      ghost var cv := ChunkValues(chunks);
      file := ["--- " + src + "\n", "+++ " + dst + "\n"];
      ghost var names := file;
      T.WriteNoChunks(cv);
      for i := 0 to |chunks|
        invariant file == names + T.WriteChunks(cv[..i])
        invariant T.ChunksSet(cv[..i])
        invariant forall k :: 0 <= k < |chunks| ==> chunks[k].Value() == cv[k]
      {
        var text, failed := chunks[i].Write();
        file := file + text;
        if failed {
          T.WholeCountIs(cv, i);
          assert ChunkValues(chunks) == cv;
          return file, true;
        }
        T.WholeChunk(cv[i]);
        T.WriteNextChunk(cv, i);
        assert cv[..i + 1] == cv[..i] + [cv[i]];
      }
      assert ChunkValues(chunks) == cv && cv[..|chunks|] == cv;
      T.WholeCountIs(cv, |chunks|);
      raised := false;
    }

    method SetSrc(src: string)
      modifies this`src
      ensures this.src == src
    {
      this.src := src;
    }

    method SetDst(dst: string)
      modifies this`dst
      ensures this.dst == dst
    {
      this.dst := dst;
    }
  }

  ghost predicate PatchesDistinct(patchset: seq<Patch>) {
    forall i, j :: 0 <= i < j < |patchset| ==> patchset[i] != patchset[j]
  }

  /** No chunk object occurs twice in the row, and no line object twice in all of them. */
  ghost predicate RowSeparate(row: seq<PatchChunk>)
    reads row
  {
    && (forall i, j :: 0 <= i < j < |row| ==> row[i] != row[j])
    && (forall i :: 0 <= i < |row| ==> Distinct(row[i].lines))
    && (forall i, j, l :: 0 <= i < j < |row| && l in row[i].lines ==> l !in row[j].lines)
  }

  /** All chunks of the row and all their lines belong to the patch set. */
  ghost predicate RowOwned(row: seq<PatchChunk>, repr: set<object>)
    reads row
  {
    forall c :: c in row ==> c in repr && forall l :: l in c.lines ==> l in repr
  }

  lemma RowOwnedMore(row: seq<PatchChunk>, repr: set<object>, repr': set<object>)
    requires RowOwned(row, repr) && repr <= repr'
    ensures RowOwned(row, repr')
  {
  }

  lemma RowOwnedGrows(row: seq<PatchChunk>, repr: set<object>, c: PatchChunk, repr': set<object>)
    requires RowOwned(row, repr) && repr <= repr'
    ensures RowOwned(row, repr')
    ensures c in repr' && c.lines == [] ==> RowOwned(row + [c], repr')
  {
  }

  function Part(row: seq<PatchChunk>, heads: seq<T.Head>, j: nat): seq<PatchChunk>
    requires j < |heads| && heads[j].first <= T.EndOf(heads, |row|, j) <= |row|
  {
    row[heads[j].first..T.EndOf(heads, |row|, j)]
  }

  lemma PartAt(row: seq<PatchChunk>, heads: seq<T.Head>, j: nat)
    requires T.InOrder(heads, |row|) && j < |heads|
    ensures heads[j].first <= T.EndOf(heads, |row|, j) <= |row|
    ensures |Part(row, heads, j)| == T.EndOf(heads, |row|, j) - heads[j].first
    ensures forall m :: 0 <= m < |Part(row, heads, j)| ==> Part(row, heads, j)[m] == row[heads[j].first + m]
  {
    var first, end := heads[j].first, T.EndOf(heads, |row|, j);
    assert first <= end <= |row|;
    hide T.InOrder;
  }

  /** A chunk at the end of the row falls to the last patch. */
  lemma RowGrowsAt(row: seq<PatchChunk>, c: PatchChunk, heads: seq<T.Head>, j: nat)
    requires T.InOrder(heads, |row|) && j < |heads|
    ensures heads[j].first <= T.EndOf(heads, |row|, j) <= |row|
    ensures heads[j].first <= T.EndOf(heads, |row + [c]|, j) <= |row + [c]|
    ensures Part(row + [c], heads, j) == Part(row, heads, j) + if j == |heads| - 1 then [c] else []
  {
    var first, end := heads[j].first, T.EndOf(heads, |row|, j);
    assert first <= end <= |row|;
    hide T.InOrder;
    assert (row + [c])[first..end] == row[first..end];
  }

  lemma RowGrows(row: seq<PatchChunk>, c: PatchChunk, heads: seq<T.Head>)
    requires T.InOrder(heads, |row|)
    ensures forall j :: 0 <= j < |heads| ==>
              && heads[j].first <= T.EndOf(heads, |row|, j) <= |row|
              && heads[j].first <= T.EndOf(heads, |row + [c]|, j) <= |row + [c]|
              && Part(row + [c], heads, j) == Part(row, heads, j) + if j == |heads| - 1 then [c] else []
  {
    hide T.InOrder, T.EndOf, Part;
    forall j | 0 <= j < |heads|
      ensures && heads[j].first <= T.EndOf(heads, |row|, j) <= |row|
              && heads[j].first <= T.EndOf(heads, |row + [c]|, j) <= |row + [c]|
              && Part(row + [c], heads, j) == Part(row, heads, j) + if j == |heads| - 1 then [c] else []
    {
      RowGrowsAt(row, c, heads, j);
    }
  }

  lemma NewPatchIsEmpty(row: seq<PatchChunk>, heads: seq<T.Head>, src: string, dst: string)
    requires T.InOrder(heads, |row|)
    ensures var heads' := heads + [T.Head(src, dst, |row|)];
            && (forall j :: 0 <= j < |heads| ==>
                  && heads[j].first <= T.EndOf(heads, |row|, j) <= |row|
                  && heads'[j].first <= T.EndOf(heads', |row|, j) <= |row|
                  && Part(row, heads', j) == Part(row, heads, j))
            && T.EndOf(heads', |row|, |heads|) == |row| && Part(row, heads', |heads|) == []
  {
  }

  lemma RenamingKeepsParts(row: seq<PatchChunk>, heads: seq<T.Head>, dst: string)
    requires T.InOrder(heads, |row|) && heads != []
    ensures var heads' := heads[|heads| - 1 := heads[|heads| - 1].(dst := dst)];
            forall j :: 0 <= j < |heads| ==>
              && heads[j].first <= T.EndOf(heads, |row|, j) <= |row|
              && heads'[j].first <= T.EndOf(heads', |row|, j) <= |row|
              && Part(row, heads', j) == Part(row, heads, j)
  {
  }

  /** A patch set as parse_patchset builds it up: its patches, all their chunks in one row, and what they stand for. */
  class PatchSet {
    var patchset: seq<Patch>
    ghost var row: seq<PatchChunk>
    ghost var st: T.Parsing
    ghost var Repr: set<object>
    var currentPatch: Patch?
    var currentChunk: PatchChunk?

    ghost predicate Owned()
      reads this, Repr
    {
      && this in Repr && (forall p :: p in patchset ==> p in Repr)
      && (forall c :: c in row ==> c in Repr) && RowOwned(row, Repr)
    }

    ghost predicate Shape()
      reads this
    {
      && |patchset| == |st.heads| && |row| == |st.chunks| && T.InOrder(st.heads, |row|)
      && currentPatch == (if patchset == [] then null else patchset[|patchset| - 1])
      && currentChunk == (if row == [] then null else row[|row| - 1])
    }

    ghost predicate PatchesOk()
      requires Owned() && Shape()
      reads this, Repr
    {
      forall j :: 0 <= j < |patchset| ==>
        && patchset[j].src == st.heads[j].src && patchset[j].dst == st.heads[j].dst
        && patchset[j].chunks == Part(row, st.heads, j)
    }

    ghost predicate ChunksOk()
      requires Owned() && Shape()
      reads this, Repr
    {
      forall i :: 0 <= i < |row| ==> row[i].Value() == st.chunks[i]
    }

    ghost predicate Valid()
      reads this, Repr
    {
      Owned() && PatchesDistinct(patchset) && RowSeparate(row) && Shape() && PatchesOk() && ChunksOk()
    }

    constructor ()
      ensures Valid() && fresh(Repr) && st == T.START
    {
      patchset, currentPatch, currentChunk := [], null, null;
      row, st, Repr := [], T.START, {this};
    }

    /** What stands for chunks is kept while neither the row nor its objects change. */
    twostate lemma ChunksKept()
      requires old(Owned() && Shape() && ChunksOk() && RowSeparate(row)) && Owned() && Shape()
      requires row == old(row) && st.chunks == old(st.chunks)
      requires forall c :: c in row ==> unchanged(c) && forall l :: l in c.lines ==> unchanged(l)
      ensures ChunksOk() && RowSeparate(row)
    {
      hide PatchChunk.Value, Values, T.InOrder;
      forall i | 0 <= i < |row|
        ensures row[i].Value() == st.chunks[i]
      {
        ValueKept(row[i]);
      }
    }

    /** A patch begun anew has no chunks, and the others keep theirs. */
    twostate lemma PatchStarted(new p: Patch)
      requires old(Owned() && Shape() && PatchesOk()) && Owned() && Shape()
      requires row == old(row) && patchset == old(patchset) + [p]
      requires st.heads == old(st.heads) + [T.Head(p.src, p.dst, |row|)] && p.chunks == []
      requires forall q :: q in old(patchset) ==> unchanged(q)
      ensures PatchesOk()
    {
      NewPatchIsEmpty(row, old(st.heads), p.src, p.dst);
      hide T.InOrder, Part;
      forall j | 0 <= j < |old(patchset)|
        ensures patchset[j].src == st.heads[j].src && patchset[j].dst == st.heads[j].dst
        ensures patchset[j].chunks == Part(row, st.heads, j)
      {
        assert patchset[j] == old(patchset)[j] && patchset[j] in old(patchset);
      }
    }

    twostate lemma PatchRenamed(name: string)
      requires old(Owned() && Shape() && PatchesOk()) && Owned() && Shape() && patchset != []
      requires row == old(row) && patchset == old(patchset) && PatchesDistinct(patchset)
      requires var n := |patchset| - 1;
               st.heads == old(st.heads)[n := old(st.heads)[n].(dst := name)]
               && patchset[n].dst == name && patchset[n].src == old(patchset[n].src)
               && patchset[n].chunks == old(patchset[n].chunks)
      requires forall q :: q in patchset && q != patchset[|patchset| - 1] ==> unchanged(q)
      ensures PatchesOk()
    {
      RenamingKeepsParts(row, old(st.heads), name);
      hide T.InOrder, Part;
      forall j | 0 <= j < |patchset|
        ensures patchset[j].src == st.heads[j].src && patchset[j].dst == st.heads[j].dst
        ensures patchset[j].chunks == Part(row, st.heads, j)
      {
        assert patchset[j] in patchset;
      }
    }

    twostate lemma ChunkStarted(new c: PatchChunk)
      requires old(Owned() && Shape() && PatchesOk()) && Owned() && Shape() && patchset != []
      requires row == old(row) + [c] && patchset == old(patchset) && PatchesDistinct(patchset)
      requires st.heads == old(st.heads)
      requires var n := |patchset| - 1;
               patchset[n].dst == old(patchset[n].dst) && patchset[n].src == old(patchset[n].src)
               && patchset[n].chunks == old(patchset[n].chunks) + [c]
      requires forall q :: q in patchset && q != patchset[|patchset| - 1] ==> unchanged(q)
      ensures PatchesOk()
    {
      RowGrows(old(row), c, st.heads);
      hide T.InOrder, Part;
      forall j | 0 <= j < |patchset|
        ensures patchset[j].src == st.heads[j].src && patchset[j].dst == st.heads[j].dst
        ensures patchset[j].chunks == Part(row, st.heads, j)
      {
        assert patchset[j] in patchset;
      }
    }

    twostate lemma ChunkAdded(new c: PatchChunk)
      requires old(Owned() && Shape() && ChunksOk() && RowSeparate(row)) && Owned() && Shape()
      requires row == old(row) + [c] && c !in old(row)
      requires st.chunks == old(st.chunks) + [c.Value()] && c.lines == []
      requires forall q :: q in old(row) ==> unchanged(q) && forall l :: l in q.lines ==> unchanged(l)
      ensures ChunksOk() && RowSeparate(row)
    {
      hide PatchChunk.Value, Values, T.InOrder;
      forall i | 0 <= i < |old(row)|
        ensures row[i].Value() == st.chunks[i]
      {
        ValueKept(old(row)[i]);
      }
    }

    method StartPatch(name: string)
      requires Valid()
      modifies Repr
      ensures Valid() && fresh(Repr - old(Repr))
      ensures T.Accept(old(st), T.SrcFile(name)) == Ok(st)
    {
      hide PatchChunk.Value, Values, T.InOrder, RowSeparate, RowOwned, PatchesOk, ChunksOk;
      T.InOrderGrows(st.heads, |row|, name, "");
      var p := new Patch();
      p.SetSrc(name);
      patchset := patchset + [p];
      currentPatch := p;
      RowOwnedMore(row, Repr, Repr + {p});
      Repr := Repr + {p};
      st := st.(heads := st.heads + [T.Head(name, "", |st.chunks|)]);
      PatchStarted(p);
      ChunksKept();
    }

    method NameDst(name: string)
      requires Valid() && currentPatch != null
      modifies Repr
      ensures Valid() && Repr == old(Repr)
      ensures T.Accept(old(st), T.DstFile(name)) == Ok(st)
    {
      hide PatchChunk.Value, Values, T.InOrder, RowSeparate, RowOwned, PatchesOk, ChunksOk;
      T.InOrderGrows(st.heads, |row|, "", name);
      currentPatch.SetDst(name);
      ghost var n := |st.heads| - 1;
      st := st.(heads := st.heads[n := st.heads[n].(dst := name)]);
      PatchRenamed(name);
      ChunksKept();
    }

    method StartChunk(srcPos: nat, dstPos: nat)
      requires Valid() && currentPatch != null
      modifies Repr
      ensures Valid() && fresh(Repr - old(Repr))
      ensures T.Accept(old(st), T.Header(srcPos, dstPos)) == Ok(st)
    {
      hide PatchChunk.Value, Values, T.InOrder, RowSeparate, RowOwned, PatchesOk, ChunksOk;
      T.InOrderGrows(st.heads, |row|, "", "");
      var c := new PatchChunk(srcPos, dstPos);
      currentPatch.AddChunk(c);
      currentChunk := c;
      RowOwnedGrows(row, Repr, c, Repr + {c});
      row := row + [c];
      Repr := Repr + {c};
      st := st.(chunks := st.chunks + [T.Chunk(srcPos, dstPos, [])]);
      ChunkStarted(c);
      ChunkAdded(c);
    }

    /** A line that was in no chunk before is now the last of the last chunk. */
    twostate lemma LineAdded(line: PatchChunkLine)
      requires old(Owned() && RowSeparate(row)) && row == old(row) && row != [] && old(line !in Repr)
      requires Repr == old(Repr) + {line} && patchset == old(patchset)
      requires row[|row| - 1].lines == old(row[|row| - 1].lines) + [line]
      requires forall i :: 0 <= i < |row| - 1 ==> unchanged(row[i])
      ensures Owned() && RowSeparate(row)
    {
      hide PatchChunk.Value, Values;
      assert forall i :: 0 <= i < |row| ==> row[i] in row && line !in old(row[i].lines);
    }

    method AddText(line: PatchChunkLine)
      requires Valid() && currentChunk != null && line !in Repr
      modifies Repr
      ensures Valid() && Repr == old(Repr) + {line}
      ensures T.Accept(old(st), T.Text(old(line.Value()))) == Ok(st)
    {
      hide PatchChunk.Value, Values, T.InOrder, Part;
      currentChunk.AddLine(line);
      Repr := Repr + {line};
      ghost var n := |st.chunks| - 1;
      st := st.(chunks := st.chunks[n := T.WithLine(st.chunks[n], line.Value())]);
      LineAdded(line);
      assert Shape();
      assert PatchesOk();
      assert ChunksOk();
    }

    /** After the lines of the chunk at i have been rewritten and nothing else has. */
    twostate lemma ChunkRewritten(i: nat)
      requires old(Valid()) && Owned() && Shape() && i < |row|
      requires row == old(row) && row[i].lines == old(row[i].lines)
      requires st.chunks == old(st.chunks)[i := row[i].Value()]
      requires forall c :: c in row ==> unchanged(c)
      requires forall c, l :: c in row && l in c.lines && l !in row[i].lines ==> unchanged(l)
      ensures ChunksOk()
    {
      hide PatchChunk.Value, Values, T.InOrder;
      forall k | 0 <= k < |row| && k != i
        ensures row[k].Value() == st.chunks[k]
      {
        assert row[k] in row;
        forall l | l in row[k].lines ensures unchanged(l) { assert l !in row[i].lines; }
        ValueKept(row[k]);
      }
    }

    method RewriteAt(chunk: PatchChunk, ghost i: nat) returns (stopped: bool)
      requires Valid() && i < |row| && chunk == row[i]
      modifies this`st, chunk.lines
      ensures Valid() && Repr == old(Repr)
      ensures st == old(st).(chunks := old(st.chunks)[i := R.RewriteChunk(old(st.chunks)[i])])
      ensures stopped <==> R.Stops(old(st.chunks)[i].lines)
    {
      hide T.InOrder, Part, RowSeparate, RowOwned, ChunksOk, Values, R.Rewritten, R.Stops;
      RowParts(i);
      stopped := chunk.Rewrite();
      st := st.(chunks := st.chunks[i := R.RewriteChunk(st.chunks[i])]);
      ChunkRewritten(i);
    }

    lemma RowParts(i: nat)
      requires Valid() && i < |row|
      ensures Distinct(row[i].lines) && row[i].Value() == st.chunks[i]
      ensures this in Repr && forall l :: l in row[i].lines ==> l in Repr
    {
      hide PatchChunk.Value, T.InOrder;
    }

    lemma CurrentOnes()
      requires Valid()
      ensures currentPatch == null <==> st.heads == []
      ensures currentChunk == null <==> st.chunks == []
    {
    }

    ghost function StartOf(j: nat): nat
      reads this
    {
      if j < |st.heads| then st.heads[j].first else |row|
    }

    lemma PatchAt(j: nat)
      requires Valid()
      ensures |patchset| == |st.heads| && |row| == |st.chunks| && StartOf(0) == 0
      ensures j < |patchset| ==>
                && StartOf(j + 1) == StartOf(j) + |patchset[j].chunks| <= |row| == |st.chunks|
                && forall m :: 0 <= m < |patchset[j].chunks| ==> patchset[j].chunks[m] == row[StartOf(j) + m]
    {
      hide PatchChunk.Value, Values, RowSeparate, RowOwned, PatchesDistinct, ChunksOk, Part;
      if j < |patchset| {
        PartAt(row, st.heads, j);
        assert patchset[j].chunks == Part(row, st.heads, j);
      }
    }

    /** The objects hold these patches: their names, and the values of their chunks. */
    ghost predicate Holds(patches: seq<T.Patch>)
      reads *
    {
      && |patches| == |patchset|
      && forall j :: 0 <= j < |patches| ==>
           patches[j] == T.Patch(patchset[j].src, patchset[j].dst, ChunkValues(patchset[j].chunks))
    }

    lemma HoldsParsed()
      requires Valid()
      ensures T.InOrder(st.heads, |st.chunks|) && Holds(T.Assemble(st.heads, st.chunks))
    {
      hide PatchChunk.Value, Values, RowSeparate, RowOwned, PatchesDistinct, Part, T.InOrder;
      forall j: nat | j < |patchset|
        ensures T.Assemble(st.heads, st.chunks)[j]
                == T.Patch(patchset[j].src, patchset[j].dst, ChunkValues(patchset[j].chunks))
      {
        T.AssembleAt(st.heads, st.chunks, j);
        PartAt(row, st.heads, j);
        var chunks := patchset[j].chunks;
        assert chunks == Part(row, st.heads, j);
        assert ChunkValues(chunks) == st.chunks[st.heads[j].first..T.EndOf(st.heads, |st.chunks|, j)];
      }
    }

    /** Where the rewrite stands before patch j, with i chunks rewritten and none of them having stopped it. */
    ghost predicate RewrittenUpTo(before: T.Parsing, i: nat)
      reads this
    {
      && i <= |before.chunks| && st == before.(chunks := R.RewriteFirst(before.chunks, i))
      && forall k :: 0 <= k < i ==> !R.Stops(before.chunks[k].lines)
    }

    /** The loop over the chunks of patch j; true if one of them stopped the rewrite. */
    method RewritePatch(patch: Patch, ghost j: nat, ghost before: T.Parsing) returns (stopped: bool)
      requires Valid() && j < |patchset| && patch == patchset[j] && RewrittenUpTo(before, StartOf(j))
      modifies Repr
      ensures Valid() && Repr == old(Repr) && patchset == old(patchset)
      ensures if stopped then st == before.(chunks := R.RewriteRow(before.chunks))
              else RewrittenUpTo(before, StartOf(j + 1))
    {
      hide R.RewriteChunk, R.RewriteFirst, R.Stops, R.ReachedCount, Valid, T.InOrder;
      PatchAt(j);
      var chunks := patch.chunks;
      ghost var i := StartOf(j);
      ghost var start := i;
      for m := 0 to |chunks|
        invariant Valid() && Repr == old(Repr) && patchset == old(patchset) && chunks == patchset[j].chunks
        invariant start == StartOf(j) && i == start + m && RewrittenUpTo(before, i)
      {
        PatchAt(j);
        RowParts(i);
        R.RewriteNext(before.chunks, i);
        stopped := RewriteAt(chunks[m], i);
        i := i + 1;
        if stopped {
          R.ReachedCountIs(before.chunks, i);
          return;
        }
      }
      PatchAt(j);
      stopped := false;
    }

    /** The loops of remove_trailing_whitespace_changes. */
    method Rewrite()
      requires Valid()
      modifies Repr
      ensures Valid() && Repr == old(Repr)
      ensures st == old(st).(chunks := R.RewriteRow(old(st.chunks)))
    {
      hide R.RewriteChunk, R.RewriteFirst, R.Stops, R.ReachedCount, Valid, T.InOrder;
      ghost var before := st;
      PatchAt(0);
      assert RewrittenUpTo(before, StartOf(0)) by { R.NothingRewritten(st.chunks); }
      for j := 0 to |patchset|
        invariant Valid() && Repr == old(Repr) && patchset == old(patchset)
        invariant RewrittenUpTo(before, StartOf(j))
      {
        var stopped := RewritePatch(patchset[j], j, before);
        if stopped {
          return;
        }
      }
      PatchAt(|patchset|);
      R.ReachedCountIs(before.chunks, StartOf(|patchset|));
    }
  }

  /** parse_patchset */
  method ParsePatchset(lines: seq<string>) returns (r: Result<PatchSet, T.PatchError>)
    ensures r.Ok? ==> r.value.Valid() && fresh(r.value.Repr) && T.Feed(T.START, lines) == Ok(r.value.st)
    ensures r.Err? ==> T.Feed(T.START, lines) == Err(r.error)
    ensures match T.ParseOf(lines)
            case Ok(patches) => r.Ok? && r.value.Holds(patches)
            case Err(e) => r == Err(e)
  {
    hide T.Classify, T.Feed, T.Assemble, T.InOrder, PatchSet.Valid, PatchSet.Holds;
    var ps := new PatchSet();
    FeedNone();
    for i := 0 to |lines|
      invariant ps.Valid() && fresh(ps.Repr) && T.Feed(T.START, lines[..i]) == Ok(ps.st)
    {
      FeedNext(lines, i);
      ps.CurrentOnes();
      match T.Classify(lines[i])
      case SrcFile(name) => ps.StartPatch(name);
      case DstFile(name) =>
        if ps.currentPatch == null {
          FeedFails(lines, i + 1);
          return Err(T.AttributeError);
        }
        ps.NameDst(name);
      case Header(srcPos, dstPos) =>
        if ps.currentPatch == null {
          FeedFails(lines, i + 1);
          return Err(T.AttributeError);
        }
        ps.StartChunk(srcPos, dstPos);
      case Text(line) =>
        var l := NewLine(line);
        if ps.currentChunk == null {
          FeedFails(lines, i + 1);
          return Err(T.UnboundLocalError);
        }
        ps.AddText(l);
      case Unknown =>
        FeedFails(lines, i + 1);
        return Err(T.PlainException);
    }
    assert lines[..|lines|] == lines;
    ps.HoldsParsed();
    r := Ok(ps);
  }

  method RemoveTrailingWhitespaceChanges(lines: seq<string>) returns (r: Result<PatchSet, T.PatchError>)
    ensures match T.Feed(T.START, lines)
            case Err(e) => r == Err(e)
            case Ok(read) =>
              && r.Ok? && r.value.Valid() && r.value.st == T.Parsing(read.heads, R.RewriteRow(read.chunks))
              && T.InOrder(read.heads, |r.value.st.chunks|)
              && r.value.Holds(T.Assemble(read.heads, R.RewriteRow(read.chunks)))
  {
    hide *;
    r := ParsePatchset(lines);
    if r.Ok? {
      r.value.Rewrite();
      r.value.HoldsParsed();
    }
  }

  /** A new line object, set by what the pattern that matched says. */
  method NewLine(line: T.Line) returns (l: PatchChunkLine)
    ensures fresh(l) && l.Value() == line
  {
    l := new PatchChunkLine();
    match line.kind
    case Src => l.SetSrc(line.text);
    case Dst => l.SetDst(line.text);
    case Both => l.SetBoth(line.text);
    case Unset => l.text := line.text;
  }

  lemma FeedNone()
    ensures forall lines: seq<string> :: T.Feed(T.START, lines[..0]) == Ok(T.START)
  {
  }

  lemma FeedNext(lines: seq<string>, i: nat)
    requires i < |lines| && T.Feed(T.START, lines[..i]).Ok?
    ensures T.Feed(T.START, lines[..i + 1]) == T.Accept(T.Feed(T.START, lines[..i]).value, T.Classify(lines[i]))
  {
    hide T.Accept, T.Classify;
    assert lines[..i + 1][..i] == lines[..i];
  }

  lemma {:induction false} FeedFails(lines: seq<string>, n: nat)
    requires n <= |lines| && T.Feed(T.START, lines[..n]).Err?
    ensures T.Feed(T.START, lines) == T.Feed(T.START, lines[..n])
  {
    if n == |lines| {
      assert lines[..n] == lines;
    } else {
      assert lines[..|lines| - 1][..n] == lines[..n];
      FeedFails(lines[..|lines| - 1], n);
    }
  }
}
