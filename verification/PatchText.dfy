/** utils/check-style.py: unified diffs as text, printed by Patch.write and read back by parse_patchset. */
module PatchText {
  import opened Wrappers

  /** What a line object stands for; unset until it is given a text. */
  datatype Kind = Unset | Src | Dst | Both

  datatype Line = Line(kind: Kind, text: string) {
    predicate IsSrc() { kind == Src || kind == Both }
    predicate IsDst() { kind == Dst || kind == Both }
  }

  datatype Chunk = Chunk(srcPos: nat, dstPos: nat, lines: seq<Line>)

  datatype Patch = Patch(src: string, dst: string, chunks: seq<Chunk>)

  /** Every line has been given a text. */
  predicate AllSet(lines: seq<Line>) {
    forall k :: 0 <= k < |lines| ==> lines[k].kind != Unset
  }

  /** The lines before the first that has not. */
  function SetCount(lines: seq<Line>): (n: nat)
    ensures n <= |lines| && AllSet(lines[..n]) && (n < |lines| ==> lines[n].kind == Unset)
  {
    if lines == [] || lines[0].kind == Unset then 0
    else
      var n := SetCount(lines[1..]);
      assert lines[..n + 1] == [lines[0]] + lines[1..][..n];
      n + 1
  }

  lemma {:induction false} SetCountIs(lines: seq<Line>, n: nat)
    requires n <= |lines| && AllSet(lines[..n]) && (n < |lines| ==> lines[n].kind == Unset)
    ensures SetCount(lines) == n && (AllSet(lines) <==> n == |lines|)
  {
    assert lines[..|lines|] == lines;
    if n > 0 {
      assert lines[..n][0] == lines[0] && lines[..n][1..] == lines[1..][..n - 1];
      SetCountIs(lines[1..], n - 1);
    }
  }

  predicate ChunksSet(chunks: seq<Chunk>) {
    forall k :: 0 <= k < |chunks| ==> AllSet(chunks[k].lines)
  }

  /** The chunks before the first that has an unset line. */
  function WholeCount(chunks: seq<Chunk>): (n: nat)
    ensures n <= |chunks| && ChunksSet(chunks[..n]) && (n < |chunks| ==> !AllSet(chunks[n].lines))
  {
    if chunks == [] || !AllSet(chunks[0].lines) then 0
    else
      var n := WholeCount(chunks[1..]);
      assert chunks[..n + 1] == [chunks[0]] + chunks[1..][..n];
      n + 1
  }

  lemma {:induction false} WholeCountIs(chunks: seq<Chunk>, n: nat)
    requires n <= |chunks| && ChunksSet(chunks[..n]) && (n < |chunks| ==> !AllSet(chunks[n].lines))
    ensures WholeCount(chunks) == n && (ChunksSet(chunks) <==> n == |chunks|)
  {
    hide AllSet;
    assert chunks[..|chunks|] == chunks;
    if n > 0 {
      assert chunks[..n][0] == chunks[0] && chunks[..n][1..] == chunks[1..][..n - 1];
      WholeCountIs(chunks[1..], n - 1);
    }
  }

  function SrcLines(lines: seq<Line>): seq<Line> {
    if lines == [] then []
    else SrcLines(lines[..|lines| - 1]) + if lines[|lines| - 1].IsSrc() then [lines[|lines| - 1]] else []
  }

  function DstLines(lines: seq<Line>): seq<Line> {
    if lines == [] then []
    else DstLines(lines[..|lines| - 1]) + if lines[|lines| - 1].IsDst() then [lines[|lines| - 1]] else []
  }

  // ----- Decimal numbers

  predicate IsDigit(c: char) {
    '0' <= c <= '9'
  }

  function DigitOf(d: nat): (c: char)
    requires d < 10
    ensures IsDigit(c) && ValueOf(c) == d
  {
    "0123456789"[d]
  }

  function ValueOf(c: char): nat
    requires IsDigit(c)
  {
    (c as int) - ('0' as int)
  }

  function Decimal(n: nat): (s: string)
    ensures s != "" && forall i :: 0 <= i < |s| ==> IsDigit(s[i])
  {
    if n < 10 then [DigitOf(n)] else Decimal(n / 10) + [DigitOf(n % 10)]
  }

  function ParseNat(s: string): nat
    requires forall i :: 0 <= i < |s| ==> IsDigit(s[i])
  {
    if s == "" then 0 else 10 * ParseNat(s[..|s| - 1]) + ValueOf(s[|s| - 1])
  }

  lemma {:induction false} ParseDecimal(n: nat)
    ensures ParseNat(Decimal(n)) == n
  {
    var s := Decimal(n);
    if n >= 10 {
      ParseDecimal(n / 10);
      assert s[..|s| - 1] == Decimal(n / 10);
    } else {
      assert s[..0] == "";
    }
  }

  // ----- Printing

  function WriteLine(l: Line): string {
    match l.kind
    case Src => "-" + l.text + "\n"
    case Dst => "+" + l.text + "\n"
    case Both => " " + l.text + "\n"
    case Unset => ""
  }

  function Positions(srcPos: nat, srcLen: nat, dstPos: nat, dstLen: nat): string {
    "@@ -" + Decimal(srcPos) + "," + Decimal(srcLen) + " +" + Decimal(dstPos) + "," + Decimal(dstLen) + " @@" + "\n"
  }

  /** The lengths in a header are counted anew from the lines. */
  function WriteHeader(c: Chunk): string {
    Positions(c.srcPos, |SrcLines(c.lines)|, c.dstPos, |DstLines(c.lines)|)
  }

  function WriteLines(lines: seq<Line>): seq<string> {
    if lines == [] then [] else WriteLines(lines[..|lines| - 1]) + [WriteLine(lines[|lines| - 1])]
  }

  lemma WriteNone(lines: seq<Line>)
    ensures WriteLines(lines[..0]) == []
  {
  }

  lemma WriteNext(lines: seq<Line>, i: nat)
    requires i < |lines|
    ensures WriteLines(lines[..i + 1]) == WriteLines(lines[..i]) + [WriteLine(lines[i])]
  {
    assert lines[..i + 1][..i] == lines[..i];
  }

  function WriteChunk(c: Chunk): seq<string> {
    [WriteHeader(c)] + WriteLines(c.lines)
  }

  function WriteChunks(chunks: seq<Chunk>): seq<string> {
    if chunks == [] then [] else WriteChunks(chunks[..|chunks| - 1]) + WriteChunk(chunks[|chunks| - 1])
  }

  lemma WriteNoChunks(chunks: seq<Chunk>)
    ensures WriteChunks(chunks[..0]) == []
  {
  }

  lemma WriteNextChunk(chunks: seq<Chunk>, i: nat)
    requires i < |chunks|
    ensures WriteChunks(chunks[..i + 1]) == WriteChunks(chunks[..i]) + WriteChunk(chunks[i])
  {
    hide WriteChunk;
    assert chunks[..i + 1][..i] == chunks[..i];
  }

  function WritePatch(p: Patch): seq<string> {
    ["--- " + p.src + "\n", "+++ " + p.dst + "\n"] + WriteChunks(p.chunks)
  }

  /** What is on file when writing a chunk ends, by itself or in an exception at a line that was never set. */
  function ChunkOnFile(c: Chunk): seq<string> {
    [WriteHeader(c)] + WriteLines(c.lines[..SetCount(c.lines)])
  }

  function PatchOnFile(p: Patch): seq<string> {
    var n := WholeCount(p.chunks);
    ["--- " + p.src + "\n", "+++ " + p.dst + "\n"] + WriteChunks(p.chunks[..n]) +
    if n < |p.chunks| then ChunkOnFile(p.chunks[n]) else []
  }

  /** If nothing was unset, that is everything. */
  lemma OnFileIsAll(p: Patch)
    ensures forall c :: c in p.chunks && AllSet(c.lines) ==> ChunkOnFile(c) == WriteChunk(c)
    ensures ChunksSet(p.chunks) ==> PatchOnFile(p) == WritePatch(p)
  {
    hide WriteLines, WriteChunks, WriteHeader, AllSet, SetCount;
    forall c | c in p.chunks && AllSet(c.lines)
      ensures ChunkOnFile(c) == WriteChunk(c)
    {
      WholeChunk(c);
    }
    if ChunksSet(p.chunks) {
      assert p.chunks[..|p.chunks|] == p.chunks;
      WholeCountIs(p.chunks, |p.chunks|);
    }
  }

  lemma WholeChunk(c: Chunk)
    requires AllSet(c.lines)
    ensures ChunkOnFile(c) == WriteChunk(c)
  {
    assert c.lines[..|c.lines|] == c.lines;
    SetCountIs(c.lines, |c.lines|);
  }

  function WriteAll(patches: seq<Patch>): seq<string> {
    if patches == [] then [] else WriteAll(patches[..|patches| - 1]) + WritePatch(patches[|patches| - 1])
  }

  // ----- Reading one line

  /** The part of a line that "(.*)$" can match up to: the line without its line end, if that is its only one. */
  function Body(line: string): Option<string> {
    var b := if line != "" && line[|line| - 1] == '\n' then line[..|line| - 1] else line;
    if '\n' in b then None else Some(b)
  }

  /** What follows a fixed prefix. */
  function After(s: string, prefix: string): Option<string> {
    if prefix <= s then Some(s[|prefix|..]) else None
  }

  function DigitCount(s: string): (n: nat)
    ensures n <= |s| && (forall i :: 0 <= i < n ==> IsDigit(s[i])) && (n < |s| ==> !IsDigit(s[n]))
  {
    if s == "" || !IsDigit(s[0]) then 0
    else
      var n := DigitCount(s[1..]);
      assert forall i :: 0 < i < n + 1 ==> s[i] == s[1..][i - 1];
      n + 1
  }

  /** A number of at least one digit, and what follows it. */
  function Number(s: string): Option<(nat, string)> {
    var n := DigitCount(s);
    if n == 0 then None else Some((ParseNat(s[..n]), s[n..]))
  }

  /** The start positions in a chunk header; the lengths must be there but are not used. */
  function ChunkStart(line: string): Option<(nat, nat)> {
    match After(line, "@@ -") case None => None case Some(s1) =>
    match Number(s1) case None => None case Some((srcPos, s2)) =>
    match After(s2, ",") case None => None case Some(s3) =>
    match Number(s3) case None => None case Some((_, s4)) =>
    match After(s4, " +") case None => None case Some(s5) =>
    match Number(s5) case None => None case Some((dstPos, s6)) =>
    match After(s6, ",") case None => None case Some(s7) =>
    match Number(s7) case None => None case Some((_, s8)) =>
    match After(s8, " @@") case None => None case Some(_) => Some((srcPos, dstPos))
  }

  datatype Item =
    | SrcFile(name: string) | DstFile(name: string) | Header(srcPos: nat, dstPos: nat) | Text(line: Line) | Unknown

  /** The patterns in the order they are tried. */
  function Classify(line: string): Item {
    var b := Body(line);
    if b.Some? && "--- " <= b.value then SrcFile(b.value[4..])
    else if b.Some? && "+++ " <= b.value then DstFile(b.value[4..])
    else if ChunkStart(line).Some? then Header(ChunkStart(line).value.0, ChunkStart(line).value.1)
    else if b.Some? && "-" <= b.value then Text(Line(Src, b.value[1..]))
    else if b.Some? && "+" <= b.value then Text(Line(Dst, b.value[1..]))
    else if b.Some? && " " <= b.value then Text(Line(Both, b.value[1..]))
    else Unknown
  }

  // ----- Reading a patch set

  /**
   * The patches begun so far and all their chunks in one row: a patch's chunks are those from its first on,
   * up to the next patch's. The current patch and the current chunk are the last ones.
   */
  datatype Head = Head(src: string, dst: string, first: nat)

  datatype Parsing = Parsing(heads: seq<Head>, chunks: seq<Chunk>)

  datatype PatchError = AttributeError | UnboundLocalError | PlainException

  type Parsed = Result<Parsing, PatchError>

  const START := Parsing([], [])

  function WithLine(c: Chunk, l: Line): Chunk {
    c.(lines := c.lines + [l])
  }

  function Accept(st: Parsing, item: Item): Parsed {
    match item
    case SrcFile(name) => Ok(st.(heads := st.heads + [Head(name, "", |st.chunks|)]))
    case DstFile(name) =>
      if st.heads == [] then Err(AttributeError)
      else var n := |st.heads| - 1; Ok(st.(heads := st.heads[n := st.heads[n].(dst := name)]))
    case Header(srcPos, dstPos) =>
      if st.heads == [] then Err(AttributeError)
      else Ok(st.(chunks := st.chunks + [Chunk(srcPos, dstPos, [])]))
    case Text(line) =>
      if st.chunks == [] then Err(UnboundLocalError)
      else var n := |st.chunks| - 1; Ok(st.(chunks := st.chunks[n := WithLine(st.chunks[n], line)]))
    case Unknown => Err(PlainException)
  }

  function Feed(st: Parsing, lines: seq<string>): Parsed {
    if lines == [] then Ok(st)
    else
      match Feed(st, lines[..|lines| - 1])
      case Err(e) => Err(e)
      case Ok(st') => Accept(st', Classify(lines[|lines| - 1]))
  }

  ghost predicate InOrder(heads: seq<Head>, n: nat) {
    && (forall i, j :: 0 <= i < j < |heads| ==> heads[i].first <= heads[j].first)
    && (forall i :: 0 <= i < |heads| ==> heads[i].first <= n)
    && if heads == [] then n == 0 else heads[0].first == 0
  }

  /** A new patch starts at the end of the row; a new chunk and a new name disturb nothing. */
  lemma InOrderGrows(heads: seq<Head>, n: nat, src: string, dst: string)
    requires InOrder(heads, n)
    ensures InOrder(heads + [Head(src, dst, n)], n)
    ensures heads != [] ==> InOrder(heads, n + 1)
    ensures heads != [] ==> InOrder(heads[|heads| - 1 := heads[|heads| - 1].(dst := dst)], n)
  {
  }

  lemma {:induction false} FeedInOrder(lines: seq<string>)
    requires Feed(START, lines).Ok?
    ensures InOrder(Feed(START, lines).value.heads, |Feed(START, lines).value.chunks|)
  {
    hide Classify;
    if lines != [] {
      FeedInOrder(lines[..|lines| - 1]);
    }
  }

  /** Where the chunks of the j-th patch end in a row of n. */
  function EndOf(heads: seq<Head>, n: nat, j: nat): nat
    requires j < |heads|
  {
    if j + 1 < |heads| then heads[j + 1].first else n
  }

  /** The patch set as nested values. */
  ghost function Assemble(heads: seq<Head>, chunks: seq<Chunk>): (ps: seq<Patch>)
    requires InOrder(heads, |chunks|)
    ensures |ps| == |heads|
  {
    if heads == [] then []
    else
      var n := |heads| - 1;
      Assemble(heads[..n], chunks[..heads[n].first]) + [Patch(heads[n].src, heads[n].dst, chunks[heads[n].first..])]
  }

  /** A patch of the set has the chunks of its stretch of the row. */
  lemma {:induction false} AssembleAt(heads: seq<Head>, chunks: seq<Chunk>, j: nat)
    requires InOrder(heads, |chunks|) && j < |heads|
    ensures heads[j].first <= EndOf(heads, |chunks|, j) <= |chunks|
    ensures Assemble(heads, chunks)[j]
            == Patch(heads[j].src, heads[j].dst, chunks[heads[j].first..EndOf(heads, |chunks|, j)])
    decreases |heads|
  {
    var n := |heads| - 1;
    if j < n {
      var before, row := heads[..n], chunks[..heads[n].first];
      AssembleAt(before, row, j);
      assert EndOf(before, |row|, j) == EndOf(heads, |chunks|, j);
    }
  }

  /** What parse_patchset makes of the lines. */
  ghost function ParseOf(lines: seq<string>): Result<seq<Patch>, PatchError> {
    match Feed(START, lines)
    case Err(e) => Err(e)
    case Ok(st) => FeedInOrder(lines); Ok(Assemble(st.heads, st.chunks))
  }

  // ----- Reading what was printed

  predicate OneLine(s: string) {
    '\n' !in s
  }

  /** A printed line that will be taken for a file name: a removed "-- ..." or an added "++ ...". */
  predicate Confusing(l: Line) {
    (l.kind == Src && "-- " <= l.text) || (l.kind == Dst && "++ " <= l.text)
  }

  predicate LineOk(l: Line) {
    l.kind != Unset && OneLine(l.text)
  }

  predicate PatchOk(p: Patch) {
    OneLine(p.src) && OneLine(p.dst) && forall c, l :: c in p.chunks && l in c.lines ==> LineOk(l)
  }

  /** No name or text breaks a line, and every line says what it stands for. */
  predicate Printable(patches: seq<Patch>) {
    forall p :: p in patches ==> PatchOk(p)
  }

  lemma ClassifySrcFile(name: string)
    requires OneLine(name)
    ensures Classify("--- " + name + "\n") == SrcFile(name)
  {
    hide ChunkStart;
    var a := "--- " + name + "\n";
    assert a[..|a| - 1] == "--- " + name;
    assert Body(a) == Some("--- " + name);
    assert ("--- " + name)[4..] == name;
  }

  lemma ClassifyDstFile(name: string)
    requires OneLine(name)
    ensures Classify("+++ " + name + "\n") == DstFile(name)
  {
    hide ChunkStart;
    var b := "+++ " + name + "\n";
    assert b[..|b| - 1] == "+++ " + name;
    assert Body(b) == Some("+++ " + name);
    assert ("+++ " + name)[4..] == name && ("+++ " + name)[0] == '+';
  }

  lemma NumberOfDecimal(n: nat, rest: string)
    requires rest != "" && !IsDigit(rest[0])
    ensures Number(Decimal(n) + rest) == Some((n, rest))
  {
    var d := Decimal(n);
    var s := d + rest;
    var k := DigitCount(s);
    assert s[|d|] == rest[0];
    assert forall i :: 0 <= i < |d| ==> s[i] == d[i];
    assert s[..|d|] == d && s[|d|..] == rest;
    ParseDecimal(n);
  }

  lemma AfterPrefix(prefix: string, rest: string)
    ensures After(prefix + rest, prefix) == Some(rest)
  {
  }

  lemma ReadHeader(srcPos: nat, srcLen: nat, dstPos: nat, dstLen: nat)
    ensures ChunkStart("@@ -" + (Decimal(srcPos) + ("," + (Decimal(srcLen) + (" +" + (Decimal(dstPos) +
                       ("," + (Decimal(dstLen) + (" @@" + "\n"))))))))) == Some((srcPos, dstPos))
  {
    hide Number, After, Decimal;
    var s8 := " @@" + "\n";
    var s6 := "," + (Decimal(dstLen) + s8);
    var s4 := " +" + (Decimal(dstPos) + s6);
    var s2 := "," + (Decimal(srcLen) + s4);
    AfterPrefix("@@ -", Decimal(srcPos) + s2);
    NumberOfDecimal(srcPos, s2);
    AfterPrefix(",", Decimal(srcLen) + s4);
    NumberOfDecimal(srcLen, s4);
    AfterPrefix(" +", Decimal(dstPos) + s6);
    NumberOfDecimal(dstPos, s6);
    AfterPrefix(",", Decimal(dstLen) + s8);
    NumberOfDecimal(dstLen, s8);
    AfterPrefix(" @@", "\n");
  }

  lemma ClassifyHeader(c: Chunk)
    ensures Classify(WriteHeader(c)) == Header(c.srcPos, c.dstPos)
  {
    hide Decimal, ChunkStart, SrcLines, DstLines;
    var a, b, d, e := Decimal(c.srcPos), Decimal(|SrcLines(c.lines)|), Decimal(c.dstPos), Decimal(|DstLines(c.lines)|);
    ReadHeader(c.srcPos, |SrcLines(c.lines)|, c.dstPos, |DstLines(c.lines)|);
    assert WriteHeader(c) == "@@ -" + (a + ("," + (b + (" +" + (d + ("," + (e + (" @@" + "\n"))))))));
    StartsWithAt(WriteHeader(c));
  }

  lemma StartsWithAt(line: string)
    requires line != "" && line[0] == '@' && ChunkStart(line).Some?
    ensures Classify(line) == Header(ChunkStart(line).value.0, ChunkStart(line).value.1)
  {
    hide ChunkStart;
    var b := Body(line);
    if b.Some? && b.value != "" { assert b.value[0] == '@'; }
  }

  /** A sign before the text makes a file name line just where the text carries on so. */
  lemma SignedPrefix(sign: char, text: string, c: char)
    ensures [c, c, c, ' '] <= [sign] + text <==> sign == c && [c, c, ' '] <= text
  {
    var s := [sign] + text;
    if [c, c, c, ' '] <= s {
      assert s[0] == c && s[1] == c && s[2] == c && s[3] == ' ';
      assert text[0] == s[1] && text[1] == s[2] && text[2] == s[3];
    }
  }

  lemma ClassifyLine(l: Line)
    requires LineOk(l)
    ensures !Confusing(l) ==> Classify(WriteLine(l)) == Text(l)
    ensures Confusing(l) ==> Classify(WriteLine(l)).SrcFile? || Classify(WriteLine(l)).DstFile?
  {
    hide ChunkStart;
    var line := WriteLine(l);
    var body := line[..|line| - 1];
    var sign := line[0];
    assert body == [sign] + l.text && body[1..] == l.text;
    assert Body(line) == Some(body);
    assert ChunkStart(line) == None by { NotAHeader(line); }
    SignedPrefix(sign, l.text, '-');
    SignedPrefix(sign, l.text, '+');
    assert ['-', '-', '-', ' '] == "--- " && ['-', '-', ' '] == "-- ";
    assert ['+', '+', '+', ' '] == "+++ " && ['+', '+', ' '] == "++ ";
  }

  lemma NotAHeader(line: string)
    requires line != "" && line[0] != '@'
    ensures ChunkStart(line) == None
  {
  }
}
