/** utils/check-style.py: what the line patterns of parse_patchset match, and what a printed chunk header says. */
module PatchPatterns {
  import opened Wrappers
  import opened PatchText

  // ----- The pattern of chunk headers

  predicate IsNumber(s: string) {
    s != "" && forall i :: 0 <= i < |s| ==> IsDigit(s[i])
  }

  /** The four numbers of a chunk header, as written, and anything behind the second pair of signs. */
  datatype HeaderText = HeaderText(srcPos: string, srcLen: string, dstPos: string, dstLen: string, rest: string) {
    predicate Valid() {
      IsNumber(srcPos) && IsNumber(srcLen) && IsNumber(dstPos) && IsNumber(dstLen)
    }

    function Line(): string {
      "@@ -" + srcPos + "," + srcLen + " +" + dstPos + "," + dstLen + " @@" + rest
    }
  }

  lemma NumberOfDigits(digits: string, rest: string)
    requires IsNumber(digits) && rest != "" && !IsDigit(rest[0])
    ensures Number(digits + rest) == Some((ParseNat(digits), rest)) && DigitCount(digits + rest) == |digits|
  {
    var s := digits + rest;
    var k := DigitCount(s);
    assert s[|digits|] == rest[0];
    assert forall i :: 0 <= i < |digits| ==> s[i] == digits[i];
    assert s[..|digits|] == digits && s[|digits|..] == rest;
  }

  /** The line in pieces, from the right. */
  lemma InPieces(h: HeaderText)
    ensures h.Line() ==
            "@@ -" + (h.srcPos + ("," + (h.srcLen + (" +" + (h.dstPos + ("," + (h.dstLen + (" @@" + h.rest))))))))
  {
    Assoc8("@@ -", h.srcPos, ",", h.srcLen, " +", h.dstPos, ",", h.dstLen, " @@", h.rest);
  }

  lemma Assoc8(a: string, b: string, c: string, d: string, e: string, f: string, g: string, h: string, i: string,
               j: string)
    ensures a + b + c + d + e + f + g + h + i + j == a + (b + (c + (d + (e + (f + (g + (h + (i + j))))))))
  {
    Assoc(a + b + c + d + e + f + g + h, i, j);
    Assoc(a + b + c + d + e + f + g, h, i + j);
    Assoc(a + b + c + d + e + f, g, h + (i + j));
    Assoc(a + b + c + d + e, f, g + (h + (i + j)));
    Assoc(a + b + c + d, e, f + (g + (h + (i + j))));
    Assoc(a + b + c, d, e + (f + (g + (h + (i + j)))));
    Assoc(a + b, c, d + (e + (f + (g + (h + (i + j))))));
    Assoc(a, b, c + (d + (e + (f + (g + (h + (i + j)))))));
  }

  lemma Assoc(a: string, b: string, c: string)
    ensures a + b + c == a + (b + c)
  {
  }

  /** Every line of that form is a header, whatever stands behind it. */
  lemma HeaderIsRead(h: HeaderText)
    requires h.Valid()
    ensures ChunkStart(h.Line()) == Some((ParseNat(h.srcPos), ParseNat(h.dstPos)))
    ensures Classify(h.Line()) == Header(ParseNat(h.srcPos), ParseNat(h.dstPos))
  {
    InPieces(h);
    PiecesAreRead(h.srcPos, h.srcLen, h.dstPos, h.dstLen, h.rest);
    StartsWithAt(h.Line());
  }

  lemma PiecesAreRead(a: string, b: string, c: string, d: string, rest: string)
    requires IsNumber(a) && IsNumber(b) && IsNumber(c) && IsNumber(d)
    ensures ChunkStart("@@ -" + (a + ("," + (b + (" +" + (c + ("," + (d + (" @@" + rest)))))))))
            == Some((ParseNat(a), ParseNat(c)))
  {
    hide Number, After, ParseNat, IsNumber;
    var s8 := " @@" + rest;
    var s6 := "," + (d + s8);
    var s4 := " +" + (c + s6);
    var s2 := "," + (b + s4);
    AfterPrefix("@@ -", a + s2);
    NumberOfDigits(a, s2);
    AfterPrefix(",", b + s4);
    NumberOfDigits(b, s4);
    AfterPrefix(" +", c + s6);
    NumberOfDigits(c, s6);
    AfterPrefix(",", d + s8);
    NumberOfDigits(d, s8);
    AfterPrefix(" @@", rest);
  }

  lemma AfterIs(s: string, prefix: string)
    requires After(s, prefix).Some?
    ensures s == prefix + After(s, prefix).value
  {
  }

  lemma NumberIs(s: string) returns (digits: string)
    requires Number(s).Some?
    ensures IsNumber(digits) && s == digits + Number(s).value.1 && Number(s).value.0 == ParseNat(digits)
  {
    digits := s[..DigitCount(s)];
  }

  /** And nothing else is. */
  lemma HeadersAreRead(line: string) returns (h: HeaderText)
    requires ChunkStart(line).Some?
    ensures h.Valid() && h.Line() == line && ChunkStart(line) == Some((ParseNat(h.srcPos), ParseNat(h.dstPos)))
  {
    hide After, Number, ParseNat;
    var s1 := After(line, "@@ -").value;
    var (x, s2) := Number(s1).value;
    var s3 := After(s2, ",").value;
    var (y, s4) := Number(s3).value;
    var s5 := After(s4, " +").value;
    var (z, s6) := Number(s5).value;
    var s7 := After(s6, ",").value;
    var (w, s8) := Number(s7).value;
    var rest := After(s8, " @@").value;
    AfterIs(line, "@@ -");
    var a := NumberIs(s1);
    AfterIs(s2, ",");
    var b := NumberIs(s3);
    AfterIs(s4, " +");
    var c := NumberIs(s5);
    AfterIs(s6, ",");
    var d := NumberIs(s7);
    AfterIs(s8, " @@");
    h := HeaderText(a, b, c, d, rest);
    InPieces(h);
  }

  /** What a header says is said in one way only. */
  lemma HeaderIsUnique(h: HeaderText, h': HeaderText)
    requires h.Valid() && h'.Valid() && h.Line() == h'.Line()
    ensures h == h'
  {
    InPieces(h);
    InPieces(h');
    hide IsNumber, HeaderText.Line;
    var s8, t8 := " @@" + h.rest, " @@" + h'.rest;
    var s6, t6 := "," + (h.dstLen + s8), "," + (h'.dstLen + t8);
    var s4, t4 := " +" + (h.dstPos + s6), " +" + (h'.dstPos + t6);
    var s2, t2 := "," + (h.srcLen + s4), "," + (h'.srcLen + t4);
    SameRest("@@ -", h.srcPos + s2, h'.srcPos + t2);
    SameNumber(h.srcPos, s2, h'.srcPos, t2);
    SameRest(",", h.srcLen + s4, h'.srcLen + t4);
    SameNumber(h.srcLen, s4, h'.srcLen, t4);
    SameRest(" +", h.dstPos + s6, h'.dstPos + t6);
    SameNumber(h.dstPos, s6, h'.dstPos, t6);
    SameRest(",", h.dstLen + s8, h'.dstLen + t8);
    SameNumber(h.dstLen, s8, h'.dstLen, t8);
    SameRest(" @@", h.rest, h'.rest);
  }

  lemma SameRest(prefix: string, a: string, b: string)
    requires prefix + a == prefix + b
    ensures a == b
  {
    assert (prefix + a)[|prefix|..] == a && (prefix + b)[|prefix|..] == b;
  }

  lemma SameNumber(a: string, s: string, b: string, t: string)
    requires IsNumber(a) && IsNumber(b) && s != "" && t != "" && !IsDigit(s[0]) && !IsDigit(t[0]) && a + s == b + t
    ensures a == b && s == t
  {
    NumberOfDigits(a, s);
    NumberOfDigits(b, t);
    assert (a + s)[..|a|] == a && (b + t)[..|b|] == b;
    SameRest(a, s, t);
  }

  // ----- The other patterns

  /** A text up to the end of the line, with or without its line end. */
  predicate LineOf(line: string, start: string, text: string) {
    OneLine(text) && (line == start + text || line == start + text + "\n")
  }

  lemma BodyIs(line: string, start: string, text: string)
    requires OneLine(start)
    ensures LineOf(line, start, text) <==> Body(line) == Some(start + text)
  {
    var b := start + text;
    if Body(line) == Some(b) {
      if line != "" && line[|line| - 1] == '\n' {
        assert line == line[..|line| - 1] + "\n";
      }
      assert forall i :: 0 <= i < |text| ==> text[i] == b[|start| + i];
    }
    if LineOf(line, start, text) {
      assert '\n' !in b;
      if line == b + "\n" { assert line[..|line| - 1] == b; }
    }
  }

  lemma Behind(b: string, start: string, text: string)
    ensures start <= b && b[|start|..] == text <==> b == start + text
  {
    if start <= b { assert b == start + b[|start|..]; }
  }

  /** A header has no sign in front, so it is in nobody's way. */
  lemma AtHasNoSign(line: string)
    requires ChunkStart(line).Some?
    ensures line != "" && line[0] == '@' && (Body(line).Some? ==> Body(line).value != "" && Body(line).value[0] == '@')
  {
  }

  /** Which lines are taken for file names. */
  lemma NamesAre(line: string, name: string)
    ensures Classify(line) == SrcFile(name) <==> LineOf(line, "--- ", name)
    ensures Classify(line) == DstFile(name) <==> LineOf(line, "+++ ", name)
  {
    BodyIs(line, "--- ", name);
    BodyIs(line, "+++ ", name);
    hide ChunkStart, LineOf;
    if Body(line).Some? {
      Behind(Body(line).value, "--- ", name);
      Behind(Body(line).value, "+++ ", name);
      hide Body;
      assert "--- "[0] != "+++ "[0];
    }
  }

  /** And which for removed, added and context lines, and with which text. */
  lemma TextsAre(line: string, text: string)
    ensures Classify(line) == Text(Line(Src, text)) <==> LineOf(line, "-", text) && !("-- " <= text)
    ensures Classify(line) == Text(Line(Dst, text)) <==> LineOf(line, "+", text) && !("++ " <= text)
    ensures Classify(line) == Text(Line(Both, text)) <==> LineOf(line, " ", text)
  {
    BodyIs(line, "-", text);
    BodyIs(line, "+", text);
    BodyIs(line, " ", text);
    if ChunkStart(line).Some? { AtHasNoSign(line); }
    hide ChunkStart, LineOf;
    if Body(line).Some? {
      hide Body;
      SignsAre(Body(line).value, text);
    }
  }

  lemma SignsAre(b: string, text: string)
    ensures "-" <= b && b[1..] == text <==> b == "-" + text
    ensures "+" <= b && b[1..] == text <==> b == "+" + text
    ensures " " <= b && b[1..] == text <==> b == " " + text
    ensures b == "-" + text ==> ("--- " <= b <==> "-- " <= text) && !("+++ " <= b)
    ensures b == "+" + text ==> ("+++ " <= b <==> "++ " <= text) && !("--- " <= b)
    ensures b == " " + text ==> !("+++ " <= b) && !("--- " <= b)
  {
    Behind(b, "-", text);
    Behind(b, "+", text);
    Behind(b, " ", text);
    SignedPrefix('-', text, '-');
    SignedPrefix('+', text, '+');
    assert ['-', '-', '-', ' '] == "--- " && ['-', '-', ' '] == "-- " && ['-'] == "-";
    assert ['+', '+', '+', ' '] == "+++ " && ['+', '+', ' '] == "++ " && ['+'] == "+";
    if b != "" {
      assert "--- " <= b ==> b[0] == '-';
      assert "+++ " <= b ==> b[0] == '+';
    }
  }

  // ----- What a printed chunk header says

  /** Where the lines of a kind are, and how many, context lines counted in. */
  function KindSet(lines: seq<Line>, kind: Kind): set<int> {
    set i | 0 <= i < |lines| && Is(lines[i], kind)
  }

  function KindCount(lines: seq<Line>, kind: Kind): nat {
    |KindSet(lines, kind)|
  }

  predicate Is(l: Line, kind: Kind) {
    l.kind == kind || l.kind == Both
  }

  lemma KindSetMore(lines: seq<Line>, n: nat, kind: Kind)
    requires n == |lines| - 1
    ensures n !in KindSet(lines[..n], kind)
    ensures KindSet(lines, kind) == KindSet(lines[..n], kind) + if Is(lines[n], kind) then {n} else {}
  {
    hide Is;
    assert forall i :: 0 <= i < n ==> lines[..n][i] == lines[i];
  }

  lemma KindCountMore(lines: seq<Line>, n: nat, kind: Kind)
    requires n == |lines| - 1
    ensures KindCount(lines, kind) == KindCount(lines[..n], kind) + if Is(lines[n], kind) then 1 else 0
  {
    hide Is, KindSet;
    KindSetMore(lines, n, kind);
  }

  lemma {:induction false} ViewsCount(lines: seq<Line>)
    ensures |SrcLines(lines)| == KindCount(lines, Src) && |DstLines(lines)| == KindCount(lines, Dst)
  {
    if lines != [] {
      ViewsCount(lines[..|lines| - 1]);
      KindCountMore(lines, |lines| - 1, Src);
      KindCountMore(lines, |lines| - 1, Dst);
      hide KindCount;
    }
  }

  /** A number as "%d" prints it. */
  predicate IsPlain(digits: string, n: nat) {
    IsNumber(digits) && ParseNat(digits) == n && (digits[0] == '0' ==> digits == "0")
  }

  lemma {:induction false} DecimalIsPlain(n: nat)
    ensures IsPlain(Decimal(n), n)
  {
    ParseDecimal(n);
    if n >= 10 {
      assert ParseNat("0") == 0 by { assert "0"[..0] == ""; }
      DecimalIsPlain(n / 10);
    }
  }

  /**
   * The first line of a printed chunk is a header, and its four numbers are the source start, the number of lines
   * removed or kept, the destination start, and the number of lines added or kept.
   */
  lemma HeaderSays(c: Chunk) returns (h: HeaderText)
    ensures h.Valid() && ChunkOnFile(c)[0] == h.Line() && h.rest == "\n"
    ensures IsPlain(h.srcPos, c.srcPos) && IsPlain(h.srcLen, KindCount(c.lines, Src))
    ensures IsPlain(h.dstPos, c.dstPos) && IsPlain(h.dstLen, KindCount(c.lines, Dst))
  {
    ViewsCount(c.lines);
    DecimalIsPlain(c.srcPos);
    DecimalIsPlain(KindCount(c.lines, Src));
    DecimalIsPlain(c.dstPos);
    DecimalIsPlain(KindCount(c.lines, Dst));
    hide Decimal, ParseNat, KindCount, SrcLines, DstLines, IsNumber;
    h := HeaderText(Decimal(c.srcPos), Decimal(KindCount(c.lines, Src)), Decimal(c.dstPos),
                    Decimal(KindCount(c.lines, Dst)), "\n");
  }

  /** The line begins with this sign or with the space of a context line. */
  predicate Signed(line: string, sign: char) {
    line != "" && (line[0] == sign || line[0] == ' ')
  }

  function SignCount(file: seq<string>, sign: char): nat {
    |set i | 0 <= i < |file| && Signed(file[i], sign)|
  }

  lemma SignOf(l: Line)
    requires l.kind != Unset
    ensures Signed(WriteLine(l), '-') <==> Is(l, Src)
    ensures Signed(WriteLine(l), '+') <==> Is(l, Dst)
  {
  }

  lemma {:induction false} WrittenLine(lines: seq<Line>, i: nat)
    requires i < |lines|
    ensures |WriteLines(lines)| == |lines| && WriteLines(lines)[i] == WriteLine(lines[i])
  {
    var n := |lines| - 1;
    if i < n {
      WrittenLine(lines[..n], i);
    } else if n > 0 {
      WrittenLine(lines[..n], 0);
    }
  }

  /** The lengths in the header are those of the lines that follow it, counted by their signs. */
  lemma HeaderCountsSigns(c: Chunk)
    requires AllSet(c.lines)
    ensures |ChunkOnFile(c)| == 1 + |c.lines|
    ensures KindCount(c.lines, Src) == SignCount(ChunkOnFile(c)[1..], '-')
    ensures KindCount(c.lines, Dst) == SignCount(ChunkOnFile(c)[1..], '+')
  {
    WholeChunk(c);
    var lines, file := c.lines, WriteLines(c.lines);
    assert ChunkOnFile(c)[1..] == file;
    if lines == [] {
      assert file == [];
    } else {
      WrittenLine(lines, 0);
    }
    forall i | 0 <= i < |lines|
      ensures file[i] == WriteLine(lines[i])
      ensures Signed(file[i], '-') <==> Is(lines[i], Src)
      ensures Signed(file[i], '+') <==> Is(lines[i], Dst)
    {
      WrittenLine(lines, i);
      SignOf(lines[i]);
    }
    hide *;
    SameCount(lines, file, Src, '-');
    SameCount(lines, file, Dst, '+');
  }

  lemma SameCount(lines: seq<Line>, file: seq<string>, kind: Kind, sign: char)
    requires |lines| == |file|
    requires forall i :: 0 <= i < |lines| ==> (Signed(file[i], sign) <==> Is(lines[i], kind))
    ensures KindCount(lines, kind) == SignCount(file, sign)
  {
    hide Signed, Is;
    assert (set i | 0 <= i < |lines| && Is(lines[i], kind))
        == (set i | 0 <= i < |file| && Signed(file[i], sign));
  }

  // ----- What is printed is lines

  /** One line with its end. */
  predicate IsEnded(s: string) {
    s != "" && s[|s| - 1] == '\n' && OneLine(s[..|s| - 1])
  }

  predicate AllEnded(file: seq<string>) {
    forall k :: 0 <= k < |file| ==> IsEnded(file[k])
  }

  lemma EndsLine(s: string)
    requires OneLine(s)
    ensures IsEnded(s + "\n")
  {
    assert (s + "\n")[..|s|] == s;
  }

  lemma LineIsEnded(l: Line)
    requires LineOk(l)
    ensures IsEnded(WriteLine(l))
  {
    EndsLine(match l.kind case Src => "-" + l.text case Dst => "+" + l.text case _ => " " + l.text);
  }

  lemma HeaderIsEnded(c: Chunk)
    ensures IsEnded(WriteHeader(c))
  {
    var a, b, d, e := Decimal(c.srcPos), Decimal(|SrcLines(c.lines)|), Decimal(c.dstPos), Decimal(|DstLines(c.lines)|);
    assert OneLine(a) && OneLine(b) && OneLine(d) && OneLine(e);
    hide Decimal, SrcLines, DstLines;
    EndsLine("@@ -" + a + "," + b + " +" + d + "," + e + " @@");
  }

  lemma {:induction false} LinesAreEnded(lines: seq<Line>)
    requires forall l :: l in lines ==> LineOk(l)
    ensures AllEnded(WriteLines(lines))
  {
    hide LineOk, IsEnded, WriteLine;
    if lines != [] {
      LinesAreEnded(lines[..|lines| - 1]);
      LineIsEnded(lines[|lines| - 1]);
    }
  }

  lemma {:induction false} ChunksAreEnded(chunks: seq<Chunk>)
    requires forall c, l :: c in chunks && l in c.lines ==> LineOk(l)
    ensures AllEnded(WriteChunks(chunks))
  {
    hide LineOk, IsEnded, WriteHeader, WriteLines;
    if chunks != [] {
      var c := chunks[|chunks| - 1];
      ChunksAreEnded(chunks[..|chunks| - 1]);
      HeaderIsEnded(c);
      LinesAreEnded(c.lines);
    }
  }

  /** Each string written is one line with its end, so the file falls into the lines that are read back. */
  lemma {:induction false} WrittenAreLines(patches: seq<Patch>)
    requires Printable(patches)
    ensures AllEnded(WriteAll(patches))
  {
    hide LineOk, IsEnded, WriteChunks;
    if patches != [] {
      var p := patches[|patches| - 1];
      assert PatchOk(p);
      WrittenAreLines(patches[..|patches| - 1]);
      EndsLine("--- " + p.src);
      EndsLine("+++ " + p.dst);
      ChunksAreEnded(p.chunks);
    }
  }

  // ----- Which lines cannot be placed

  ghost predicate HasFile(lines: seq<string>) {
    exists k :: 0 <= k < |lines| && Classify(lines[k]).SrcFile?
  }

  ghost predicate HasHeader(lines: seq<string>) {
    exists k :: 0 <= k < |lines| && Classify(lines[k]).Header?
  }

  lemma {:induction false} BegunIff(lines: seq<string>)
    requires Feed(START, lines).Ok?
    ensures Feed(START, lines).value.heads != [] <==> HasFile(lines)
    ensures Feed(START, lines).value.chunks != [] <==> HasHeader(lines)
  {
    hide Classify;
    if lines != [] {
      var n := |lines| - 1;
      BegunIff(lines[..n]);
      assert lines == lines[..n] + [lines[n]];
      HasMore(lines[..n], lines[n]);
    }
  }

  lemma HasMore(lines: seq<string>, line: string)
    ensures HasFile(lines + [line]) <==> HasFile(lines) || Classify(line).SrcFile?
    ensures HasHeader(lines + [line]) <==> HasHeader(lines) || Classify(line).Header?
  {
    hide Classify;
    var all := lines + [line];
    assert all[|lines|] == line && forall k :: 0 <= k < |lines| ==> all[k] == lines[k];
  }

  /** What is wrong with a line behind these. */
  ghost function Misplaced(lines: seq<string>, item: Item): Option<PatchError> {
    match item
    case SrcFile(_) => None
    case DstFile(_) => if HasFile(lines) then None else Some(AttributeError)
    case Header(_, _) => if HasFile(lines) then None else Some(AttributeError)
    case Text(_) => if HasHeader(lines) then None else Some(UnboundLocalError)
    case Unknown => Some(PlainException)
  }

  ghost predicate PlacedAt(lines: seq<string>, j: nat)
    requires j < |lines|
  {
    Misplaced(lines[..j], Classify(lines[j])) == None
  }

  ghost predicate AllPlaced(lines: seq<string>) {
    forall j :: 0 <= j < |lines| ==> PlacedAt(lines, j)
  }

  lemma PlacedFront(lines: seq<string>, n: nat, j: nat)
    requires j < n <= |lines|
    ensures PlacedAt(lines[..n], j) <==> PlacedAt(lines, j)
  {
    assert lines[..n][..j] == lines[..j];
  }

  lemma PlacedMore(lines: seq<string>, n: nat)
    requires n < |lines|
    ensures AllPlaced(lines[..n + 1]) <==> AllPlaced(lines[..n]) && PlacedAt(lines, n)
  {
    hide PlacedAt;
    var before, all := lines[..n], lines[..n + 1];
    PlacedFront(lines, n + 1, n);
    if AllPlaced(all) {
      forall j | 0 <= j < |before|
        ensures PlacedAt(before, j)
      {
        PlacedFront(lines, n, j);
        PlacedFront(lines, n + 1, j);
        assert PlacedAt(all, j);
      }
      assert PlacedAt(all, n);
    } else {
      var j: nat :| j < |all| && !PlacedAt(all, j);
      if j < n {
        PlacedFront(lines, n, j);
        PlacedFront(lines, n + 1, j);
        assert !PlacedAt(before, j);
      }
    }
  }

  lemma {:induction false} PlacedIsRead(lines: seq<string>)
    requires AllPlaced(lines)
    ensures Feed(START, lines).Ok?
  {
    hide Misplaced, Classify, PlacedAt, Accept;
    if lines != [] {
      var n := |lines| - 1;
      assert lines[..n + 1] == lines;
      PlacedMore(lines, n);
      PlacedIsRead(lines[..n]);
      NextIsRead(lines, n);
    }
  }

  lemma NextIsRead(lines: seq<string>, n: nat)
    requires n == |lines| - 1 && PlacedAt(lines, n) && Feed(START, lines[..n]).Ok?
    ensures Feed(START, lines).Ok?
  {
    hide Misplaced, Classify, Accept, Feed;
    NextFailsIff(lines[..n], lines[n]);
    assert lines == lines[..n] + [lines[n]];
  }

  /** The first misplaced line ends the reading with its exception, whatever follows it. */
  lemma {:induction false} MisplacedFails(lines: seq<string>, k: nat)
    requires k < |lines| && AllPlaced(lines[..k]) && !PlacedAt(lines, k)
    ensures Feed(START, lines) == Err(Misplaced(lines[..k], Classify(lines[k])).value)
  {
    hide Misplaced, Classify, Accept;
    var n := |lines| - 1;
    if k < n {
      assert lines[..n][..k] == lines[..k];
      MisplacedFails(lines[..n], k);
    } else {
      PlacedIsRead(lines[..n]);
      NextFailsIff(lines[..n], lines[n]);
      assert lines == lines[..n] + [lines[n]];
    }
  }

  lemma {:induction false} FirstMisplaced(lines: seq<string>, n: nat) returns (k: nat)
    requires n <= |lines| && !AllPlaced(lines[..n])
    ensures k < n && AllPlaced(lines[..k]) && !PlacedAt(lines, k)
  {
    hide AllPlaced, PlacedAt;
    if n > 0 {
      PlacedMore(lines, n - 1);
      if AllPlaced(lines[..n - 1]) {
        k := n - 1;
      } else {
        k := FirstMisplaced(lines, n - 1);
      }
    } else {
      NoneMisplaced(lines);
    }
  }

  lemma NoneMisplaced(lines: seq<string>)
    ensures AllPlaced(lines[..0])
  {
  }

  /** Reading succeeds iff no line is misplaced. */
  lemma ReadIffPlaced(lines: seq<string>)
    ensures Feed(START, lines).Ok? <==> AllPlaced(lines)
  {
    hide *;
    assert lines[..|lines|] == lines;
    if AllPlaced(lines) {
      PlacedIsRead(lines);
    } else {
      var k := FirstMisplaced(lines, |lines|);
      MisplacedFails(lines, k);
    }
  }

  lemma NextFailsIff(before: seq<string>, line: string)
    requires Feed(START, before).Ok?
    ensures match Misplaced(before, Classify(line))
            case None => Feed(START, before + [line]).Ok?
            case Some(error) => Feed(START, before + [line]) == Err(error)
  {
    hide Classify, HasFile, HasHeader;
    BegunIff(before);
    assert (before + [line])[..|before|] == before;
  }

  /** The last chunk with more lines. */
  function Longer(chunks: seq<Chunk>, ls: seq<Line>): seq<Chunk>
    requires chunks != []
  {
    var c := chunks[|chunks| - 1];
    chunks[..|chunks| - 1] + [c.(lines := c.lines + ls)]
  }

  lemma LongerByOne(st: Parsing, ls: seq<Line>, l: Line)
    requires st.chunks != []
    ensures Accept(st.(chunks := Longer(st.chunks, ls)), Text(l)) == Ok(st.(chunks := Longer(st.chunks, ls + [l])))
    ensures Longer(st.chunks, []) == st.chunks
  {
    var c := st.chunks[|st.chunks| - 1];
    assert c.lines + ls + [l] == c.lines + (ls + [l]) && c.lines + [] == c.lines;
    assert c.(lines := c.lines) == c && Longer(st.chunks, []) == st.chunks;
    var n := |st.chunks| - 1;
    assert Longer(st.chunks, ls)[n := WithLine(Longer(st.chunks, ls)[n], l)] == Longer(st.chunks, ls + [l]);
  }

  /** Text lines behind the first line of a new patch still go to the last chunk of the patches before it. */
  lemma {:induction false} StrayLinesGoBack(before: seq<string>, st: Parsing, file: string, name: string,
                                            texts: seq<string>, ls: seq<Line>)
    requires Feed(START, before) == Ok(st) && st.chunks != [] && Classify(file) == SrcFile(name)
    requires |texts| == |ls| && forall k :: 0 <= k < |texts| ==> Classify(texts[k]) == Text(ls[k])
    ensures Feed(START, before + ([file] + texts))
            == Ok(Parsing(st.heads + [Head(name, "", |st.chunks|)], Longer(st.chunks, ls)))
  {
    hide Classify, Longer;
    var all, st' := before + ([file] + texts), st.(heads := st.heads + [Head(name, "", |st.chunks|)]);
    if texts == [] {
      assert all[..|all| - 1] == before;
      LongerByOne(st', [], Line(Unset, ""));
    } else {
      var m := |texts| - 1;
      assert all[..|all| - 1] == before + ([file] + texts[..m]);
      StrayLinesGoBack(before, st, file, name, texts[..m], ls[..m]);
      LongerByOne(st', ls[..m], ls[m]);
      assert ls[..m] + [ls[m]] == ls;
      hide Accept;
    }
  }
}
