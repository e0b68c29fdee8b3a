/** Pipelines that run otherwise than a shell would run them, one for each part of the condition. */
module PosixInstances {
  import opened Wrappers
  import opened ShellParse
  import opened ShellRun
  import opened PosixReading
  import ShellRender

  const A := NewCommand("a", [])
  const B := NewCommand("b", [])
  const C := NewCommand("c", [])
  const CD := Chdir(Some("d"))

  /** With its output piped, and with its input from a file. */
  const A_PIPED := Command("a", ["a"], None, ToPipe, Inherited, [])
  const A_FROM_F := Command("a", ["a"], Some("f"), Inherited, Inherited, [])
  const B_FROM_F := Command("b", ["b"], Some("f"), Inherited, Inherited, [])

  predicate IsPlain(n: Node) {
    NodeOk(n) && (n.Command? ==> !n.stdout.ToPipe?)
  }

  lemma PlainNodes()
    ensures IsPlain(A) && IsPlain(B) && IsPlain(C) && IsPlain(CD) && IsPlain(A_FROM_F) && IsPlain(B_FROM_F)
    ensures NodeOk(A_PIPED)
  {
  }

  // ----- Tokens and nodes, from the right

  /** A pipeline with one more node and operator in front. */
  lemma InFront(n: Node, op: Node, nodes: seq<Node>)
    requires WellFormed(nodes) && NodeOk(n) && Joint(n, op)
    ensures WellFormed([n, op] + nodes)
    ensures CommandCount([n, op] + nodes) == (if n.Command? then 1 else 0) + CommandCount(nodes)
  {
    hide NodeOk, Joint;
    var all := [n, op] + nodes;
    assert all[..|all| - 1] == [n, op] + nodes[..|nodes| - 1];
    assert all[2..] == nodes && all[1..][1..] == nodes;
    var before, front := nodes[..|nodes| - 1], all[..|all| - 1];
    forall i | 0 <= i < |front| && i % 2 == 0
      ensures NodeOk(front[i]) && Joint(front[i], front[i + 1])
    {
      if i >= 2 { assert NodeOk(before[i - 2]) && Joint(before[i - 2], before[i - 1]); }
    }
    JointIsOp(n, op);
    CountFront(n, op, nodes);
  }

  lemma CountFront(n: Node, op: Node, nodes: seq<Node>)
    requires IsOp(op)
    ensures CommandCount([n, op] + nodes) == (if n.Command? then 1 else 0) + CommandCount(nodes)
  {
    var all := [n, op] + nodes;
    assert all[1..] == [op] + nodes && ([op] + nodes)[1..] == nodes;
  }

  lemma Alone(n: Node)
    requires IsPlain(n)
    ensures WellFormed([n]) && CommandCount([n]) == if n.Command? then 1 else 0
    ensures ShellRender.RenderAll([n]) == ShellRender.Render(n)
  {
    assert [n][..0] == [] && [n][1..] == [];
    RenderOne(n);
    hide NodeOk;
  }

  lemma {:induction false} RenderConcat(a: seq<Node>, b: seq<Node>)
    ensures ShellRender.RenderAll(a + b) == ShellRender.RenderAll(a) + ShellRender.RenderAll(b)
  {
    hide ShellRender.Render;
    if b == [] {
      assert a + b == a;
    } else {
      var n := |b| - 1;
      RenderConcat(a, b[..n]);
      assert (a + b)[..|a| + n] == a + b[..n];
    }
  }

  lemma RenderFront(n: Node, op: Node, nodes: seq<Node>)
    ensures ShellRender.RenderAll([n, op] + nodes)
            == ShellRender.Render(n) + ShellRender.Render(op) + ShellRender.RenderAll(nodes)
  {
    hide ShellRender.Render;
    RenderConcat([n, op], nodes);
    RenderConcat([n], [op]);
    RenderOne(n);
    RenderOne(op);
    assert [n] + [op] == [n, op];
  }

  lemma RenderOne(n: Node)
    ensures ShellRender.RenderAll([n]) == ShellRender.Render(n)
  {
    hide ShellRender.Render;
    assert [n][..0] == [];
    assert [] + ShellRender.Render(n) == ShellRender.Render(n);
  }

  lemma Rendered()
    ensures ShellRender.Render(A) == ["a"] && ShellRender.Render(B) == ["b"] && ShellRender.Render(C) == ["c"]
    ensures ShellRender.Render(CD) == ["cd", "d"] && ShellRender.Render(A_PIPED) == ["a"]
    ensures ShellRender.Render(A_FROM_F) == ["a", "<", "f"] && ShellRender.Render(B_FROM_F) == ["b", "<", "f"]
    ensures ShellRender.Render(Pipe) == ["|"] && ShellRender.Render(And) == ["&&"] && ShellRender.Render(Or) == ["||"]
  {
  }

  lemma Joined()
    ensures Join(".", "d") == "./d" && Join(".", "f") == "./f" && Join("./d", "f") == "./d/f"
  {
  }

  lemma Sources(fs: FileSystem, cmd: Node, cwd: string, piped: bool)
    requires cmd.Command?
    ensures RunStart(fs, Process(cmd, cwd, piped)).stdin ==
            if piped then OutOfPipe
            else if cmd.stdin.Some? then FromFile(fs.leadsTo(Join(".", cmd.stdin.value))) else TerminalIn
    ensures ShellStart(fs, cmd, cwd, piped).stdin ==
            if cmd.stdin.Some? then FromFile(fs.leadsTo(Join(cwd, cmd.stdin.value)))
            else if piped then OutOfPipe else TerminalIn
  {
    hide Join;
  }

  lemma Joints()
    ensures Joint(A, And) && Joint(A, Or) && Joint(B, And) && Joint(B, Or) && Joint(CD, And) && Joint(A_PIPED, Pipe)
  {
  }

  // ----- The turns of both at a node in front

  lemma BothJoin(fs: FileSystem, home: string, n: Node, op: Node, tail: seq<Node>, cwd: string, codes: seq<int>, k: nat)
    requires WellFormed(tail) && NodeOk(n) && Joint(n, op) && n.Command? && !op.Pipe?
    requires k + 1 + CommandCount(tail) <= |codes|
    ensures WellFormed([n, op] + tail) && CommandCount([n, op] + tail) == 1 + CommandCount(tail)
    ensures var rest := RunNodes(tail, cwd, [], codes, k + 1);
            RunNodes([n, op] + tail, cwd, [], codes, k) ==
            if Proceeds(op, codes[k]) then ([Process(n, cwd, false)] + rest.0, rest.1)
            else ([Process(n, cwd, false)], Exit(codes[k]))
    ensures var rest := if Proceeds(op, codes[k]) then ShellFrom(fs, home, tail, true, false, 0, cwd, codes, k + 1)
                        else ShellFrom(fs, home, tail, false, false, codes[k], cwd, codes, k + 1);
            ShellFrom(fs, home, [n, op] + tail, true, false, 0, cwd, codes, k)
            == ([ShellStart(fs, n, cwd, false)] + rest.0, rest.1)
  {
    hide *;
    InFront(n, op, tail);
    var nodes := [n, op] + tail;
    assert nodes[2..] == tail && nodes[0] == n && nodes[1] == op;
    RunJoinTurn(nodes, cwd, [], codes, k);
    ShellJoinTurn(fs, home, nodes, false, cwd, codes, k);
  }

  lemma BothPipe(fs: FileSystem, home: string, n: Node, tail: seq<Node>, cwd: string, codes: seq<int>, k: nat)
    requires WellFormed(tail) && NodeOk(n) && Joint(n, Pipe) && n.Command? && k + 1 + CommandCount(tail) <= |codes|
    ensures WellFormed([n, Pipe] + tail) && CommandCount([n, Pipe] + tail) == 1 + CommandCount(tail)
    ensures var p := Process(n, cwd, false);
            var rest := RunNodes(tail, cwd, [p], codes, k);
            RunNodes([n, Pipe] + tail, cwd, [], codes, k) == ([p] + rest.0, rest.1)
    ensures var rest := ShellFrom(fs, home, tail, true, true, 0, cwd, codes, k + 1);
            ShellFrom(fs, home, [n, Pipe] + tail, true, false, 0, cwd, codes, k)
            == ([ShellStart(fs, n, cwd, false)] + rest.0, rest.1)
  {
    hide *;
    InFront(n, Pipe, tail);
    var nodes := [n, Pipe] + tail;
    assert nodes[2..] == tail && nodes[0] == n && nodes[1] == Pipe;
    assert [] + [Process(n, cwd, false)] == [Process(n, cwd, false)];
    RunPipeTurn(nodes, cwd, [], codes, k);
    ShellPipeTurn(fs, home, nodes, false, cwd, codes, k);
  }

  lemma RunCd(dir: string, tail: seq<Node>, cwd: string, group: Group, codes: seq<int>, k: nat)
    requires WellFormed(tail) && NodeOk(Chdir(Some(dir))) && k + |group| + CommandCount(tail) <= |codes|
    ensures WellFormed([Chdir(Some(dir)), And] + tail)
    ensures CommandCount([Chdir(Some(dir)), And] + tail) == CommandCount(tail)
    ensures RunNodes([Chdir(Some(dir)), And] + tail, cwd, group, codes, k)
            == RunNodes(tail, Join(cwd, dir), group, codes, k)
  {
    var n := Chdir(Some(dir));
    var nodes := [n, And] + tail;
    hide *;
    JointCd(n);
    InFront(n, And, tail);
    assert nodes[2..] == tail && nodes[0] == n;
    OneTurn(nodes, cwd, group, codes, k);
  }

  lemma ShellCd(fs: FileSystem, home: string, dir: string, tail: seq<Node>, reached: bool, piped: bool, status: int,
                cwd: string, codes: seq<int>, k: nat)
    requires WellFormed(tail) && NodeOk(Chdir(Some(dir))) && k + CommandCount(tail) <= |codes|
    ensures WellFormed([Chdir(Some(dir)), And] + tail)
    ensures CommandCount([Chdir(Some(dir)), And] + tail) == CommandCount(tail)
    ensures ShellFrom(fs, home, [Chdir(Some(dir)), And] + tail, reached, piped, status, cwd, codes, k)
            == ShellFrom(fs, home, tail, reached || status == 0, false, if reached then 0 else status,
                         if reached && !piped then Join(cwd, dir) else cwd, codes, k)
  {
    var n := Chdir(Some(dir));
    var nodes := [n, And] + tail;
    JointCd(n);
    InFront(n, And, tail);
    assert nodes[2..] == tail && nodes[0] == n && nodes[1] == And;
    hide WellFormed, NodeOk, CommandCount, Join;
  }

  lemma JointCd(n: Node)
    requires n.Chdir?
    ensures Joint(n, And)
  {
  }

  // ----- a || cd d && b: a shell reads (a || cd d) && b

  const CD_BEHIND_OR := [A, Or] + ([CD, And] + [B])

  lemma CdBehindOrIsParsed()
    ensures ParseOf(["a", "||", "cd", "d", "&&", "b"]) == Ok(CD_BEHIND_OR)
  {
    hide WellFormed, NodeOk, Joint, CommandCount, ParseOf, ShellRender.Render, ShellRender.RenderAll;
    PlainNodes();
    Rendered();
    Joints();
    Alone(B);
    InFront(CD, And, [B]);
    InFront(A, Or, [CD, And] + [B]);
    RenderFront(CD, And, [B]);
    RenderFront(A, Or, [CD, And] + [B]);
    assert ["a"] + ["||"] + (["cd", "d"] + ["&&"] + ["b"]) == ["a", "||", "cd", "d", "&&", "b"];
    ShellRender.ParseUndoesRender(CD_BEHIND_OR);
  }

  /** If a succeeds, run starts nothing else, while a shell skips the cd and starts b where it is. */
  lemma CdBehindOrDiffers(fs: FileSystem, home: string, codes: seq<int>)
    requires |codes| == 2 && codes[0] == 0
    ensures WellFormed(CD_BEHIND_OR) && CommandCount(CD_BEHIND_OR) == 2
    ensures RunNodes(CD_BEHIND_OR, ".", [], codes, 0) == ([Process(A, ".", false)], Exit(0))
    ensures Shell(fs, home, CD_BEHIND_OR, codes)
            == ([ShellStart(fs, A, ".", false), ShellStart(fs, B, ".", false)], codes[1])
  {
    hide WellFormed, NodeOk, Joint, CommandCount, ShellFrom, RunNodes, ShellStart;
    PlainNodes();
    Joints();
    Alone(B);
    ShellCd(fs, home, "d", [B], false, false, 0, ".", codes, 1);
    BothJoin(fs, home, A, Or, [CD, And] + [B], ".", codes, 0);
    LastTurn(fs, home, [B], ".", [], codes, 1);
    assert [ShellStart(fs, A, ".", false)] + [ShellStart(fs, B, ".", false)]
        == [ShellStart(fs, A, ".", false), ShellStart(fs, B, ".", false)];
  }

  // ----- a | cd d && b: in a shell the cd ends the pipeline, in a subshell

  const CD_BEHIND_PIPE := [A_PIPED, Pipe] + ([CD, And] + [B])

  lemma CdBehindPipeIsParsed()
    ensures ParseOf(["a", "|", "cd", "d", "&&", "b"]) == Ok(CD_BEHIND_PIPE)
  {
    hide WellFormed, NodeOk, Joint, CommandCount, ParseOf, ShellRender.Render, ShellRender.RenderAll;
    PlainNodes();
    Rendered();
    Joints();
    Alone(B);
    InFront(CD, And, [B]);
    InFront(A_PIPED, Pipe, [CD, And] + [B]);
    RenderFront(CD, And, [B]);
    RenderFront(A_PIPED, Pipe, [CD, And] + [B]);
    assert ["a"] + ["|"] + (["cd", "d"] + ["&&"] + ["b"]) == ["a", "|", "cd", "d", "&&", "b"];
    ShellRender.ParseUndoesRender(CD_BEHIND_PIPE);
  }

  /** run starts b in d, reading from a, and a shell starts it where it is, with no pipe. */
  lemma CdBehindPipeDiffers(fs: FileSystem, home: string, codes: seq<int>)
    requires |codes| == 2
    ensures WellFormed(CD_BEHIND_PIPE) && CommandCount(CD_BEHIND_PIPE) == 2
    ensures RunNodes(CD_BEHIND_PIPE, ".", [], codes, 0)
            == ([Process(A_PIPED, ".", false), Process(B, "./d", true)], Exit(codes[1]))
    ensures Shell(fs, home, CD_BEHIND_PIPE, codes)
            == ([ShellStart(fs, A_PIPED, ".", false), ShellStart(fs, B, ".", false)], codes[1])
    ensures RunStart(fs, Process(B, "./d", true)).stdin == OutOfPipe
    ensures ShellStart(fs, B, ".", false).stdin == TerminalIn
  {
    hide WellFormed, NodeOk, Joint, CommandCount, ShellFrom, RunNodes, Join, RunStart, ShellStart;
    Joined();
    Sources(fs, B, "./d", true);
    Sources(fs, B, ".", false);
    PlainNodes();
    Joints();
    Alone(B);
    var p, q := Process(A_PIPED, ".", false), Process(B, "./d", true);
    RunCd("d", [B], ".", [p], codes, 0);
    ShellCd(fs, home, "d", [B], true, true, 0, ".", codes, 1);
    BothPipe(fs, home, A_PIPED, [CD, And] + [B], ".", codes, 0);
    LastTurn(fs, home, [B], "./d", [p], codes, 0);
    LastTurn(fs, home, [B], ".", [], codes, 1);
    assert [p] + [q] == [p, q];
    assert [ShellStart(fs, A_PIPED, ".", false)] + [ShellStart(fs, B, ".", false)]
        == [ShellStart(fs, A_PIPED, ".", false), ShellStart(fs, B, ".", false)];
  }

  // ----- a | b < f: in a shell the redirection takes the place of the pipe

  const FILE_BEHIND_PIPE := [A_PIPED, Pipe] + [B_FROM_F]

  lemma FileBehindPipeIsParsed()
    ensures ParseOf(["a", "|", "b", "<", "f"]) == Ok(FILE_BEHIND_PIPE)
  {
    hide WellFormed, NodeOk, Joint, CommandCount, ParseOf, ShellRender.Render, ShellRender.RenderAll;
    PlainNodes();
    Rendered();
    Joints();
    Alone(B_FROM_F);
    InFront(A_PIPED, Pipe, [B_FROM_F]);
    RenderFront(A_PIPED, Pipe, [B_FROM_F]);
    assert ["a"] + ["|"] + ["b", "<", "f"] == ["a", "|", "b", "<", "f"];
    ShellRender.ParseUndoesRender(FILE_BEHIND_PIPE);
  }

  lemma FileBehindPipeDiffers(fs: FileSystem, home: string, codes: seq<int>)
    requires |codes| == 2
    ensures WellFormed(FILE_BEHIND_PIPE) && CommandCount(FILE_BEHIND_PIPE) == 2
    ensures RunNodes(FILE_BEHIND_PIPE, ".", [], codes, 0)
            == ([Process(A_PIPED, ".", false), Process(B_FROM_F, ".", true)], Exit(codes[1]))
    ensures Shell(fs, home, FILE_BEHIND_PIPE, codes)
            == ([ShellStart(fs, A_PIPED, ".", false), ShellStart(fs, B_FROM_F, ".", true)], codes[1])
    ensures RunStart(fs, Process(B_FROM_F, ".", true)).stdin == OutOfPipe
    ensures ShellStart(fs, B_FROM_F, ".", true).stdin == FromFile(fs.leadsTo("./f"))
  {
    hide WellFormed, NodeOk, Joint, CommandCount, ShellFrom, RunNodes, Join, RunStart, ShellStart;
    Joined();
    Sources(fs, B_FROM_F, ".", true);
    PlainNodes();
    Joints();
    Alone(B_FROM_F);
    var p, q := Process(A_PIPED, ".", false), Process(B_FROM_F, ".", true);
    BothPipe(fs, home, A_PIPED, [B_FROM_F], ".", codes, 0);
    LastTurn(fs, home, [B_FROM_F], ".", [p], codes, 0);
    assert [p] + [q] == [p, q];
    assert [ShellStart(fs, A_PIPED, ".", false)] + [ShellStart(fs, B_FROM_F, ".", true)]
        == [ShellStart(fs, A_PIPED, ".", false), ShellStart(fs, B_FROM_F, ".", true)];
  }

  // ----- cd d && a < f: run opens f where it was started itself

  const FILE_BEHIND_CD := [CD, And] + [A_FROM_F]

  lemma FileBehindCdIsParsed()
    ensures ParseOf(["cd", "d", "&&", "a", "<", "f"]) == Ok(FILE_BEHIND_CD)
  {
    hide WellFormed, NodeOk, Joint, CommandCount, ParseOf, ShellRender.Render, ShellRender.RenderAll;
    PlainNodes();
    Rendered();
    Joints();
    Alone(A_FROM_F);
    InFront(CD, And, [A_FROM_F]);
    RenderFront(CD, And, [A_FROM_F]);
    assert ["cd", "d"] + ["&&"] + ["a", "<", "f"] == ["cd", "d", "&&", "a", "<", "f"];
    ShellRender.ParseUndoesRender(FILE_BEHIND_CD);
  }

  lemma FileBehindCdDiffers(fs: FileSystem, home: string, codes: seq<int>)
    requires |codes| == 1
    ensures WellFormed(FILE_BEHIND_CD) && CommandCount(FILE_BEHIND_CD) == 1
    ensures RunNodes(FILE_BEHIND_CD, ".", [], codes, 0) == ([Process(A_FROM_F, "./d", false)], Exit(codes[0]))
    ensures Shell(fs, home, FILE_BEHIND_CD, codes) == ([ShellStart(fs, A_FROM_F, "./d", false)], codes[0])
    ensures RunStart(fs, Process(A_FROM_F, "./d", false)).stdin == FromFile(fs.leadsTo("./f"))
    ensures ShellStart(fs, A_FROM_F, "./d", false).stdin == FromFile(fs.leadsTo("./d/f"))
  {
    hide WellFormed, NodeOk, Joint, CommandCount, ShellFrom, RunNodes, Join, RunStart, ShellStart;
    Joined();
    Sources(fs, A_FROM_F, "./d", false);
    PlainNodes();
    Joints();
    Alone(A_FROM_F);
    RunCd("d", [A_FROM_F], ".", [], codes, 0);
    ShellCd(fs, home, "d", [A_FROM_F], true, false, 0, ".", codes, 0);
    LastTurn(fs, home, [A_FROM_F], "./d", [], codes, 0);
  }

  // ----- a || b && c, and a && cd d && b || c: a shell goes on behind a short circuit

  const MIXED := [A, Or] + ([B, And] + [C])

  lemma MixedIsParsed()
    ensures ParseOf(["a", "||", "b", "&&", "c"]) == Ok(MIXED)
  {
    hide WellFormed, NodeOk, Joint, CommandCount, ParseOf, ShellRender.Render, ShellRender.RenderAll;
    PlainNodes();
    Rendered();
    Joints();
    Alone(C);
    InFront(B, And, [C]);
    InFront(A, Or, [B, And] + [C]);
    RenderFront(B, And, [C]);
    RenderFront(A, Or, [B, And] + [C]);
    assert ["a"] + ["||"] + (["b"] + ["&&"] + ["c"]) == ["a", "||", "b", "&&", "c"];
    ShellRender.ParseUndoesRender(MIXED);
  }

  /** If a succeeds, run stops after it, while a shell goes on with c. */
  lemma MixedReadsDifferently(fs: FileSystem, home: string, codes: seq<int>)
    requires |codes| == 3 && codes[0] == 0
    ensures WellFormed(MIXED) && CommandCount(MIXED) == 3
    ensures RunNodes(MIXED, ".", [], codes, 0) == ([Process(A, ".", false)], Exit(0))
    ensures Shell(fs, home, MIXED, codes)
            == ([ShellStart(fs, A, ".", false), ShellStart(fs, C, ".", false)], codes[1])
  {
    hide WellFormed, NodeOk, Joint, CommandCount, ShellFrom, RunNodes, ShellStart;
    PlainNodes();
    Joints();
    Alone(C);
    ShellSkips(fs, home, B, And, [C], 0, ".", codes, 1);
    BothJoin(fs, home, A, Or, [B, And] + [C], ".", codes, 0);
    LastTurn(fs, home, [C], ".", [], codes, 1);
    assert [ShellStart(fs, A, ".", false)] + [ShellStart(fs, C, ".", false)]
        == [ShellStart(fs, A, ".", false), ShellStart(fs, C, ".", false)];
  }

  lemma ShellSkips(fs: FileSystem, home: string, n: Node, op: Node, tail: seq<Node>, status: int, cwd: string,
                   codes: seq<int>, k: nat)
    requires WellFormed(tail) && NodeOk(n) && Joint(n, op) && n.Command? && !op.Pipe?
    requires k + 1 + CommandCount(tail) <= |codes|
    ensures WellFormed([n, op] + tail) && CommandCount([n, op] + tail) == 1 + CommandCount(tail)
    ensures ShellFrom(fs, home, [n, op] + tail, false, false, status, cwd, codes, k)
            == ShellFrom(fs, home, tail, Proceeds(op, status), false, if Proceeds(op, status) then 0 else status,
                         cwd, codes, k)
  {
    ReachedForgets(fs, home, tail, false, status, 0, cwd, codes, k);
    InFront(n, op, tail);
    var nodes := [n, op] + tail;
    assert nodes[2..] == tail && nodes[0] == n && nodes[1] == op;
    hide WellFormed, NodeOk, Joint, CommandCount, Proceeds;
    var none: seq<Started> := [];
    assert forall more: seq<Started> :: none + more == more;
  }

  const CD_BETWEEN := [A, And] + ([CD, And] + ([B, Or] + [C]))

  lemma CdBetweenIsParsed()
    ensures ParseOf(["a", "&&", "cd", "d", "&&", "b", "||", "c"]) == Ok(CD_BETWEEN)
  {
    hide WellFormed, NodeOk, Joint, CommandCount, ParseOf, ShellRender.Render, ShellRender.RenderAll;
    PlainNodes();
    Rendered();
    Joints();
    Alone(C);
    var tail := [B, Or] + [C];
    InFront(B, Or, [C]);
    InFront(CD, And, tail);
    InFront(A, And, [CD, And] + tail);
    RenderFront(B, Or, [C]);
    RenderFront(CD, And, tail);
    RenderFront(A, And, [CD, And] + tail);
    assert ["a"] + ["&&"] + (["cd", "d"] + ["&&"] + (["b"] + ["||"] + ["c"]))
        == ["a", "&&", "cd", "d", "&&", "b", "||", "c"];
    ShellRender.ParseUndoesRender(CD_BETWEEN);
  }

  /** If a fails, run stops after it, while a shell starts c, and not in d. */
  lemma CdBetweenDiffers(fs: FileSystem, home: string, codes: seq<int>)
    requires |codes| == 3 && codes[0] == 1
    ensures WellFormed(CD_BETWEEN) && CommandCount(CD_BETWEEN) == 3
    ensures RunNodes(CD_BETWEEN, ".", [], codes, 0) == ([Process(A, ".", false)], Exit(1))
    ensures Shell(fs, home, CD_BETWEEN, codes)
            == ([ShellStart(fs, A, ".", false), ShellStart(fs, C, ".", false)], codes[1])
  {
    hide WellFormed, NodeOk, Joint, CommandCount, ShellFrom, RunNodes, ShellStart;
    PlainNodes();
    Joints();
    Alone(C);
    ShellSkips(fs, home, B, Or, [C], 1, ".", codes, 1);
    ShellCd(fs, home, "d", [B, Or] + [C], false, false, 1, ".", codes, 1);
    BothJoin(fs, home, A, And, [CD, And] + ([B, Or] + [C]), ".", codes, 0);
    LastTurn(fs, home, [C], ".", [], codes, 1);
    assert [ShellStart(fs, A, ".", false)] + [ShellStart(fs, C, ".", false)]
        == [ShellStart(fs, A, ".", false), ShellStart(fs, C, ".", false)];
  }

  // ----- cd /tmp && a: where both agree

  const CD_TMP := [Chdir(Some("/tmp")), And] + [A]

  lemma CdTmpIsParsed()
    ensures ParseOf(["cd", "/tmp", "&&", "a"]) == Ok(CD_TMP) && WellFormed(CD_TMP) && CommandCount(CD_TMP) == 1
  {
    TmpNode();
    hide WellFormed, NodeOk, Joint, CommandCount, ParseOf, ShellRender.Render, ShellRender.RenderAll;
    PlainNodes();
    Rendered();
    JointCd(Chdir(Some("/tmp")));
    Alone(A);
    InFront(Chdir(Some("/tmp")), And, [A]);
    RenderFront(Chdir(Some("/tmp")), And, [A]);
    assert ["cd", "/tmp"] + ["&&"] + ["a"] == ["cd", "/tmp", "&&", "a"];
    ShellRender.ParseUndoesRender(CD_TMP);
  }

  lemma TmpNode()
    ensures NodeOk(Chdir(Some("/tmp"))) && ShellRender.Render(Chdir(Some("/tmp"))) == ["cd", "/tmp"]
    ensures Join(".", "/tmp") == "/tmp"
  {
  }

  lemma CdTmpStartsThere(codes: seq<int>)
    requires |codes| == 1
    ensures WellFormed(CD_TMP) && CommandCount(CD_TMP) == 1
    ensures RunNodes(CD_TMP, ".", [], codes, 0) == ([Process(A, "/tmp", false)], Exit(codes[0]))
  {
    TmpNode();
    CdTmpIsParsed();
    hide WellFormed, NodeOk, Joint, CommandCount, RunNodes, Join;
    PlainNodes();
    Alone(A);
    RunCd("/tmp", [A], ".", [], codes, 0);
    OneTurn([A], "/tmp", [], codes, 0);
  }

  // ----- a > NUL: in run that is the null device, and in a shell a file

  const A_TO_NUL := Command("a", ["a"], None, ToFile("NUL:"), Inherited, [])

  lemma NulDiffers(fs: FileSystem)
    ensures RunStart(fs, Process(A_TO_NUL, ".", false)).stdout == OntoFile(fs.leadsTo("/dev/null"))
    ensures ShellStart(fs, A_TO_NUL, ".", false).stdout == OntoFile(fs.leadsTo("./NUL:"))
  {
    assert Join(".", "/dev/null") == "/dev/null" && Join(".", "NUL:") == "./NUL:";
  }
}
