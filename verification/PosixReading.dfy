/**
 * What a shell makes of a parsed pipeline, by section 2.9 of the POSIX.1-2017 Shell Command Language, and when
 * waf-tools/shellcmd.py, Pipeline.run, does the same.
 */
module PosixReading {
  import opened Wrappers
  import opened ShellParse
  import opened ShellRun

  // ----- A started process and what it is connected to

  datatype Source = TerminalIn | OutOfPipe | FromFile(path: string)

  datatype Sink = TerminalOut | IntoPipe | OntoFile(path: string) | OntoStdout

  datatype Started =
    Started(argv: seq<string>, envVars: EnvVars, cwd: string, stdin: Source, stdout: Sink, stderr: Sink)

  /** Which file a path leads to; any file system will do. */
  datatype FileSystem = FileSystem(leadsTo: string -> string)

  /** run opens files from where it was itself started, with the null device under a second name. */
  function OutFile(f: string): string {
    Join(".", if f == "NUL:" then "/dev/null" else f)
  }

  function RunSink(fs: FileSystem, t: Target): Sink {
    match t
    case Inherited => TerminalOut
    case ToPipe => IntoPipe
    case ToStdout => OntoStdout
    case ToFile(f) => OntoFile(fs.leadsTo(OutFile(f)))
  }

  function ShellSink(fs: FileSystem, t: Target, cwd: string): Sink {
    match t
    case Inherited => TerminalOut
    case ToPipe => IntoPipe
    case ToStdout => OntoStdout
    case ToFile(f) => OntoFile(fs.leadsTo(Join(cwd, f)))
  }

  function RunStart(fs: FileSystem, p: Process): Started
    requires p.cmd.Command?
  {
    var stdin := if p.piped then OutOfPipe
                 else if p.cmd.stdin.Some? then FromFile(fs.leadsTo(Join(".", p.cmd.stdin.value)))
                 else TerminalIn;
    Started(p.cmd.argv, p.cmd.envVars, p.cwd, stdin,
            RunSink(fs, p.cmd.stdout), RunSink(fs, p.cmd.stderr))
  }

  /** A shell opens files from where its cds have led, and a redirection takes the place of a pipe. */
  function ShellStart(fs: FileSystem, cmd: Node, cwd: string, piped: bool): Started
    requires cmd.Command?
  {
    var stdin := if cmd.stdin.Some? then FromFile(fs.leadsTo(Join(cwd, cmd.stdin.value)))
                 else if piped then OutOfPipe
                 else TerminalIn;
    Started(cmd.argv, cmd.envVars, cwd, stdin,
            ShellSink(fs, cmd.stdout, cwd), ShellSink(fs, cmd.stderr, cwd))
  }

  // ----- A shell's reading

  /**
   * From the left, pipeline by pipeline: reached or skipped, with the status so far. A reached cd succeeds and
   * sets the directory, unless it ends a pipeline of several commands: then it does so in a subshell. A cd without
   * a directory leads home. The codes of the processes are given in the order in which they are started.
   */
  function ShellFrom(fs: FileSystem, home: string, nodes: seq<Node>, reached: bool, piped: bool, status: int,
                     cwd: string, codes: seq<int>, n: nat): (seq<Started>, int)
    requires WellFormed(nodes) && n + CommandCount(nodes) <= |codes|
    decreases |nodes|
  {
    StartsWithNode(nodes);
    if nodes[0].Chdir? then
      var status' := if reached then 0 else status;
      var dir := if nodes[0].dir.Some? then nodes[0].dir.value else home;
      var cwd' := if reached && !piped then Join(cwd, dir) else cwd;
      if |nodes| == 1 then ([], status')
      else
        WellFormedTail(nodes);
        ShellFrom(fs, home, nodes[2..], Proceeds(nodes[1], status'), false, status', cwd', codes, n)
    else
      var mine := if reached then [ShellStart(fs, nodes[0], cwd, piped)] else [];
      var n' := if reached then n + 1 else n;
      var status' := if reached then codes[n] else status;
      if |nodes| == 1 then (mine, status')
      else
        WellFormedTail(nodes);
        var reached' := if nodes[1].Pipe? then reached else Proceeds(nodes[1], status');
        var (more, final) := ShellFrom(fs, home, nodes[2..], reached', nodes[1].Pipe?, status', cwd, codes, n');
        (mine + more, final)
  }

  function Shell(fs: FileSystem, home: string, nodes: seq<Node>, codes: seq<int>): (seq<Started>, int)
    requires WellFormed(nodes) && CommandCount(nodes) <= |codes|
  {
    ShellFrom(fs, home, nodes, true, false, 0, ".", codes, 0)
  }

  // ----- When run does the same

  /** A run and a shell start the same processes, connected to the same, and end with the same status. */
  predicate Same(fs: FileSystem, run: (seq<Process>, Outcome), shell: (seq<Started>, int)) {
    && run.1 == Exit(shell.1) && |run.0| == |shell.0|
    && forall i :: 0 <= i < |run.0| ==> run.0[i].cmd.Command? && RunStart(fs, run.0[i]) == shell.0[i]
  }

  lemma SameBehind(fs: FileSystem, p: Process, run: (seq<Process>, Outcome), s: Started, shell: (seq<Started>, int))
    ensures Same(fs, ([p] + run.0, run.1), ([s] + shell.0, shell.1)) <==>
            p.cmd.Command? && RunStart(fs, p) == s && Same(fs, run, shell)
  {
    var ps, ss := [p] + run.0, [s] + shell.0;
    if Same(fs, (ps, run.1), (ss, shell.1)) {
      assert ps[0] == p && ss[0] == s;
      forall i | 0 <= i < |run.0|
        ensures run.0[i].cmd.Command? && RunStart(fs, run.0[i]) == shell.0[i]
      {
        assert ps[i + 1] == run.0[i] && ss[i + 1] == shell.0[i];
      }
    }
  }

  /** The files a command names are the same from a directory as from where run was started. */
  predicate FilesAlike(fs: FileSystem, cmd: Node, cwd: string)
    requires cmd.Command?
  {
    && (cmd.stdin.Some? ==> fs.leadsTo(Join(".", cmd.stdin.value)) == fs.leadsTo(Join(cwd, cmd.stdin.value)))
    && (cmd.stdout.ToFile? ==> fs.leadsTo(OutFile(cmd.stdout.file)) == fs.leadsTo(Join(cwd, cmd.stdout.file)))
    && (cmd.stderr.ToFile? ==> fs.leadsTo(OutFile(cmd.stderr.file)) == fs.leadsTo(Join(cwd, cmd.stderr.file)))
  }

  predicate StartsAlike(fs: FileSystem, cmd: Node, cwd: string, piped: bool)
    requires cmd.Command?
  {
    FilesAlike(fs, cmd, cwd) && (piped ==> cmd.stdin == None)
  }

  lemma StartsAlikeIff(fs: FileSystem, cmd: Node, cwd: string, piped: bool)
    requires cmd.Command?
    ensures StartsAlike(fs, cmd, cwd, piped) <==>
            RunStart(fs, Process(cmd, cwd, piped)) == ShellStart(fs, cmd, cwd, piped)
  {
  }

  predicate OpsAre(nodes: seq<Node>, op: Node) {
    forall i :: 0 <= i < |nodes| && (nodes[i].And? || nodes[i].Or?) ==> nodes[i] == op
  }

  lemma OpsAreTail(nodes: seq<Node>, op: Node)
    requires |nodes| >= 2 && (nodes[0].Command? || nodes[0].Chdir?)
    ensures OpsAre(nodes, op) <==> (nodes[1].And? || nodes[1].Or? ==> nodes[1] == op) && OpsAre(nodes[2..], op)
  {
    if (nodes[1].And? || nodes[1].Or? ==> nodes[1] == op) && OpsAre(nodes[2..], op) {
      forall i | 0 <= i < |nodes| && (nodes[i].And? || nodes[i].Or?)
        ensures nodes[i] == op
      {
        if i >= 2 { assert nodes[2..][i - 2] == nodes[i]; }
      }
    }
  }

  /**
   * Node by node: no cd behind a pipe, none without a directory or at the end; every process started alike; and
   * behind an operator that joins groups only the same operator, so that a short circuit is one for good.
   */
  predicate Fits(fs: FileSystem, nodes: seq<Node>, piped: bool, cwd: string)
    requires WellFormed(nodes)
    decreases |nodes|
  {
    StartsWithNode(nodes);
    if nodes[0].Chdir? then
      && !piped && nodes[0].dir.Some? && |nodes| >= 2
      && (WellFormedTail(nodes); Fits(fs, nodes[2..], false, Join(cwd, nodes[0].dir.value)))
    else
      && StartsAlike(fs, nodes[0], cwd, piped)
      && (|nodes| >= 2 ==>
            && (WellFormedTail(nodes); Fits(fs, nodes[2..], nodes[1].Pipe?, cwd))
            && (nodes[1].Pipe? || OpsAre(nodes[2..], nodes[1])))
  }

  // ----- Codes of processes already started play no role

  lemma {:induction false} RunReadsOn(nodes: seq<Node>, cwd: string, group: Group, codes: seq<int>,
                                      codes': seq<int>, n: nat)
    requires WellFormed(nodes) && n + |group| + CommandCount(nodes) <= |codes| == |codes'|
    requires forall k :: n + |group| <= k < |codes| ==> codes[k] == codes'[k]
    ensures RunNodes(nodes, cwd, group, codes, n) == RunNodes(nodes, cwd, group, codes', n)
    decreases |nodes|
  {
    hide *;
    StartsWithNode(nodes);
    OneTurn(nodes, cwd, group, codes, n);
    OneTurn(nodes, cwd, group, codes', n);
    var g := group + [Process(nodes[0], cwd, group != [])];
    if nodes[0].Command? {
      StatusAt(g, codes, n);
      StatusAt(g, codes', n);
    }
    if |nodes| >= 2 {
      if nodes[0].Chdir? {
        if nodes[0].dir.Some? { RunReadsOn(nodes[2..], Join(cwd, nodes[0].dir.value), group, codes, codes', n); }
      } else if nodes[1].Pipe? {
        RunReadsOn(nodes[2..], cwd, g, codes, codes', n);
      } else {
        RunReadsOn(nodes[2..], cwd, [], codes, codes', n + |g|);
      }
    }
  }

  lemma {:induction false} ShellReadsOn(fs: FileSystem, home: string, nodes: seq<Node>, reached: bool, piped: bool,
                                        status: int, cwd: string, codes: seq<int>, codes': seq<int>, n: nat)
    requires WellFormed(nodes) && n + CommandCount(nodes) <= |codes| == |codes'|
    requires forall k :: n <= k < |codes| ==> codes[k] == codes'[k]
    ensures ShellFrom(fs, home, nodes, reached, piped, status, cwd, codes, n)
            == ShellFrom(fs, home, nodes, reached, piped, status, cwd, codes', n)
    decreases |nodes|
  {
    StartsWithNode(nodes);
    if |nodes| >= 2 {
      WellFormedTail(nodes);
      hide WellFormed, Join, ShellStart;
      if nodes[0].Chdir? {
        var status' := if reached then 0 else status;
        var dir := if nodes[0].dir.Some? then nodes[0].dir.value else home;
        var cwd' := if reached && !piped then Join(cwd, dir) else cwd;
        ShellReadsOn(fs, home, nodes[2..], Proceeds(nodes[1], status'), false, status', cwd', codes, codes', n);
      } else {
        var n' := if reached then n + 1 else n;
        var status' := if reached then codes[n] else status;
        var reached' := if nodes[1].Pipe? then reached else Proceeds(nodes[1], status');
        ShellReadsOn(fs, home, nodes[2..], reached', nodes[1].Pipe?, status', cwd, codes, codes', n');
      }
    }
  }

  /** The status before a pipeline that is reached plays no role either. */
  lemma ReachedForgets(fs: FileSystem, home: string, nodes: seq<Node>, piped: bool, status: int, status': int,
                       cwd: string, codes: seq<int>, n: nat)
    requires WellFormed(nodes) && n + CommandCount(nodes) <= |codes|
    ensures ShellFrom(fs, home, nodes, true, piped, status, cwd, codes, n)
            == ShellFrom(fs, home, nodes, true, piped, status', cwd, codes, n)
  {
    hide WellFormed, ShellStart;
  }

  // ----- After a short circuit

  predicate EndsInCommand(nodes: seq<Node>) {
    nodes != [] && nodes[|nodes| - 1].Command?
  }

  /** A shell skips the rest if only the operator that refused is left. */
  lemma {:induction false} SkipsAll(fs: FileSystem, home: string, nodes: seq<Node>, piped: bool, op: Node, status: int,
                                    cwd: string, codes: seq<int>, n: nat)
    requires WellFormed(nodes) && n + CommandCount(nodes) <= |codes|
    requires OpsAre(nodes, op) && !Proceeds(op, status)
    ensures ShellFrom(fs, home, nodes, false, piped, status, cwd, codes, n) == ([], status)
    decreases |nodes|
  {
    StartsWithNode(nodes);
    if |nodes| >= 2 {
      WellFormedTail(nodes);
      OpsAreTail(nodes, op);
      hide WellFormed, OpsAre;
      SkipsAll(fs, home, nodes[2..], nodes[1].Pipe?, op, status, cwd, codes, n);
      var none: seq<Started> := [];
      assert none + none == none;
    }
  }

  /** Whatever is reached comes to a command in the end, unless a cd is the end. */
  lemma {:induction false} ReachedStarts(fs: FileSystem, home: string, nodes: seq<Node>, piped: bool, status: int,
                                         cwd: string, codes: seq<int>, n: nat)
    requires WellFormed(nodes) && n + CommandCount(nodes) <= |codes| && EndsInCommand(nodes)
    ensures ShellFrom(fs, home, nodes, true, piped, status, cwd, codes, n).0 != []
    decreases |nodes|
  {
    StartsWithNode(nodes);
    if nodes[0].Chdir? {
      WellFormedTail(nodes);
      hide WellFormed, Join;
      var dir := if nodes[0].dir.Some? then nodes[0].dir.value else home;
      ReachedStarts(fs, home, nodes[2..], false, 0, if piped then cwd else Join(cwd, dir), codes, n);
    }
  }

  /** And it does not skip the rest if there is the other operator, too. */
  lemma {:induction false} SkipsSome(fs: FileSystem, home: string, nodes: seq<Node>, piped: bool, op: Node, status: int,
                                     cwd: string, codes: seq<int>, n: nat)
    requires WellFormed(nodes) && n + CommandCount(nodes) <= |codes| && EndsInCommand(nodes)
    requires (op.And? || op.Or?) && !OpsAre(nodes, op) && !Proceeds(op, status)
    ensures ShellFrom(fs, home, nodes, false, piped, status, cwd, codes, n).0 != []
    decreases |nodes|
  {
    StartsWithNode(nodes);
    if |nodes| >= 2 {
      WellFormedTail(nodes);
      OpsAreTail(nodes, op);
      hide WellFormed, OpsAre;
      if nodes[1].Pipe? || nodes[1] == op {
        SkipsSome(fs, home, nodes[2..], nodes[1].Pipe?, op, status, cwd, codes, n);
      } else {
        ReachedStarts(fs, home, nodes[2..], false, status, cwd, codes, n);
      }
    }
  }

  // ----- After a cd behind a pipe

  /** run lets the next process read from the pipe, and a shell does not. */
  lemma {:induction false} NeverSameAgain(fs: FileSystem, home: string, nodes: seq<Node>, cwd: string, cwd': string,
                                          group: Group, codes: seq<int>, n: nat)
    requires WellFormed(nodes) && n + |group| + CommandCount(nodes) <= |codes| && group != []
    ensures !Same(fs, RunNodes(nodes, cwd, group, codes, n),
                  ShellFrom(fs, home, nodes, true, false, 0, cwd', codes, n + |group|))
    decreases |nodes|
  {
    StartsWithNode(nodes);
    OneTurn(nodes, cwd, group, codes, n);
    if nodes[0].Chdir? {
      if |nodes| >= 2 && nodes[0].dir.Some? {
        var dir := nodes[0].dir.value;
        hide WellFormed, Join, RunNodes, Same;
        NeverSameAgain(fs, home, nodes[2..], Join(cwd, dir), Join(cwd', dir), group, codes, n);
      }
    } else {
      var run := RunNodes(nodes, cwd, group, codes, n);
      var shell := ShellFrom(fs, home, nodes, true, false, 0, cwd', codes, n + |group|);
      hide WellFormed, RunNodes;
      assert run.0[0] == Process(nodes[0], cwd, true) && shell.0[0] == ShellStart(fs, nodes[0], cwd', false);
      assert RunStart(fs, run.0[0]).stdin != shell.0[0].stdin;
    }
  }

  // ----- The two agree for all exit codes iff the nodes fit

  predicate SameFor(fs: FileSystem, home: string, nodes: seq<Node>, cwd: string, group: Group, codes: seq<int>, n: nat)
    requires WellFormed(nodes) && n + |group| + CommandCount(nodes) <= |codes|
  {
    Same(fs, RunNodes(nodes, cwd, group, codes, n),
         ShellFrom(fs, home, nodes, true, group != [], 0, cwd, codes, n + |group|))
  }

  ghost predicate Agree(fs: FileSystem, home: string, nodes: seq<Node>, cwd: string, group: Group, n: nat)
    requires WellFormed(nodes)
  {
    forall codes :: |codes| == n + |group| + CommandCount(nodes) ==> SameFor(fs, home, nodes, cwd, group, codes, n)
  }

  function Zeros(n: nat): (codes: seq<int>)
    ensures |codes| == n
  {
    seq(n, _ => 0)
  }

  lemma OneForAll(fs: FileSystem, home: string, nodes: seq<Node>, cwd: string, group: Group, codes: seq<int>, n: nat)
    requires WellFormed(nodes) && |codes| == n + |group| + CommandCount(nodes)
    requires !SameFor(fs, home, nodes, cwd, group, codes, n)
    ensures !Agree(fs, home, nodes, cwd, group, n)
  {
    hide SameFor, WellFormed;
  }

  // The turns of both at a command, by what follows it.

  lemma LastTurn(fs: FileSystem, home: string, nodes: seq<Node>, cwd: string, group: Group, codes: seq<int>, n: nat)
    requires WellFormed(nodes) && n + |group| + CommandCount(nodes) <= |codes| && nodes[0].Command? && |nodes| == 1
    ensures n + |group| < |codes|
    ensures RunNodes(nodes, cwd, group, codes, n)
            == ([Process(nodes[0], cwd, group != [])], Exit(codes[n + |group|]))
    ensures ShellFrom(fs, home, nodes, true, group != [], 0, cwd, codes, n + |group|)
            == ([ShellStart(fs, nodes[0], cwd, group != [])], codes[n + |group|])
  {
    OneTurn(nodes, cwd, group, codes, n);
    hide WellFormed, RunNodes, ShellStart;
  }

  lemma RunPipeTurn(nodes: seq<Node>, cwd: string, group: Group, codes: seq<int>, n: nat)
    requires WellFormed(nodes) && n + |group| + CommandCount(nodes) <= |codes|
    requires |nodes| >= 2 && nodes[0].Command? && nodes[1].Pipe?
    ensures WellFormed(nodes[2..]) && CommandCount(nodes[2..]) + 1 == CommandCount(nodes)
    ensures var p := Process(nodes[0], cwd, group != []);
            var rest := RunNodes(nodes[2..], cwd, group + [p], codes, n);
            RunNodes(nodes, cwd, group, codes, n) == ([p] + rest.0, rest.1)
  {
    hide *;
    OneTurn(nodes, cwd, group, codes, n);
  }

  lemma ShellPipeTurn(fs: FileSystem, home: string, nodes: seq<Node>, piped: bool, cwd: string, codes: seq<int>, n: nat)
    requires WellFormed(nodes) && n + CommandCount(nodes) <= |codes|
    requires |nodes| >= 2 && nodes[0].Command? && nodes[1].Pipe?
    ensures WellFormed(nodes[2..]) && CommandCount(nodes[2..]) + 1 == CommandCount(nodes)
    ensures var rest := ShellFrom(fs, home, nodes[2..], true, true, 0, cwd, codes, n + 1);
            ShellFrom(fs, home, nodes, true, piped, 0, cwd, codes, n)
            == ([ShellStart(fs, nodes[0], cwd, piped)] + rest.0, rest.1)
  {
    WellFormedTail(nodes);
    ReachedForgets(fs, home, nodes[2..], true, codes[n], 0, cwd, codes, n + 1);
    hide WellFormed, ShellStart;
  }

  lemma RunJoinTurn(nodes: seq<Node>, cwd: string, group: Group, codes: seq<int>, n: nat)
    requires WellFormed(nodes) && n + |group| + CommandCount(nodes) <= |codes|
    requires |nodes| >= 2 && nodes[0].Command? && !nodes[1].Pipe?
    ensures WellFormed(nodes[2..]) && CommandCount(nodes[2..]) + 1 == CommandCount(nodes) && n + |group| < |codes|
    ensures var p, code := Process(nodes[0], cwd, group != []), codes[n + |group|];
            var rest := RunNodes(nodes[2..], cwd, [], codes, n + |group| + 1);
            RunNodes(nodes, cwd, group, codes, n) ==
            if Proceeds(nodes[1], code) then ([p] + rest.0, rest.1) else ([p], Exit(code))
  {
    hide *;
    OneTurn(nodes, cwd, group, codes, n);
    StatusAt(group + [Process(nodes[0], cwd, group != [])], codes, n);
  }

  lemma ShellJoinTurn(fs: FileSystem, home: string, nodes: seq<Node>, piped: bool, cwd: string, codes: seq<int>, n: nat)
    requires WellFormed(nodes) && n + CommandCount(nodes) <= |codes|
    requires |nodes| >= 2 && nodes[0].Command? && !nodes[1].Pipe?
    ensures WellFormed(nodes[2..]) && CommandCount(nodes[2..]) + 1 == CommandCount(nodes) && n < |codes|
    ensures var code := codes[n];
            var rest := if Proceeds(nodes[1], code)
                        then ShellFrom(fs, home, nodes[2..], true, false, 0, cwd, codes, n + 1)
                        else ShellFrom(fs, home, nodes[2..], false, false, code, cwd, codes, n + 1);
            ShellFrom(fs, home, nodes, true, piped, 0, cwd, codes, n)
            == ([ShellStart(fs, nodes[0], cwd, piped)] + rest.0, rest.1)
  {
    WellFormedTail(nodes);
    ReachedForgets(fs, home, nodes[2..], false, codes[n], 0, cwd, codes, n + 1);
    hide WellFormed, ShellStart;
  }

  lemma SameOne(fs: FileSystem, p: Process, s: Started, status: int)
    ensures Same(fs, ([p], Exit(status)), ([s], status)) <==> p.cmd.Command? && RunStart(fs, p) == s
  {
    assert [p][0] == p && [s][0] == s;
    hide RunStart;
  }

  /** A last command. */
  lemma AgreeLast(fs: FileSystem, home: string, nodes: seq<Node>, cwd: string, group: Group, n: nat)
    requires WellFormed(nodes) && |nodes| == 1 && nodes[0].Command?
    ensures Agree(fs, home, nodes, cwd, group, n) <==> StartsAlike(fs, nodes[0], cwd, group != [])
  {
    StartsAlikeIff(fs, nodes[0], cwd, group != []);
    var p, s := Process(nodes[0], cwd, group != []), ShellStart(fs, nodes[0], cwd, group != []);
    forall codes: seq<int> | |codes| == n + |group| + CommandCount(nodes)
      ensures SameFor(fs, home, nodes, cwd, group, codes, n) <==> StartsAlike(fs, nodes[0], cwd, group != [])
    {
      hide *;
      LastTurn(fs, home, nodes, cwd, group, codes, n);
      SameOne(fs, p, s, codes[n + |group|]);
      SameForIs(fs, home, nodes, cwd, group, codes, n);
    }
    hide *;
    var codes := Zeros(n + |group| + CommandCount(nodes));
    AgreeIff(fs, home, nodes, cwd, group, n, codes, StartsAlike(fs, nodes[0], cwd, group != []));
  }

  lemma SameForIs(fs: FileSystem, home: string, nodes: seq<Node>, cwd: string, group: Group, codes: seq<int>, n: nat)
    requires WellFormed(nodes) && n + |group| + CommandCount(nodes) <= |codes|
    ensures SameFor(fs, home, nodes, cwd, group, codes, n) <==>
            Same(fs, RunNodes(nodes, cwd, group, codes, n),
                 ShellFrom(fs, home, nodes, true, group != [], 0, cwd, codes, n + |group|))
  {
    hide WellFormed, RunNodes, ShellFrom, Same;
  }

  lemma StatusAt(g: Group, codes: seq<int>, n: nat)
    requires g != [] && n + |g| <= |codes|
    ensures Status(g, codes, n) == codes[n + |g| - 1]
  {
  }

  lemma AgreeIff(fs: FileSystem, home: string, nodes: seq<Node>, cwd: string, group: Group, n: nat,
                 codes: seq<int>, same: bool)
    requires WellFormed(nodes) && |codes| == n + |group| + CommandCount(nodes)
    requires forall codes' :: |codes'| == |codes| ==> (SameFor(fs, home, nodes, cwd, group, codes', n) <==> same)
    ensures Agree(fs, home, nodes, cwd, group, n) <==> same
  {
    hide WellFormed, SameFor;
  }

  /** A command that is piped on. */
  lemma AgreePiped(fs: FileSystem, home: string, nodes: seq<Node>, cwd: string, group: Group, n: nat)
    requires WellFormed(nodes) && |nodes| >= 2 && nodes[0].Command? && nodes[1].Pipe?
    ensures WellFormed(nodes[2..])
    ensures var g := group + [Process(nodes[0], cwd, group != [])];
            Agree(fs, home, nodes, cwd, group, n) <==>
            StartsAlike(fs, nodes[0], cwd, group != []) && Agree(fs, home, nodes[2..], cwd, g, n)
  {
    WellFormedTail(nodes);
    StartsAlikeIff(fs, nodes[0], cwd, group != []);
    var p, tail := Process(nodes[0], cwd, group != []), nodes[2..];
    var g := group + [p];
    var alike := StartsAlike(fs, nodes[0], cwd, group != []);
    forall codes: seq<int> | |codes| == n + |group| + CommandCount(nodes)
      ensures SameFor(fs, home, nodes, cwd, group, codes, n) <==> alike && SameFor(fs, home, tail, cwd, g, codes, n)
    {
      PipedTurn(fs, home, nodes, cwd, group, codes, n);
    }
    hide SameFor, WellFormed, StartsAlike;
    var codes := Zeros(n + |group| + CommandCount(nodes));
    assert SameFor(fs, home, nodes, cwd, group, codes, n) ==> alike;
  }

  lemma PipedTurn(fs: FileSystem, home: string, nodes: seq<Node>, cwd: string, group: Group, codes: seq<int>, n: nat)
    requires WellFormed(nodes) && n + |group| + CommandCount(nodes) <= |codes|
    requires |nodes| >= 2 && nodes[0].Command? && nodes[1].Pipe?
    ensures WellFormed(nodes[2..]) && n + |group| + 1 + CommandCount(nodes[2..]) <= |codes|
    ensures SameFor(fs, home, nodes, cwd, group, codes, n) <==>
            && StartsAlike(fs, nodes[0], cwd, group != [])
            && SameFor(fs, home, nodes[2..], cwd, group + [Process(nodes[0], cwd, group != [])], codes, n)
  {
    hide *;
    StartsAlikeIff(fs, nodes[0], cwd, group != []);
    var p, s := Process(nodes[0], cwd, group != []), ShellStart(fs, nodes[0], cwd, group != []);
    var tail, m := nodes[2..], n + |group|;
    var g := group + [p];
    assert g != [] && n + |g| == m + 1;
    RunPipeTurn(nodes, cwd, group, codes, n);
    ShellPipeTurn(fs, home, nodes, group != [], cwd, codes, m);
    var run, shell := RunNodes(tail, cwd, g, codes, n), ShellFrom(fs, home, tail, true, true, 0, cwd, codes, m + 1);
    SameForIs(fs, home, nodes, cwd, group, codes, n);
    SameForIs(fs, home, tail, cwd, g, codes, n);
    SameBehind(fs, p, run, s, shell);
  }

  /** A command behind which a group ends: the run stops there or goes on, and a shell skips or goes on. */
  lemma JoinedTurn(fs: FileSystem, home: string, nodes: seq<Node>, cwd: string, group: Group, codes: seq<int>, n: nat)
    requires WellFormed(nodes) && n + |group| + CommandCount(nodes) <= |codes|
    requires |nodes| >= 2 && nodes[0].Command? && (nodes[1].And? || nodes[1].Or?)
    ensures WellFormed(nodes[2..]) && n + |group| + 1 + CommandCount(nodes[2..]) <= |codes|
    ensures var code := codes[n + |group|];
            SameFor(fs, home, nodes, cwd, group, codes, n) <==>
            && StartsAlike(fs, nodes[0], cwd, group != [])
            && if Proceeds(nodes[1], code) then SameFor(fs, home, nodes[2..], cwd, [], codes, n + |group| + 1)
               else ShellFrom(fs, home, nodes[2..], false, false, code, cwd, codes, n + |group| + 1) == ([], code)
  {
    hide *;
    RunJoinTurn(nodes, cwd, group, codes, n);
    if Proceeds(nodes[1], codes[n + |group|]) {
      ProceedingTurn(fs, home, nodes, cwd, group, codes, n);
    } else {
      RefusingTurn(fs, home, nodes, cwd, group, codes, n);
    }
  }

  lemma ProceedingTurn(fs: FileSystem, home: string, nodes: seq<Node>, cwd: string, group: Group, codes: seq<int>,
                       n: nat)
    requires WellFormed(nodes) && n + |group| + CommandCount(nodes) <= |codes|
    requires |nodes| >= 2 && nodes[0].Command? && !nodes[1].Pipe?
    requires n + |group| < |codes| && Proceeds(nodes[1], codes[n + |group|])
    ensures WellFormed(nodes[2..]) && n + |group| + 1 + CommandCount(nodes[2..]) <= |codes|
    ensures SameFor(fs, home, nodes, cwd, group, codes, n) <==>
            && StartsAlike(fs, nodes[0], cwd, group != [])
            && SameFor(fs, home, nodes[2..], cwd, [], codes, n + |group| + 1)
  {
    hide *;
    StartsAlikeIff(fs, nodes[0], cwd, group != []);
    var p, tail, m := Process(nodes[0], cwd, group != []), nodes[2..], n + |group|;
    RunJoinTurn(nodes, cwd, group, codes, n);
    ShellJoinTurn(fs, home, nodes, group != [], cwd, codes, m);
    SameForIs(fs, home, nodes, cwd, group, codes, n);
    SameForIs(fs, home, tail, cwd, [], codes, m + 1);
    SameBehind(fs, p, RunNodes(tail, cwd, [], codes, m + 1), ShellStart(fs, nodes[0], cwd, group != []),
               ShellFrom(fs, home, tail, true, false, 0, cwd, codes, m + 1));
  }

  lemma RefusingTurn(fs: FileSystem, home: string, nodes: seq<Node>, cwd: string, group: Group, codes: seq<int>, n: nat)
    requires WellFormed(nodes) && n + |group| + CommandCount(nodes) <= |codes|
    requires |nodes| >= 2 && nodes[0].Command? && !nodes[1].Pipe?
    requires n + |group| < |codes| && !Proceeds(nodes[1], codes[n + |group|])
    ensures WellFormed(nodes[2..]) && n + |group| + 1 + CommandCount(nodes[2..]) <= |codes|
    ensures var code := codes[n + |group|];
            SameFor(fs, home, nodes, cwd, group, codes, n) <==>
            && StartsAlike(fs, nodes[0], cwd, group != [])
            && ShellFrom(fs, home, nodes[2..], false, false, code, cwd, codes, n + |group| + 1) == ([], code)
  {
    hide *;
    StartsAlikeIff(fs, nodes[0], cwd, group != []);
    var p, m := Process(nodes[0], cwd, group != []), n + |group|;
    RunJoinTurn(nodes, cwd, group, codes, n);
    ShellJoinTurn(fs, home, nodes, group != [], cwd, codes, m);
    SameForIs(fs, home, nodes, cwd, group, codes, n);
    var none: seq<Process> := [];
    assert [p] + none == [p];
    var rest := ShellFrom(fs, home, nodes[2..], false, false, codes[m], cwd, codes, m + 1);
    SameBehind(fs, p, (none, Exit(codes[m])), ShellStart(fs, nodes[0], cwd, group != []), rest);
    SameNone(fs, codes[m], rest);
  }

  lemma SameNone(fs: FileSystem, status: int, shell: (seq<Started>, int))
    ensures Same(fs, ([], Exit(status)), shell) <==> shell == ([], status)
  {
  }

  lemma SameForReadsOn(fs: FileSystem, home: string, nodes: seq<Node>, cwd: string, group: Group, codes: seq<int>,
                       codes': seq<int>, n: nat)
    requires WellFormed(nodes) && n + |group| + CommandCount(nodes) <= |codes| == |codes'|
    requires forall k :: n + |group| <= k < |codes| ==> codes[k] == codes'[k]
    ensures SameFor(fs, home, nodes, cwd, group, codes, n) <==> SameFor(fs, home, nodes, cwd, group, codes', n)
  {
    hide *;
    RunReadsOn(nodes, cwd, group, codes, codes', n);
    ShellReadsOn(fs, home, nodes, true, group != [], 0, cwd, codes, codes', n + |group|);
    SameForIs(fs, home, nodes, cwd, group, codes, n);
    SameForIs(fs, home, nodes, cwd, group, codes', n);
  }

  /** A status with which the operator goes on, or with which it does not. */
  function StatusFor(op: Node, proceeds: bool): (status: int)
    requires op.And? || op.Or?
    ensures Proceeds(op, status) <==> proceeds
  {
    if op.And? == proceeds then 0 else 1
  }

  lemma AgreeAt(fs: FileSystem, home: string, nodes: seq<Node>, cwd: string, group: Group, codes: seq<int>, n: nat)
    requires WellFormed(nodes) && Agree(fs, home, nodes, cwd, group, n)
    requires |codes| == n + |group| + CommandCount(nodes)
    ensures SameFor(fs, home, nodes, cwd, group, codes, n)
  {
    hide WellFormed, SameFor;
  }

  /** If the two agree at a group's last command, they agree on what follows it, and a short circuit skips all of it. */
  lemma AgreeOn(fs: FileSystem, home: string, nodes: seq<Node>, cwd: string, group: Group, n: nat)
    requires WellFormed(nodes) && |nodes| >= 2 && nodes[0].Command? && (nodes[1].And? || nodes[1].Or?)
    requires Agree(fs, home, nodes, cwd, group, n)
    ensures WellFormed(nodes[2..]) && StartsAlike(fs, nodes[0], cwd, group != [])
    ensures Agree(fs, home, nodes[2..], cwd, [], n + |group| + 1)
    ensures EndsInCommand(nodes[2..]) ==> OpsAre(nodes[2..], nodes[1])
  {
    hide *;
    WellFormedTail(nodes);
    var op, tail, m := nodes[1], nodes[2..], n + |group|;
    forall codes: seq<int> | |codes| == m + 1 + CommandCount(tail)
      ensures SameFor(fs, home, tail, cwd, [], codes, m + 1)
    {
      AgreeBehind(fs, home, nodes, cwd, group, n, codes);
    }
    AgreeFromAll(fs, home, tail, cwd, [], m + 1);
    AgreeRefused(fs, home, nodes, cwd, group, n);
  }

  lemma AgreeFromAll(fs: FileSystem, home: string, nodes: seq<Node>, cwd: string, group: Group, n: nat)
    requires WellFormed(nodes)
    requires forall codes :: |codes| == n + |group| + CommandCount(nodes) ==>
               SameFor(fs, home, nodes, cwd, group, codes, n)
    ensures Agree(fs, home, nodes, cwd, group, n)
  {
    hide WellFormed, SameFor;
  }

  lemma AgreeBehind(fs: FileSystem, home: string, nodes: seq<Node>, cwd: string, group: Group, n: nat, codes: seq<int>)
    requires WellFormed(nodes) && |nodes| >= 2 && nodes[0].Command? && (nodes[1].And? || nodes[1].Or?)
    requires Agree(fs, home, nodes, cwd, group, n)
    requires WellFormed(nodes[2..]) && |codes| == n + |group| + 1 + CommandCount(nodes[2..])
    ensures SameFor(fs, home, nodes[2..], cwd, [], codes, n + |group| + 1)
  {
    hide *;
    WellFormedTail(nodes);
    var m := n + |group|;
    var codes' := codes[m := StatusFor(nodes[1], true)];
    assert |codes'| == |codes| && codes'[m] == StatusFor(nodes[1], true);
    assert forall k :: m + 1 <= k < |codes| ==> codes[k] == codes'[k];
    AgreeAt(fs, home, nodes, cwd, group, codes', n);
    JoinedTurn(fs, home, nodes, cwd, group, codes', n);
    SameForReadsOn(fs, home, nodes[2..], cwd, [], codes, codes', n + |group| + 1);
  }

  lemma AgreeRefused(fs: FileSystem, home: string, nodes: seq<Node>, cwd: string, group: Group, n: nat)
    requires WellFormed(nodes) && |nodes| >= 2 && nodes[0].Command? && (nodes[1].And? || nodes[1].Or?)
    requires Agree(fs, home, nodes, cwd, group, n)
    ensures WellFormed(nodes[2..]) && StartsAlike(fs, nodes[0], cwd, group != [])
    ensures EndsInCommand(nodes[2..]) ==> OpsAre(nodes[2..], nodes[1])
  {
    hide *;
    WellFormedTail(nodes);
    var op, tail, m := nodes[1], nodes[2..], n + |group|;
    var codes := Zeros(m + 1 + CommandCount(tail))[m := StatusFor(op, false)];
    AgreeAt(fs, home, nodes, cwd, group, codes, n);
    JoinedTurn(fs, home, nodes, cwd, group, codes, n);
    if EndsInCommand(tail) && !OpsAre(tail, op) {
      SkipsSome(fs, home, tail, false, op, codes[m], cwd, codes, m + 1);
    }
  }

  lemma AgreeBack(fs: FileSystem, home: string, nodes: seq<Node>, cwd: string, group: Group, n: nat)
    requires WellFormed(nodes) && |nodes| >= 2 && nodes[0].Command? && (nodes[1].And? || nodes[1].Or?)
    requires WellFormed(nodes[2..]) && StartsAlike(fs, nodes[0], cwd, group != [])
    requires Agree(fs, home, nodes[2..], cwd, [], n + |group| + 1) && OpsAre(nodes[2..], nodes[1])
    ensures Agree(fs, home, nodes, cwd, group, n)
  {
    hide *;
    WellFormedTail(nodes);
    var op, tail, m := nodes[1], nodes[2..], n + |group|;
    forall codes: seq<int> | |codes| == m + CommandCount(nodes)
      ensures SameFor(fs, home, nodes, cwd, group, codes, n)
    {
      JoinedTurn(fs, home, nodes, cwd, group, codes, n);
      if Proceeds(op, codes[m]) {
        AgreeAt(fs, home, tail, cwd, [], codes, m + 1);
      } else {
        SkipsAll(fs, home, tail, false, op, codes[m], cwd, codes, m + 1);
      }
    }
    AgreeFromAll(fs, home, nodes, cwd, group, n);
  }

  /** A cd: the two go on alike if it names a directory, is not piped to, and is not the end. */
  lemma AgreeChdir(fs: FileSystem, home: string, nodes: seq<Node>, cwd: string, group: Group, n: nat)
    requires WellFormed(nodes) && nodes[0].Chdir?
    ensures |nodes| >= 2 ==> WellFormed(nodes[2..])
    ensures Agree(fs, home, nodes, cwd, group, n) <==>
            && group == [] && nodes[0].dir.Some? && |nodes| >= 2
            && Agree(fs, home, nodes[2..], Join(cwd, nodes[0].dir.value), [], n)
  {
    if |nodes| >= 2 { WellFormedTail(nodes); }
    if group == [] && nodes[0].dir.Some? && |nodes| >= 2 {
      forall codes: seq<int> | |codes| == n + CommandCount(nodes)
        ensures SameFor(fs, home, nodes, cwd, [], codes, n) <==>
                SameFor(fs, home, nodes[2..], Join(cwd, nodes[0].dir.value), [], codes, n)
      {
        ChdirTurn(fs, home, nodes, cwd, [], codes, n);
      }
      hide WellFormed, SameFor, Join;
    } else {
      var codes := Zeros(n + |group| + CommandCount(nodes));
      ChdirDiffers(fs, home, nodes, cwd, group, codes, n);
      OneForAll(fs, home, nodes, cwd, group, codes, n);
    }
  }

  lemma ChdirTurn(fs: FileSystem, home: string, nodes: seq<Node>, cwd: string, group: Group, codes: seq<int>, n: nat)
    requires WellFormed(nodes) && n + CommandCount(nodes) <= |codes| && group == []
    requires |nodes| >= 2 && nodes[0].Chdir? && nodes[0].dir.Some?
    ensures WellFormed(nodes[2..]) && n + CommandCount(nodes[2..]) <= |codes|
    ensures SameFor(fs, home, nodes, cwd, group, codes, n) <==>
            SameFor(fs, home, nodes[2..], Join(cwd, nodes[0].dir.value), group, codes, n)
  {
    StartsWithNode(nodes);
    OneTurn(nodes, cwd, group, codes, n);
    hide WellFormed, RunNodes, Same, Join;
  }

  lemma ChdirDiffers(fs: FileSystem, home: string, nodes: seq<Node>, cwd: string, group: Group, codes: seq<int>, n: nat)
    requires WellFormed(nodes) && n + |group| + CommandCount(nodes) <= |codes|
    requires nodes[0].Chdir? && !(group == [] && nodes[0].dir.Some? && |nodes| >= 2)
    ensures !SameFor(fs, home, nodes, cwd, group, codes, n)
  {
    StartsWithNode(nodes);
    OneTurn(nodes, cwd, group, codes, n);
    if |nodes| >= 2 && nodes[0].dir.Some? {
      hide WellFormed, RunNodes, Same, Join;
      NeverSameAgain(fs, home, nodes[2..], Join(cwd, nodes[0].dir.value), cwd, group, codes, n);
    }
  }

  lemma {:induction false} FitsToTheEnd(fs: FileSystem, nodes: seq<Node>, piped: bool, cwd: string)
    requires WellFormed(nodes) && Fits(fs, nodes, piped, cwd)
    ensures EndsInCommand(nodes)
    decreases |nodes|
  {
    StartsWithNode(nodes);
    if |nodes| >= 2 {
      WellFormedTail(nodes);
      hide WellFormed, StartsAlike, OpsAre, Join;
      if nodes[0].Chdir? {
        FitsToTheEnd(fs, nodes[2..], false, Join(cwd, nodes[0].dir.value));
      } else {
        FitsToTheEnd(fs, nodes[2..], nodes[1].Pipe?, cwd);
      }
    }
  }

  lemma FitsTurn(fs: FileSystem, nodes: seq<Node>, piped: bool, cwd: string)
    requires WellFormed(nodes)
    ensures nodes != [] && (|nodes| >= 2 ==> WellFormed(nodes[2..]))
    ensures nodes[0].Chdir? ==>
              (Fits(fs, nodes, piped, cwd) <==>
               && !piped && nodes[0].dir.Some? && |nodes| >= 2
               && Fits(fs, nodes[2..], false, Join(cwd, nodes[0].dir.value)))
    ensures !nodes[0].Chdir? ==>
              && nodes[0].Command? && (|nodes| >= 2 ==> IsOp(nodes[1]))
              && (Fits(fs, nodes, piped, cwd) <==>
                  && StartsAlike(fs, nodes[0], cwd, piped)
                  && (|nodes| >= 2 ==>
                        && Fits(fs, nodes[2..], nodes[1].Pipe?, cwd)
                        && (nodes[1].Pipe? || OpsAre(nodes[2..], nodes[1]))))
  {
    StartsWithNode(nodes);
    if |nodes| >= 2 { WellFormedTail(nodes); }
    hide WellFormed, StartsAlike, OpsAre, Join;
  }

  lemma {:induction false} AgreeIffFits(fs: FileSystem, home: string, nodes: seq<Node>, cwd: string, group: Group,
                                        n: nat)
    requires WellFormed(nodes)
    ensures Agree(fs, home, nodes, cwd, group, n) <==> Fits(fs, nodes, group != [], cwd)
    decreases |nodes|
  {
    hide *;
    FitsTurn(fs, nodes, group != [], cwd);
    if nodes[0].Chdir? {
      AgreeChdir(fs, home, nodes, cwd, group, n);
      if nodes[0].dir.Some? && |nodes| >= 2 {
        AgreeIffFits(fs, home, nodes[2..], Join(cwd, nodes[0].dir.value), [], n);
      }
    } else if |nodes| == 1 {
      AgreeLast(fs, home, nodes, cwd, group, n);
    } else if nodes[1].Pipe? {
      var g := group + [Process(nodes[0], cwd, group != [])];
      AgreePiped(fs, home, nodes, cwd, group, n);
      AgreeIffFits(fs, home, nodes[2..], cwd, g, n);
    } else {
      JoinersAre(nodes[1]);
      AgreeIffFits(fs, home, nodes[2..], cwd, [], n + |group| + 1);
      if Agree(fs, home, nodes, cwd, group, n) {
        AgreeOn(fs, home, nodes, cwd, group, n);
        FitsToTheEnd(fs, nodes[2..], false, cwd);
      }
      if Fits(fs, nodes, group != [], cwd) {
        AgreeBack(fs, home, nodes, cwd, group, n);
      }
    }
  }

  lemma JoinersAre(op: Node)
    requires IsOp(op) && !op.Pipe?
    ensures op.And? || op.Or?
  {
  }
}
