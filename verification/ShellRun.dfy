/**
 * waf-tools/shellcmd.py, Pipeline.run without verbose output: which processes a parsed pipeline starts, in
 * which directories, and what it returns. The exit codes of the processes, in starting order, are inputs.
 */
module ShellRun {
  import opened Wrappers
  import opened ShellParse

  /** A started process: its command, its directory, and whether it reads from the process before it. */
  datatype Process = Process(cmd: Node, cwd: string, piped: bool)

  datatype RunError = IndexError | TypeError | AssertionError

  /** How a run ends. NoResult is Python's None. */
  datatype Outcome = Exit(code: int) | NoResult | Raised(error: RunError)

  /** os.path.join on POSIX. */
  function Join(a: string, b: string): string {
    if b != "" && b[0] == '/' then b
    else if a == "" || a[|a| - 1] == '/' then a + b
    else a + "/" + b
  }

  function CommandCount(nodes: seq<Node>): nat {
    if nodes == [] then 0 else (if nodes[0].Command? then 1 else 0) + CommandCount(nodes[1..])
  }

  // ----- The meaning of a pipeline

  type Group = seq<Process>

  /** One group of piped processes, then further groups, each behind And or Or. */
  datatype Plan = Plan(first: Group, rest: seq<(Node, Group)>)

  /** Cuts nodes into groups at And and Or; cd is folded into the directory of what follows it. */
  function PlanOf(nodes: seq<Node>, cwd: string, group: Group): Option<Plan>
    decreases |nodes|
  {
    if nodes == [] then None
    else
      match nodes[0]
      case Chdir(dir) =>
        if |nodes| >= 2 && nodes[1].And? && dir.Some? then PlanOf(nodes[2..], Join(cwd, dir.value), group) else None
      case Command(_, _, _, _, _, _) =>
        var g := group + [Process(nodes[0], cwd, group != [])];
        if |nodes| == 1 then Some(Plan(g, []))
        else if nodes[1].Pipe? then PlanOf(nodes[2..], cwd, g)
        else if nodes[1].And? || nodes[1].Or? then
          match PlanOf(nodes[2..], cwd, [])
          case None => None
          case Some(p) => Some(Plan(g, [(nodes[1], p.first)] + p.rest))
        else None
      case _ => None
  }

  predicate Proceeds(op: Node, status: int) {
    if op.And? then status == 0 else status != 0
  }

  /** A group's status is the exit code of its last process; n processes were started before it. */
  function Status(g: Group, codes: seq<int>, n: nat): int
    requires g != [] && n + |g| <= |codes|
  {
    codes[n + |g| - 1]
  }

  function Size(rest: seq<(Node, Group)>): nat {
    if rest == [] then 0 else |rest[0].1| + Size(rest[1..])
  }

  predicate Filled(p: Plan) {
    p.first != [] && forall i :: 0 <= i < |p.rest| ==> p.rest[i].1 != [] && !p.rest[i].0.Pipe? && IsOp(p.rest[i].0)
  }

  /** Right-nested: each operator decides about everything behind it. */
  function RunRest(status: int, rest: seq<(Node, Group)>, codes: seq<int>, n: nat): (seq<Process>, int)
    requires n + Size(rest) <= |codes| && forall i :: 0 <= i < |rest| ==> rest[i].1 != []
    decreases |rest|
  {
    if rest == [] || !Proceeds(rest[0].0, status) then ([], status)
    else
      var g := rest[0].1;
      var (started, final) := RunRest(Status(g, codes, n), rest[1..], codes, n + |g|);
      (g + started, final)
  }

  function RunPlan(p: Plan, codes: seq<int>, n: nat): (seq<Process>, int)
    requires Filled(p) && n + |p.first| + Size(p.rest) <= |codes|
  {
    var (started, status) := RunRest(Status(p.first, codes, n), p.rest, codes, n + |p.first|);
    (p.first + started, status)
  }

  /** Left-associative: each operator decides about the next group only. */
  function RunRestLeft(status: int, rest: seq<(Node, Group)>, codes: seq<int>, n: nat): (seq<Process>, int)
    requires n + Size(rest) <= |codes| && forall i :: 0 <= i < |rest| ==> rest[i].1 != []
    decreases |rest|
  {
    if rest == [] then ([], status)
    else if !Proceeds(rest[0].0, status) then RunRestLeft(status, rest[1..], codes, n)
    else
      var g := rest[0].1;
      var (started, final) := RunRestLeft(Status(g, codes, n), rest[1..], codes, n + |g|);
      (g + started, final)
  }

  function RunPlanLeft(p: Plan, codes: seq<int>): (seq<Process>, int)
    requires Filled(p) && |p.first| + Size(p.rest) <= |codes|
  {
    var (started, status) := RunRestLeft(Status(p.first, codes, 0), p.rest, codes, |p.first|);
    (p.first + started, status)
  }

  // ----- The executor

  lemma WellFormedTail(nodes: seq<Node>)
    requires WellFormed(nodes) && |nodes| >= 2
    ensures NodeOk(nodes[0]) && Joint(nodes[0], nodes[1])
    ensures WellFormed(nodes[2..])
    ensures CommandCount(nodes) == (if nodes[0].Command? then 1 else 0) + CommandCount(nodes[2..])
  {
    hide NodeOk, Joint;
    var before := nodes[..|nodes| - 1];
    AlternatesTail(before);
    assert nodes[2..][..|nodes[2..]| - 1] == before[2..];
    assert nodes[1..][1..] == nodes[2..];
    assert Joint(nodes[0], nodes[1]);
    assert !nodes[1].Command? by { JointIsOp(nodes[0], nodes[1]); }
  }

  lemma StartsWithNode(nodes: seq<Node>)
    requires WellFormed(nodes)
    ensures nodes != [] && (nodes[0].Command? || nodes[0].Chdir?)
    ensures |nodes| >= 2 ==> IsOp(nodes[1]) && (nodes[0].Chdir? ==> nodes[1].And?)
  {
    if |nodes| >= 2 {
      assert nodes[..|nodes| - 1][0] == nodes[0];
      WellFormedTail(nodes);
    }
  }

  lemma JointIsOp(n: Node, op: Node)
    requires Joint(n, op)
    ensures IsOp(op)
  {
  }

  lemma AlternatesTail(nodes: seq<Node>)
    requires Alternates(nodes) && nodes != []
    ensures |nodes| >= 2 && NodeOk(nodes[0]) && Joint(nodes[0], nodes[1]) && Alternates(nodes[2..])
  {
    hide NodeOk, Joint;
    var tail := nodes[2..];
    forall i | 0 <= i < |tail| && i % 2 == 0
      ensures NodeOk(tail[i]) && Joint(tail[i], tail[i + 1])
    {
      assert NodeOk(nodes[i + 2]) && Joint(nodes[i + 2], nodes[i + 3]);
    }
  }

  /** Waits for all of a group's processes; the result is 0 if all their codes are, and else the last one's. */
  method ExecPipedCommands(retvals: seq<int>) returns (retval: int)
    ensures retval == if retvals == [] then 0 else retvals[|retvals| - 1]
  {
    retval := 0;
    for i := 0 to |retvals|
      invariant retval == 0 && forall j :: 0 <= j < i ==> retvals[j] == 0
    {
      if retvals[i] != 0 {
        retval := retvals[|retvals| - 1];
        break;
      }
    }
  }

  /**
   * What the loop does from here on, with a group of started but not yet awaited processes and n processes
   * started before those: the processes it will start, and how it ends.
   */
  function RunNodes(nodes: seq<Node>, cwd: string, group: Group, codes: seq<int>, n: nat): (seq<Process>, Outcome)
    requires WellFormed(nodes) && n + |group| + CommandCount(nodes) <= |codes|
    decreases |nodes|
  {
    if |nodes| >= 2 then
      WellFormedTail(nodes);
      match nodes[0]
      case Chdir(dir) =>
        if dir == None then ([], Raised(TypeError))
        else RunNodes(nodes[2..], Join(cwd, dir.value), group, codes, n)
      case Command(_, _, _, _, _, _) =>
        var p := Process(nodes[0], cwd, group != []);
        var g := group + [p];
        if nodes[1].Pipe? then
          var (started, outcome) := RunNodes(nodes[2..], cwd, g, codes, n);
          ([p] + started, outcome)
        else
          var status := Status(g, codes, n);
          if Proceeds(nodes[1], status) then
            var (started, outcome) := RunNodes(nodes[2..], cwd, [], codes, n + |g|);
            ([p] + started, outcome)
          else ([p], Exit(status))
    else if nodes[0].Chdir? then ([], Raised(IndexError))
    else
      var p := Process(nodes[0], cwd, group != []);
      ([p], Exit(Status(group + [p], codes, n)))
  }

  /** One turn of the loop, on the specification's side. */
  lemma OneTurn(nodes: seq<Node>, cwd: string, group: Group, codes: seq<int>, n: nat)
    requires WellFormed(nodes) && n + |group| + CommandCount(nodes) <= |codes|
    ensures var run := RunNodes(nodes, cwd, group, codes, n);
            var p := Process(nodes[0], cwd, group != []);
            var g := group + [p];
            if nodes[0].Chdir? then
              if |nodes| == 1 then run == ([], Raised(IndexError))
              else if nodes[0].dir == None then run == ([], Raised(TypeError))
              else
                && WellFormed(nodes[2..]) && CommandCount(nodes[2..]) == CommandCount(nodes)
                && run == RunNodes(nodes[2..], Join(cwd, nodes[0].dir.value), group, codes, n)
            else
              && n + |g| <= |codes|
              && if |nodes| == 1 then run == ([p], Exit(Status(g, codes, n)))
                 else
                   && WellFormed(nodes[2..]) && CommandCount(nodes[2..]) + 1 == CommandCount(nodes) && IsOp(nodes[1])
                   && if nodes[1].Pipe? then
                        run.0 == [p] + RunNodes(nodes[2..], cwd, g, codes, n).0
                        && run.1 == RunNodes(nodes[2..], cwd, g, codes, n).1
                      else if Proceeds(nodes[1], Status(g, codes, n)) then
                        run.0 == [p] + RunNodes(nodes[2..], cwd, [], codes, n + |g|).0
                        && run.1 == RunNodes(nodes[2..], cwd, [], codes, n + |g|).1
                      else run == ([p], Exit(Status(g, codes, n)))
  {
    hide NodeOk, Joint;
    StartsWithNode(nodes);
    if |nodes| >= 2 { WellFormedTail(nodes); }
  }

  method Run(pipeline: seq<Node>, codes: seq<int>) returns (started: seq<Process>, outcome: Outcome)
    requires pipeline == [] || WellFormed(pipeline)
    requires CommandCount(pipeline) <= |codes|
    ensures if pipeline == [] then started == [] && outcome == NoResult
            else
              && started == RunNodes(pipeline, ".", [], codes, 0).0
              && outcome == RunNodes(pipeline, ".", [], codes, 0).1
  {
    hide WellFormed, RunNodes, CommandCount, Join;
    ghost var all := if pipeline == [] then ([], NoResult) else RunNodes(pipeline, ".", [], codes, 0);
    var nodes, cwd := pipeline, ".";
    var awaited, pipedCommands: seq<Process> := [], [];
    started := [];
    while nodes != []
      invariant nodes == [] <==> pipeline == []
      invariant started == awaited + pipedCommands
      invariant nodes != [] ==>
                  && WellFormed(nodes) && |started| + CommandCount(nodes) <= |codes|
                  && var more := RunNodes(nodes, cwd, pipedCommands, codes, |awaited|);
                     all.0 == started + more.0 && all.1 == more.1
      invariant nodes == [] ==> started == []
      decreases |nodes|
    {
      OneTurn(nodes, cwd, pipedCommands, codes, |awaited|);
      var node := nodes[0];
      assert started + [] == started;
      if node.Chdir? {
        if |nodes| == 1 {
          return started, Raised(IndexError);
        }
        if node.dir == None {
          return started, Raised(TypeError);
        }
        cwd := Join(cwd, node.dir.value);
        NotEmpty(nodes[2..]);
        nodes := nodes[2..];
        continue;
      }
      var proc := Process(node, cwd, pipedCommands != []);
      started, pipedCommands := started + [proc], pipedCommands + [proc];
      var retvals := codes[|awaited|..|started|];
      assert retvals[|retvals| - 1] == Status(pipedCommands, codes, |awaited|);
      if |nodes| == 1 {
        var retval := ExecPipedCommands(retvals);
        return started, Exit(retval);
      }
      var next := nodes[1];
      if !next.Pipe? {
        var retval := ExecPipedCommands(retvals);
        if next.Or? && retval == 0 {
          return started, Exit(retval);
        }
        if next.And? && retval != 0 {
          return started, Exit(retval);
        }
        awaited, pipedCommands := awaited + pipedCommands, [];
      }
      NotEmpty(nodes[2..]);
      nodes := nodes[2..];
    }
    outcome := NoResult;
  }

  lemma NotEmpty(nodes: seq<Node>)
    requires WellFormed(nodes)
    ensures nodes != []
  {
  }
}
