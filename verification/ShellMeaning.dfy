/** What running a pipeline means: groups of processes, directories, status, and how it compares with a shell. */
module ShellMeaning {
  import opened Wrappers
  import opened ShellParse
  import opened ShellRun

  // ----- Which pipelines have a plan

  /** Every cd names a directory and is followed by something to run in it. */
  predicate Complete(nodes: seq<Node>) {
    && nodes != [] && !nodes[|nodes| - 1].Chdir?
    && forall i :: 0 <= i < |nodes| && nodes[i].Chdir? ==> nodes[i].dir.Some?
  }

  lemma {:induction false} PlanIffComplete(nodes: seq<Node>, cwd: string, group: Group)
    requires WellFormed(nodes)
    ensures PlanOf(nodes, cwd, group).Some? <==> Complete(nodes)
    decreases |nodes|
  {
    hide NodeOk, Joint;
    StartsWithNode(nodes);
    if |nodes| >= 2 {
      WellFormedTail(nodes);
      CompleteTail(nodes);
      if nodes[0].Chdir? {
        if nodes[0].dir.Some? { PlanIffComplete(nodes[2..], Join(cwd, nodes[0].dir.value), group); }
      } else if nodes[1].Pipe? {
        PlanIffComplete(nodes[2..], cwd, group + [Process(nodes[0], cwd, group != [])]);
      } else {
        PlanIffComplete(nodes[2..], cwd, []);
      }
    }
  }

  lemma CompleteTail(nodes: seq<Node>)
    requires |nodes| >= 3 && !nodes[1].Chdir?
    ensures Complete(nodes) <==> (nodes[0].Chdir? ==> nodes[0].dir.Some?) && Complete(nodes[2..])
  {
    assert forall i :: 0 <= i < |nodes| - 2 ==> nodes[2..][i] == nodes[i + 2];
    if Complete(nodes[2..]) && (nodes[0].Chdir? ==> nodes[0].dir.Some?) {
      forall i | 0 <= i < |nodes| && nodes[i].Chdir?
        ensures nodes[i].dir.Some?
      {
        if i >= 2 { assert nodes[2..][i - 2] == nodes[i]; }
      }
    }
  }

  lemma {:induction false} PlanFits(nodes: seq<Node>, cwd: string, group: Group)
    requires PlanOf(nodes, cwd, group).Some?
    ensures var p := PlanOf(nodes, cwd, group).value;
            Filled(p) && |p.first| + Size(p.rest) == |group| + CommandCount(nodes)
    decreases |nodes|
  {
    if |nodes| >= 2 {
      assert nodes[1..][1..] == nodes[2..];
    }
    match nodes[0]
    case Chdir(dir) => PlanFits(nodes[2..], Join(cwd, dir.value), group);
    case Command(_, _, _, _, _, _) =>
      var g := group + [Process(nodes[0], cwd, group != [])];
      if |nodes| > 1 {
        if nodes[1].Pipe? {
          PlanFits(nodes[2..], cwd, g);
        } else {
          PlanFits(nodes[2..], cwd, []);
          var p := PlanOf(nodes[2..], cwd, []).value;
          assert PlanOf(nodes, cwd, group).value.rest[1..] == p.rest;
        }
      }
  }

  // ----- The run is the right-nested meaning of the plan

  lemma RunThen(g: Group, op: Node, q: Plan, codes: seq<int>, n: nat)
    requires g != [] && (op.And? || op.Or?) && Filled(q) && n + |g| + |q.first| + Size(q.rest) <= |codes|
    ensures var p := Plan(g, [(op, q.first)] + q.rest);
            && Filled(p) && Size(p.rest) == |q.first| + Size(q.rest)
            && var status := Status(g, codes, n);
               RunPlan(p, codes, n) ==
               if Proceeds(op, status) then (g + RunPlan(q, codes, n + |g|).0, RunPlan(q, codes, n + |g|).1)
               else (g, status)
  {
    var p := Plan(g, [(op, q.first)] + q.rest);
    assert p.rest[1..] == q.rest;
    assert g + [] == g;
  }

  /** One node and the operator after it, on the side of the plan. */
  lemma PlanTurn(nodes: seq<Node>, cwd: string, group: Group)
    requires WellFormed(nodes) && PlanOf(nodes, cwd, group).Some?
    ensures var plan := PlanOf(nodes, cwd, group);
            var g := group + [Process(nodes[0], cwd, group != [])];
            if |nodes| == 1 then nodes[0].Command? && plan == Some(Plan(g, []))
            else if nodes[0].Chdir? then
              nodes[0].dir.Some? && plan == PlanOf(nodes[2..], Join(cwd, nodes[0].dir.value), group)
            else if nodes[1].Pipe? then plan == PlanOf(nodes[2..], cwd, g)
            else
              && (nodes[1].And? || nodes[1].Or?) && PlanOf(nodes[2..], cwd, []).Some?
              && var q := PlanOf(nodes[2..], cwd, []).value; plan == Some(Plan(g, [(nodes[1], q.first)] + q.rest))
  {
    hide NodeOk, Joint;
    StartsWithNode(nodes);
  }

  /** The group piped so far and what a run starts are what the plan starts, and it ends with the plan's status. */
  predicate Matches(group: Group, run: (seq<Process>, Outcome), plan: (seq<Process>, int)) {
    group + run.0 == plan.0 && run.1 == Exit(plan.1)
  }

  lemma MatchesBehind(group: Group, p: Process, run: (seq<Process>, Outcome), plan: (seq<Process>, int))
    ensures Matches(group + [p], run, plan) <==> Matches(group, ([p] + run.0, run.1), plan)
    ensures Matches([], run, plan) ==> Matches(group, ([p] + run.0, run.1), (group + [p] + plan.0, plan.1))
  {
    assert group + [p] + run.0 == group + ([p] + run.0);
    assert [] + run.0 == run.0;
  }

  lemma MatchesLast(group: Group, p: Process, status: int)
    ensures Matches(group, ([p], Exit(status)), (group + [p], status))
  {
  }

  lemma {:induction false} RunFollowsPlan(nodes: seq<Node>, cwd: string, group: Group, codes: seq<int>, n: nat)
    requires WellFormed(nodes) && n + |group| + CommandCount(nodes) <= |codes|
    requires PlanOf(nodes, cwd, group).Some?
    ensures var p := PlanOf(nodes, cwd, group).value;
            && Filled(p) && n + |p.first| + Size(p.rest) <= |codes|
            && Matches(group, RunNodes(nodes, cwd, group, codes, n), RunPlan(p, codes, n))
    decreases |nodes|
  {
    hide *;
    StartsWithNode(nodes);
    PlanFits(nodes, cwd, group);
    PlanTurn(nodes, cwd, group);
    OneTurn(nodes, cwd, group, codes, n);
    var p := Process(nodes[0], cwd, group != []);
    var g := group + [p];
    if |nodes| == 1 {
      RunLast(group, p, codes, n);
    } else if nodes[0].Chdir? {
      RunFollowsPlan(nodes[2..], Join(cwd, nodes[0].dir.value), group, codes, n);
    } else if nodes[1].Pipe? {
      RunFollowsPlan(nodes[2..], cwd, g, codes, n);
      var plan := PlanOf(nodes, cwd, group).value;
      MatchesBehind(group, p, RunNodes(nodes[2..], cwd, g, codes, n), RunPlan(plan, codes, n));
    } else {
      var q := PlanOf(nodes[2..], cwd, []).value;
      RunFollowsPlan(nodes[2..], cwd, [], codes, n + |g|);
      RunThen(g, nodes[1], q, codes, n);
      MatchesBehind(group, p, RunNodes(nodes[2..], cwd, [], codes, n + |g|), RunPlan(q, codes, n + |g|));
      MatchesLast(group, p, Status(g, codes, n));
    }
  }

  lemma RunLast(group: Group, p: Process, codes: seq<int>, n: nat)
    requires n + |group| + 1 <= |codes|
    ensures var plan := Plan(group + [p], []);
            Filled(plan) && Matches(group, ([p], Exit(Status(group + [p], codes, n))), RunPlan(plan, codes, n))
  {
  }

  /** On every complete pipeline, run starts the processes and returns the status of the right-nested reading. */
  lemma RunIsRightNested(nodes: seq<Node>, codes: seq<int>)
    requires WellFormed(nodes) && Complete(nodes) && CommandCount(nodes) <= |codes|
    ensures PlanOf(nodes, ".", []).Some?
    ensures var p := PlanOf(nodes, ".", []).value;
            && Filled(p) && |p.first| + Size(p.rest) <= |codes|
            && RunNodes(nodes, ".", [], codes, 0).0 == RunPlan(p, codes, 0).0
            && RunNodes(nodes, ".", [], codes, 0).1 == Exit(RunPlan(p, codes, 0).1)
  {
    PlanIffComplete(nodes, ".", []);
    RunFollowsPlan(nodes, ".", [], codes, 0);
    assert [] + RunNodes(nodes, ".", [], codes, 0).0 == RunNodes(nodes, ".", [], codes, 0).0;
  }

  // ----- What is started, where, and what is returned

  function Flat(rest: seq<(Node, Group)>): seq<Process> {
    if rest == [] then [] else rest[0].1 + Flat(rest[1..])
  }

  function AllProcesses(p: Plan): seq<Process> {
    p.first + Flat(p.rest)
  }

  /** Whole groups are started from the front, and the status is the exit code of the last process started. */
  lemma {:induction false} RestRunsInOrder(status: int, rest: seq<(Node, Group)>, codes: seq<int>, n: nat)
    requires n + Size(rest) <= |codes| && forall i :: 0 <= i < |rest| ==> rest[i].1 != []
    ensures var (started, final) := RunRest(status, rest, codes, n);
            && (exists m :: 0 <= m <= |rest| && started == Flat(rest[..m]))
            && started <= Flat(rest) && |started| <= Size(rest)
            && final == if started == [] then status else codes[n + |started| - 1]
    decreases |rest|
  {
    FlatSize(rest);
    if rest == [] || !Proceeds(rest[0].0, status) {
      assert Flat(rest[..0]) == [];
    } else {
      var g := rest[0].1;
      RestRunsInOrder(Status(g, codes, n), rest[1..], codes, n + |g|);
      var m :|
        0 <= m <= |rest[1..]| && RunRest(Status(g, codes, n), rest[1..], codes, n + |g|).0 == Flat(rest[1..][..m]);
      assert rest[..m + 1][1..] == rest[1..][..m];
      assert Flat(rest[..m + 1]) == g + Flat(rest[1..][..m]);
    }
  }

  lemma RunsInOrder(p: Plan, codes: seq<int>)
    requires Filled(p) && |p.first| + Size(p.rest) <= |codes|
    ensures var (started, status) := RunPlan(p, codes, 0);
            && (exists m :: 0 <= m <= |p.rest| && started == p.first + Flat(p.rest[..m]))
            && started <= AllProcesses(p) && 0 < |started| <= |codes|
            && status == codes[|started| - 1]
  {
    RestRunsInOrder(Status(p.first, codes, 0), p.rest, codes, |p.first|);
    var (more, status) := RunRest(Status(p.first, codes, 0), p.rest, codes, |p.first|);
    var m :| 0 <= m <= |p.rest| && more == Flat(p.rest[..m]);
    assert p.first + more == p.first + Flat(p.rest[..m]);
  }

  /** The directory in force at position i: the names of the cd nodes before it, joined in turn. */
  function DirAt(nodes: seq<Node>, i: nat, cwd: string): string
    requires i <= |nodes|
  {
    if i == 0 then cwd
    else if nodes[i - 1].Chdir? && nodes[i - 1].dir.Some? then Join(DirAt(nodes, i - 1, cwd), nodes[i - 1].dir.value)
    else DirAt(nodes, i - 1, cwd)
  }

  /** Whether a pipe leads into position i, possibly past some cd nodes. */
  function PipedAt(nodes: seq<Node>, i: nat, piped: bool): bool
    requires i <= |nodes|
  {
    if i == 0 then piped
    else if i >= 2 && nodes[i - 2].Chdir? then PipedAt(nodes, i - 2, piped)
    else nodes[i - 1].Pipe?
  }

  lemma {:induction false} DirAtTail(nodes: seq<Node>, i: nat, cwd: string)
    requires 2 <= i <= |nodes|
    ensures DirAt(nodes, i, cwd) == DirAt(nodes[2..], i - 2, DirAt(nodes, 2, cwd))
  {
    if i > 2 {
      DirAtTail(nodes, i - 1, cwd);
      assert nodes[2..][i - 3] == nodes[i - 1];
    }
  }

  lemma {:induction false} PipedAtTail(nodes: seq<Node>, i: nat, piped: bool)
    requires 2 <= i <= |nodes| && i % 2 == 0
    ensures PipedAt(nodes, i, piped) == PipedAt(nodes[2..], i - 2, PipedAt(nodes, 2, piped))
  {
    if i > 2 {
      PipedAtTail(nodes, i - 2, piped);
      assert nodes[2..][i - 3] == nodes[i - 1] && nodes[2..][i - 4] == nodes[i - 2];
    }
  }

  lemma {:induction false} FlatSize(rest: seq<(Node, Group)>)
    ensures |Flat(rest)| == Size(rest)
  {
    if rest != [] { FlatSize(rest[1..]); }
  }

  lemma CommandsAtEven(nodes: seq<Node>, i: nat)
    requires WellFormed(nodes) && i < |nodes| && nodes[i].Command?
    ensures i % 2 == 0
  {
    if i % 2 == 1 { OperatorsAtOdd(nodes, i); }
  }

  lemma OperatorsAtOdd(nodes: seq<Node>, i: nat)
    requires WellFormed(nodes) && i < |nodes| && i % 2 == 1
    ensures IsOp(nodes[i])
  {
    hide NodeOk;
    var before := nodes[..|nodes| - 1];
    assert Joint(before[i - 1], before[i]);
  }

  /** How the plan of a pipeline comes from the plan behind its first two nodes. */
  lemma PlanStep(nodes: seq<Node>, cwd: string, group: Group) returns (cwd': string, group': Group, before: Group)
    requires WellFormed(nodes) && |nodes| >= 2 && PlanOf(nodes, cwd, group).Some?
    ensures WellFormed(nodes[2..]) && PlanOf(nodes[2..], cwd', group').Some?
    ensures AllProcesses(PlanOf(nodes, cwd, group).value)
            == before + AllProcesses(PlanOf(nodes[2..], cwd', group').value)
    ensures cwd' == DirAt(nodes, 2, cwd) && (group' != [] <==> PipedAt(nodes, 2, group != []))
    ensures before + group' == group + if nodes[0].Command? then [Process(nodes[0], cwd, group != [])] else []
  {
    hide NodeOk, Joint;
    StartsWithNode(nodes);
    WellFormedTail(nodes);
    assert DirAt(nodes, 1, cwd) == if nodes[0].Chdir? && nodes[0].dir.Some? then Join(cwd, nodes[0].dir.value) else cwd;
    if nodes[0].Chdir? {
      cwd', group', before := Join(cwd, nodes[0].dir.value), group, [];
    } else {
      var g := group + [Process(nodes[0], cwd, group != [])];
      cwd' := cwd;
      if nodes[1].Pipe? {
        group', before := g, [];
      } else {
        group', before := [], g;
        var p, q := PlanOf(nodes, cwd, group).value, PlanOf(nodes[2..], cwd, []).value;
        assert p.rest[0] == (nodes[1], q.first) && p.rest[1..] == q.rest;
      }
    }
  }

  /** The plan's processes are the commands in order, each in its directory and piped as the nodes say. */
  lemma {:induction false} ProcessesAreCommands(nodes: seq<Node>, cwd: string, group: Group, i: nat)
    requires WellFormed(nodes) && PlanOf(nodes, cwd, group).Some?
    requires i < |nodes| && nodes[i].Command?
    ensures CommandIsStarted(nodes, cwd, group, i, AllProcesses(PlanOf(nodes, cwd, group).value))
    decreases |nodes|
  {
    if i == 0 {
      FirstCommandIsStarted(nodes, cwd, group);
    } else {
      hide *;
      CommandsAtEven(nodes, i);
      WellFormedTail(nodes);
      var cwd', group', before := PlanStep(nodes, cwd, group);
      ProcessesAreCommands(nodes[2..], cwd', group', i - 2);
      LaterCommandIsStarted(nodes, cwd, group, i, cwd', group', before,
                            AllProcesses(PlanOf(nodes[2..], cwd', group').value));
    }
  }

  ghost predicate CommandIsStarted(nodes: seq<Node>, cwd: string, group: Group, i: nat, all: seq<Process>)
    requires i < |nodes|
  {
    var k := |group| + CommandCount(nodes[..i]);
    k < |all| && all[k] == Process(nodes[i], DirAt(nodes, i, cwd), PipedAt(nodes, i, group != []))
  }

  lemma FirstCommandIsStarted(nodes: seq<Node>, cwd: string, group: Group)
    requires WellFormed(nodes) && PlanOf(nodes, cwd, group).Some? && nodes[0].Command?
    ensures CommandIsStarted(nodes, cwd, group, 0, AllProcesses(PlanOf(nodes, cwd, group).value))
  {
    AtTheStart(nodes, cwd, group != []);
    if |nodes| > 1 {
      hide AllProcesses, PlanOf, WellFormed;
      var cwd', group', before := PlanStep(nodes, cwd, group);
      GroupComesFirst(nodes[2..], cwd', group');
      assert (before + group')[|group|] == Process(nodes[0], cwd, group != []);
    }
  }

  lemma LaterCommandIsStarted(nodes: seq<Node>, cwd: string, group: Group, i: nat,
                              cwd': string, group': Group, before: Group, all: seq<Process>)
    requires WellFormed(nodes) && 2 <= i < |nodes| && i % 2 == 0
    requires cwd' == DirAt(nodes, 2, cwd) && (group' != [] <==> PipedAt(nodes, 2, group != []))
    requires before + group' == group + if nodes[0].Command? then [Process(nodes[0], cwd, group != [])] else []
    requires CommandIsStarted(nodes[2..], cwd', group', i - 2, all)
    ensures CommandIsStarted(nodes, cwd, group, i, before + all)
  {
    hide DirAt, PipedAt, CommandCount, WellFormed;
    DirAtTail(nodes, i, cwd);
    PipedAtTail(nodes, i, group != []);
    CountTail(nodes, i);
    assert |before| + |group'| == |before + group'|;
  }

  lemma AtTheStart(nodes: seq<Node>, cwd: string, piped: bool)
    ensures DirAt(nodes, 0, cwd) == cwd && PipedAt(nodes, 0, piped) == piped && CommandCount(nodes[..0]) == 0
  {
  }

  lemma {:induction false} GroupComesFirst(nodes: seq<Node>, cwd: string, group: Group)
    requires WellFormed(nodes) && PlanOf(nodes, cwd, group).Some?
    ensures group <= AllProcesses(PlanOf(nodes, cwd, group).value)
    decreases |nodes|
  {
    if |nodes| >= 2 {
      hide PlanOf, AllProcesses;
      var cwd', group', before := PlanStep(nodes, cwd, group);
      GroupComesFirst(nodes[2..], cwd', group');
      assert group <= before + group';
    }
  }

  lemma CountTail(nodes: seq<Node>, i: nat)
    requires WellFormed(nodes) && 2 <= i < |nodes|
    ensures CommandCount(nodes[..i]) == (if nodes[0].Command? then 1 else 0) + CommandCount(nodes[2..][..i - 2])
  {
    StartsWithNode(nodes);
    assert nodes[..i][1..][1..] == nodes[2..][..i - 2];
  }

  // ----- How it compares with the left-associative reading of a shell

  /** All operators between groups are the same. */
  ghost predicate Uniform(rest: seq<(Node, Group)>) {
    forall i :: 0 <= i < |rest| ==> rest[i].0 == rest[0].0
  }

  /** The right-nested and the left-associative reading start the same processes and return the same status. */
  ghost predicate ReadingsAgree(p: Plan, codes: seq<int>)
    requires Filled(p) && |p.first| + Size(p.rest) <= |codes|
  {
    RunPlan(p, codes, 0) == RunPlanLeft(p, codes)
  }

  lemma {:induction false} SkippedForGood(op: Node, status: int, rest: seq<(Node, Group)>, codes: seq<int>, n: nat)
    requires n + Size(rest) <= |codes| && forall i :: 0 <= i < |rest| ==> rest[i].1 != [] && rest[i].0 == op
    requires !Proceeds(op, status)
    ensures RunRestLeft(status, rest, codes, n) == ([], status)
    decreases |rest|
  {
    if rest != [] {
      assert rest[0].0 == op;
      SkippedForGood(op, status, rest[1..], codes, n);
    }
  }

  lemma {:induction false} UniformAgrees(status: int, rest: seq<(Node, Group)>, codes: seq<int>, n: nat)
    requires n + Size(rest) <= |codes| && forall i :: 0 <= i < |rest| ==> rest[i].1 != []
    requires Uniform(rest)
    ensures RunRest(status, rest, codes, n) == RunRestLeft(status, rest, codes, n)
    decreases |rest|
  {
    if rest != [] {
      if Proceeds(rest[0].0, status) {
        UniformAgrees(Status(rest[0].1, codes, n), rest[1..], codes, n + |rest[0].1|);
      } else {
        SkippedForGood(rest[0].0, status, rest, codes, n);
      }
    }
  }

  /** Behind a short circuit, a shell still runs the group behind the first operator of the other kind. */
  lemma {:induction false} OtherOperatorRuns(op: Node, status: int, rest: seq<(Node, Group)>, i: nat,
                                             codes: seq<int>, n: nat)
    requires n + Size(rest) <= |codes| && forall j :: 0 <= j < |rest| ==> rest[j].1 != []
    requires forall j :: 0 <= j < |rest| ==> rest[j].0.And? || rest[j].0.Or?
    requires op.And? || op.Or?
    requires i < |rest| && rest[i].0 != op && !Proceeds(op, status)
    ensures RunRestLeft(status, rest, codes, n).0 != []
    decreases |rest|
  {
    if rest[0].0 == op {
      OtherOperatorRuns(op, status, rest[1..], i - 1, codes, n);
    } else {
      assert Proceeds(rest[0].0, status);
    }
  }

  /** Exit codes that short-circuit the plan's first operator. */
  function Refusing(p: Plan): seq<int>
    requires p.rest != []
  {
    seq(|p.first| + Size(p.rest), _ => if p.rest[0].0.And? then 1 else 0)
  }

  /**
   * The two readings agree for all exit codes iff all operators of the pipeline are the same. When they are
   * not, codes that refuse the first operator make a shell start a process that run does not.
   */
  lemma ReadingsAgreeIffUniform(p: Plan)
    requires Filled(p)
    ensures Uniform(p.rest) <==>
            forall codes :: |codes| == |p.first| + Size(p.rest) ==> ReadingsAgree(p, codes)
    ensures !Uniform(p.rest) ==> RunPlan(p, Refusing(p), 0).0 == p.first && |RunPlanLeft(p, Refusing(p)).0| > |p.first|
  {
    if Uniform(p.rest) {
      forall codes: seq<int> | |codes| == |p.first| + Size(p.rest)
        ensures ReadingsAgree(p, codes)
      {
        UniformAgrees(Status(p.first, codes, 0), p.rest, codes, |p.first|);
      }
    } else {
      var codes := Refusing(p);
      var i :| 0 <= i < |p.rest| && p.rest[i].0 != p.rest[0].0;
      var status := Status(p.first, codes, 0);
      OtherOperatorRuns(p.rest[0].0, status, p.rest, i, codes, |p.first|);
      assert p.first + [] == p.first;
      assert !ReadingsAgree(p, codes);
    }
  }
}
