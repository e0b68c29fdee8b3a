/** The parsed pipelines that run as a shell would run them, said of their nodes. */
module PosixCondition {
  import opened ShellParse
  import opened ShellRun
  import opened ShellMeaning
  import opened ShellReadings
  import opened PosixReading

  // ----- The condition

  /** A cd is the first node, and not piped to, or stands directly behind an And. */
  predicate CdOk(nodes: seq<Node>, i: nat, piped: bool)
    requires i < |nodes|
  {
    nodes[i].Chdir? ==> if i == 0 then !piped else nodes[i - 1].And?
  }

  predicate CdsBehindAnd(nodes: seq<Node>, piped: bool) {
    forall i: nat :: i < |nodes| ==> CdOk(nodes, i, piped)
  }

  /** A command that reads from a file does not stand behind a pipe. */
  predicate FileOk(nodes: seq<Node>, i: nat, piped: bool)
    requires i < |nodes|
  {
    nodes[i].Command? && nodes[i].stdin.Some? ==> if i == 0 then !piped else !nodes[i - 1].Pipe?
  }

  predicate NoFileBehindPipe(nodes: seq<Node>, piped: bool) {
    forall i: nat :: i < |nodes| ==> FileOk(nodes, i, piped)
  }

  /** The cds before a command do not change which files its redirections name. */
  predicate FilesKept(fs: FileSystem, nodes: seq<Node>, cwd: string) {
    forall i :: 0 <= i < |nodes| && nodes[i].Command? ==> FilesAlike(fs, nodes[i], DirAt(nodes, i, cwd))
  }

  ghost predicate LikeShell(fs: FileSystem, nodes: seq<Node>, piped: bool, cwd: string) {
    && Complete(nodes) && OneKind(nodes)
    && CdsBehindAnd(nodes, piped) && NoFileBehindPipe(nodes, piped) && FilesKept(fs, nodes, cwd)
  }

  // ----- From the first node on

  lemma CdsTail(nodes: seq<Node>, piped: bool)
    requires |nodes| >= 3 && !nodes[1].Chdir?
    ensures CdsBehindAnd(nodes, piped) <==>
            && (nodes[0].Chdir? ==> !piped) && (nodes[2].Chdir? ==> nodes[1].And?)
            && CdsBehindAnd(nodes[2..], false)
    ensures CdsBehindAnd(nodes[2..], true) <==> CdsBehindAnd(nodes[2..], false) && !nodes[2].Chdir?
  {
    var tail := nodes[2..];
    forall i: nat | 0 < i < |tail|
      ensures CdOk(tail, i, false) <==> CdOk(nodes, i + 2, piped)
      ensures CdOk(tail, i, true) <==> CdOk(tail, i, false)
    {
      assert tail[i] == nodes[i + 2] && tail[i - 1] == nodes[i + 1];
    }
    hide CdOk;
    CdsAt(nodes, piped);
    if CdsBehindAnd(nodes, piped) {
      forall i: nat | i < |tail| ensures CdOk(tail, i, false) {
        if i > 0 { assert CdOk(nodes, i + 2, piped); }
      }
    }
    if CdOk(nodes, 0, piped) && CdOk(nodes, 2, piped) && CdsBehindAnd(tail, false) {
      forall i: nat | i < |nodes| ensures CdOk(nodes, i, piped) {
        if i > 2 { assert CdOk(tail, i - 2, false); }
      }
    }
  }

  lemma CdsAt(nodes: seq<Node>, piped: bool)
    requires |nodes| >= 3 && !nodes[1].Chdir?
    ensures CdOk(nodes, 0, piped) <==> (nodes[0].Chdir? ==> !piped)
    ensures CdOk(nodes, 1, piped)
    ensures CdOk(nodes, 2, piped) <==> (nodes[2].Chdir? ==> nodes[1].And?)
    ensures CdOk(nodes[2..], 0, false) && (CdOk(nodes[2..], 0, true) <==> !nodes[2].Chdir?)
  {
  }

  lemma NoFileTail(nodes: seq<Node>, piped: bool)
    requires |nodes| >= 3 && !nodes[1].Command?
    ensures NoFileBehindPipe(nodes, piped) <==>
            && (nodes[0].Command? && nodes[0].stdin.Some? ==> !piped) && NoFileBehindPipe(nodes[2..], nodes[1].Pipe?)
  {
    var tail := nodes[2..];
    forall i: nat | i < |tail|
      ensures FileOk(tail, i, nodes[1].Pipe?) <==> FileOk(nodes, i + 2, piped)
    {
      assert tail[i] == nodes[i + 2] && (i > 0 ==> tail[i - 1] == nodes[i + 1]);
    }
    assert FileOk(nodes, 1, piped);
    assert FileOk(nodes, 0, piped) <==> (nodes[0].Command? && nodes[0].stdin.Some? ==> !piped);
    hide FileOk;
    if NoFileBehindPipe(nodes, piped) {
      forall i: nat | i < |tail| ensures FileOk(tail, i, nodes[1].Pipe?) {
        assert FileOk(nodes, i + 2, piped);
      }
    }
    if FileOk(nodes, 0, piped) && NoFileBehindPipe(tail, nodes[1].Pipe?) {
      forall i: nat | i < |nodes| ensures FileOk(nodes, i, piped) {
        if i >= 2 { assert FileOk(tail, i - 2, nodes[1].Pipe?); }
      }
    }
  }

  lemma FilesTail(fs: FileSystem, nodes: seq<Node>, cwd: string)
    requires |nodes| >= 3 && IsOp(nodes[1])
    ensures FilesKept(fs, nodes, cwd) <==>
            (nodes[0].Command? ==> FilesAlike(fs, nodes[0], cwd)) && FilesKept(fs, nodes[2..], DirAt(nodes, 2, cwd))
    ensures DirAt(nodes, 2, cwd) ==
            if nodes[0].Chdir? && nodes[0].dir.Some? then Join(cwd, nodes[0].dir.value) else cwd
  {
    hide FilesAlike, Join;
    var tail, dir := nodes[2..], DirAt(nodes, 2, cwd);
    assert DirAt(nodes, 0, cwd) == cwd;
    assert DirAt(nodes, 1, cwd) == dir;
    forall i | 0 <= i < |tail|
      ensures DirAt(nodes, i + 2, cwd) == DirAt(tail, i, dir) && tail[i] == nodes[i + 2]
    {
      DirAtTail(nodes, i + 2, cwd);
    }
    if FilesKept(fs, nodes, cwd) {
      forall i | 0 <= i < |tail| && tail[i].Command?
        ensures FilesAlike(fs, tail[i], DirAt(tail, i, dir))
      {
        assert nodes[i + 2].Command?;
      }
    }
    if (nodes[0].Command? ==> FilesAlike(fs, nodes[0], cwd)) && FilesKept(fs, tail, dir) {
      forall i | 0 <= i < |nodes| && nodes[i].Command?
        ensures FilesAlike(fs, nodes[i], DirAt(nodes, i, cwd))
      {
        if i >= 2 { assert tail[i - 2].Command?; }
      }
    }
  }

  /** All operators that join groups are of this kind. */
  ghost predicate AllJoin(nodes: seq<Node>, op: Node) {
    forall i: nat :: JoinsGroups(nodes, i) ==> nodes[i] == op
  }

  lemma OneKindTail(nodes: seq<Node>)
    requires |nodes| >= 3 && !nodes[1].Command?
    ensures OneKind(nodes) <==> OneKind(nodes[2..]) && (JoinsGroups(nodes, 1) ==> AllJoin(nodes[2..], nodes[1]))
  {
    var tail := nodes[2..];
    assert forall i: nat :: JoinsGroups(tail, i) <==> i > 0 && JoinsGroups(nodes, i + 2);
    assert !JoinsGroups(nodes, 2);
    if OneKind(nodes) {
      forall i: nat, j: nat | JoinsGroups(tail, i) && JoinsGroups(tail, j)
        ensures tail[i] == tail[j]
      {
        assert JoinsGroups(nodes, i + 2) && JoinsGroups(nodes, j + 2);
      }
    }
    if OneKind(tail) && (JoinsGroups(nodes, 1) ==> AllJoin(tail, nodes[1])) {
      forall i: nat, j: nat | JoinsGroups(nodes, i) && JoinsGroups(nodes, j)
        ensures nodes[i] == nodes[j]
      {
        if i > 1 { assert JoinsGroups(tail, i - 2); }
        if j > 1 { assert JoinsGroups(tail, j - 2); }
      }
    }
  }

  // ----- Operators among the nodes

  /** Nodes and operators in turn. */
  lemma Around(nodes: seq<Node>, i: nat)
    requires WellFormed(nodes) && i < |nodes|
    ensures IsOp(nodes[i]) ==>
              && i > 0 && (nodes[i - 1].Command? || nodes[i - 1].Chdir?)
              && (nodes[i - 1].Chdir? ==> nodes[i].And?)
    ensures !IsOp(nodes[i]) && i > 0 ==> i >= 2 && IsOp(nodes[i - 1])
  {
    hide CommandOk;
    var before := nodes[..|nodes| - 1];
    if i % 2 == 1 {
      assert Joint(before[i - 1], before[i]) && NodeOk(before[i - 1]);
    } else {
      assert i < |before| ==> NodeOk(before[i]);
      if i > 0 { assert Joint(before[i - 2], before[i - 1]); }
    }
  }

  /** Some And behind a command leads to every cd behind a command. */
  lemma {:induction false} AndBeforeCd(nodes: seq<Node>, c: nat) returns (j: nat)
    requires WellFormed(nodes) && nodes[0].Command? && CdsBehindAnd(nodes, false)
    requires 0 < c < |nodes| && nodes[c].Chdir?
    ensures JoinsGroups(nodes, j) && nodes[j].And?
  {
    assert CdOk(nodes, c, false);
    Around(nodes, c);
    Around(nodes, c - 1);
    hide WellFormed, CdsBehindAnd;
    if nodes[c - 2].Command? {
      j := c - 1;
    } else {
      j := AndBeforeCd(nodes, c - 2);
    }
  }

  /** Behind an operator that joins groups, in a pipeline of one kind, every And and Or is that operator. */
  lemma OpsFollow(nodes: seq<Node>)
    requires WellFormed(nodes) && |nodes| >= 2 && nodes[0].Command? && (nodes[1].And? || nodes[1].Or?)
    requires OneKind(nodes) && CdsBehindAnd(nodes, false)
    ensures OpsAre(nodes[2..], nodes[1])
  {
    forall i | 0 <= i < |nodes[2..]| && (nodes[2..][i].And? || nodes[2..][i].Or?)
      ensures nodes[2..][i] == nodes[1]
    {
      Around(nodes, i + 2);
      hide WellFormed, CdsBehindAnd;
      assert JoinsGroups(nodes, 1);
      if nodes[i + 1].Command? {
        assert JoinsGroups(nodes, i + 2);
      } else {
        var j := AndBeforeCd(nodes, i + 1);
      }
    }
  }

  /** Conversely they may stand in front. */
  lemma OpsLead(nodes: seq<Node>)
    requires WellFormed(nodes) && |nodes| >= 3 && nodes[0].Command? && (nodes[1].And? || nodes[1].Or?)
    requires OpsAre(nodes[2..], nodes[1]) && Complete(nodes[2..])
    ensures OneKind(nodes[2..]) && AllJoin(nodes[2..], nodes[1])
    ensures nodes[2].Chdir? ==> nodes[1].And?
  {
    if nodes[2].Chdir? {
      assert |nodes[2..]| > 1;
      Around(nodes, 3);
      assert nodes[2..][1] == nodes[3];
    }
    hide WellFormed, Complete;
  }

  // ----- It is the condition

  lemma {:induction false} FitsIffLikeShell(fs: FileSystem, nodes: seq<Node>, piped: bool, cwd: string)
    requires WellFormed(nodes)
    ensures Fits(fs, nodes, piped, cwd) <==> LikeShell(fs, nodes, piped, cwd)
    decreases |nodes|
  {
    hide *;
    FitsTurn(fs, nodes, piped, cwd);
    if |nodes| == 1 {
      FitsIffLast(fs, nodes, piped, cwd);
    } else {
      AtLeastThree(nodes);
      if nodes[0].Chdir? {
        if nodes[0].dir.Some? {
          FitsIffLikeShell(fs, nodes[2..], false, Join(cwd, nodes[0].dir.value));
        }
        LikeShellChdir(fs, nodes, piped, cwd);
      } else {
        FitsIffLikeShell(fs, nodes[2..], nodes[1].Pipe?, cwd);
        if nodes[1].Pipe? {
          LikeShellPipe(fs, nodes, piped, cwd);
        } else {
          LikeShellJoin(fs, nodes, piped, cwd);
        }
      }
    }
  }

  lemma AtLeastThree(nodes: seq<Node>)
    requires WellFormed(nodes) && |nodes| >= 2
    ensures |nodes| >= 3 && WellFormed(nodes[2..]) && IsOp(nodes[1]) && (nodes[0].Chdir? ==> nodes[1].And?)
  {
    StartsWithNode(nodes);
    WellFormedTail(nodes);
    Around(nodes, |nodes| - 1);
    hide WellFormed;
  }

  lemma LikeShellChdir(fs: FileSystem, nodes: seq<Node>, piped: bool, cwd: string)
    requires |nodes| >= 3 && nodes[0].Chdir? && nodes[1].And?
    ensures LikeShell(fs, nodes, piped, cwd) <==>
            !piped && nodes[0].dir.Some? && LikeShell(fs, nodes[2..], false, Join(cwd, nodes[0].dir.value))
  {
    CompleteTail(nodes);
    CdsTail(nodes, piped);
    NoFileTail(nodes, piped);
    FilesTail(fs, nodes, cwd);
    OneKindTail(nodes);
    hide Complete, OneKind, CdsBehindAnd, NoFileBehindPipe, FilesKept, Join;
  }

  lemma LikeShellPipe(fs: FileSystem, nodes: seq<Node>, piped: bool, cwd: string)
    requires |nodes| >= 3 && nodes[0].Command? && nodes[1].Pipe?
    ensures LikeShell(fs, nodes, piped, cwd) <==>
            StartsAlike(fs, nodes[0], cwd, piped) && LikeShell(fs, nodes[2..], true, cwd)
  {
    CompleteTail(nodes);
    CdsTail(nodes, piped);
    NoFileTail(nodes, piped);
    FilesTail(fs, nodes, cwd);
    OneKindTail(nodes);
    hide Complete, OneKind, CdsBehindAnd, NoFileBehindPipe, FilesKept, FilesAlike;
  }

  lemma LikeShellJoin(fs: FileSystem, nodes: seq<Node>, piped: bool, cwd: string)
    requires WellFormed(nodes) && |nodes| >= 3 && nodes[0].Command? && IsOp(nodes[1]) && !nodes[1].Pipe?
    ensures LikeShell(fs, nodes, piped, cwd) <==>
            && StartsAlike(fs, nodes[0], cwd, piped)
            && LikeShell(fs, nodes[2..], false, cwd) && OpsAre(nodes[2..], nodes[1])
  {
    CompleteTail(nodes);
    CdsTail(nodes, piped);
    CdsTail(nodes, false);
    NoFileTail(nodes, piped);
    FilesTail(fs, nodes, cwd);
    OneKindTail(nodes);
    hide WellFormed, Complete, OneKind, CdsBehindAnd, NoFileBehindPipe, FilesKept, FilesAlike, OpsAre, AllJoin;
    if LikeShell(fs, nodes, piped, cwd) {
      OpsFollow(nodes);
    }
    if LikeShell(fs, nodes[2..], false, cwd) && OpsAre(nodes[2..], nodes[1]) {
      OpsLead(nodes);
    }
  }

  lemma FitsIffLast(fs: FileSystem, nodes: seq<Node>, piped: bool, cwd: string)
    requires WellFormed(nodes) && |nodes| == 1
    ensures Fits(fs, nodes, piped, cwd) <==> LikeShell(fs, nodes, piped, cwd)
  {
    StartsWithNode(nodes);
    hide WellFormed, FilesAlike;
    if nodes[0].Command? {
      assert FilesKept(fs, nodes, cwd) <==> FilesAlike(fs, nodes[0], DirAt(nodes, 0, cwd));
      assert NoFileBehindPipe(nodes, piped) <==> FileOk(nodes, 0, piped);
    }
  }

  /**
   * A parsed pipeline runs as a shell would run it, whatever its commands return, iff its cds are complete, one
   * operator joins all its groups, every cd but a first one stands directly behind an And, no command behind a pipe
   * reads from a file, and no redirection behind a cd names another file than it would before it.
   */
  lemma RunsAsShellIff(fs: FileSystem, home: string, nodes: seq<Node>)
    requires WellFormed(nodes)
    ensures LikeShell(fs, nodes, false, ".") <==>
            forall codes :: |codes| == CommandCount(nodes) ==>
              Same(fs, RunNodes(nodes, ".", [], codes, 0), Shell(fs, home, nodes, codes))
  {
    hide WellFormed, LikeShell, Same, RunNodes, CommandCount, ShellFrom;
    FitsIffLikeShell(fs, nodes, false, ".");
    AgreeIffFits(fs, home, nodes, ".", [], 0);
    forall codes: seq<int> | |codes| == CommandCount(nodes)
      ensures SameFor(fs, home, nodes, ".", [], codes, 0) <==>
              Same(fs, RunNodes(nodes, ".", [], codes, 0), Shell(fs, home, nodes, codes))
    {
      SameForIs(fs, home, nodes, ".", [], codes, 0);
    }
  }
}
