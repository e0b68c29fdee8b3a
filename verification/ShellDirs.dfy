/** In which directory run starts each command, said of the cds before it. */
module ShellDirs {
  import opened Wrappers
  import opened ShellParse
  import opened ShellRun
  import opened ShellMeaning

  // ----- Every started process is a command of the pipeline, in order, in the directory of its place

  /** The k-th process that is started is the k-th command, whatever becomes of the run in the end. */
  lemma {:induction false} StartedAt(nodes: seq<Node>, cwd: string, group: Group, codes: seq<int>, n: nat, k: nat)
    returns (i: nat)
    requires WellFormed(nodes) && n + |group| + CommandCount(nodes) <= |codes|
    requires k < |RunNodes(nodes, cwd, group, codes, n).0|
    ensures i < |nodes| && i % 2 == 0 && nodes[i].Command? && CommandCount(nodes[..i]) == k
    ensures RunNodes(nodes, cwd, group, codes, n).0[k]
            == Process(nodes[i], DirAt(nodes, i, cwd), PipedAt(nodes, i, group != []))
    decreases |nodes|
  {
    hide *;
    StartsWithNode(nodes);
    OneTurn(nodes, cwd, group, codes, n);
    AtTheStart(nodes, cwd, group != []);
    if nodes[0].Chdir? {
      var dir := nodes[0].dir.value;
      i := StartedAt(nodes[2..], Join(cwd, dir), group, codes, n, k);
      OneNodeOn(nodes, i, cwd, group != []);
      i := i + 2;
    } else if k == 0 {
      i := 0;
    } else {
      var g := group + [Process(nodes[0], cwd, group != [])];
      if nodes[1].Pipe? {
        i := StartedAt(nodes[2..], cwd, g, codes, n, k - 1);
      } else {
        i := StartedAt(nodes[2..], cwd, [], codes, n + |g|, k - 1);
      }
      OneNodeOn(nodes, i, cwd, group != []);
      i := i + 2;
    }
  }

  /** Places in the pipeline behind its first node and operator. */
  lemma OneNodeOn(nodes: seq<Node>, i: nat, cwd: string, piped: bool)
    requires WellFormed(nodes) && i % 2 == 0 && i + 2 < |nodes| && (nodes[0].Chdir? || nodes[0].Command?)
    requires nodes[0].Chdir? ==> nodes[0].dir.Some?
    ensures var cwd' := if nodes[0].Chdir? then Join(cwd, nodes[0].dir.value) else cwd;
            DirAt(nodes, i + 2, cwd) == DirAt(nodes[2..], i, cwd')
    ensures var piped' := if nodes[0].Chdir? then piped else nodes[1].Pipe?;
            PipedAt(nodes, i + 2, piped) == PipedAt(nodes[2..], i, piped')
    ensures CommandCount(nodes[..i + 2]) == (if nodes[0].Command? then 1 else 0) + CommandCount(nodes[2..][..i])
  {
    hide *;
    DirAtTail(nodes, i + 2, cwd);
    PipedAtTail(nodes, i + 2, piped);
    CountTail(nodes, i + 2);
    StartsWithNode(nodes);
    FirstTurn(nodes, cwd, piped);
  }

  lemma FirstTurn(nodes: seq<Node>, cwd: string, piped: bool)
    requires |nodes| >= 2 && !nodes[1].Chdir? && (nodes[0].Chdir? || nodes[0].Command?)
    requires nodes[0].Chdir? ==> nodes[0].dir.Some?
    ensures DirAt(nodes, 2, cwd) == if nodes[0].Chdir? then Join(cwd, nodes[0].dir.value) else cwd
    ensures PipedAt(nodes, 0, piped) == piped
    ensures PipedAt(nodes, 2, piped) == if nodes[0].Chdir? then piped else nodes[1].Pipe?
  {
    hide Join;
    assert DirAt(nodes, 1, cwd) == if nodes[0].Chdir? then Join(cwd, nodes[0].dir.value) else cwd;
    assert PipedAt(nodes, 0, piped) == piped;
  }

  // ----- What cds come to

  predicate Absolute(name: string) {
    name != "" && name[0] == '/'
  }

  /** A cd to a named directory. */
  predicate IsCd(n: Node) {
    n.Chdir? && n.dir.Some?
  }

  /** The last cd before position i stands at j. */
  predicate LastCd(nodes: seq<Node>, j: nat, i: nat) {
    j < i <= |nodes| && IsCd(nodes[j]) && forall m :: j < m < i ==> !IsCd(nodes[m])
  }

  lemma {:induction false} NoCdNoChange(nodes: seq<Node>, j: nat, i: nat, cwd: string)
    requires j <= i <= |nodes| && forall m :: j <= m < i ==> !IsCd(nodes[m])
    ensures DirAt(nodes, i, cwd) == DirAt(nodes, j, cwd)
  {
    if j < i { NoCdNoChange(nodes, j, i - 1, cwd); }
  }

  lemma {:induction false} NeverEmpty(nodes: seq<Node>, i: nat, cwd: string)
    requires i <= |nodes| && cwd != ""
    ensures DirAt(nodes, i, cwd) != ""
  {
    if i > 0 { NeverEmpty(nodes, i - 1, cwd); }
  }

  /** Behind a cd to an absolute name, where one was before it plays no role. */
  lemma {:induction false} AbsoluteForgets(nodes: seq<Node>, j: nat, i: nat, cwd: string, cwd': string)
    requires j < i <= |nodes| && IsCd(nodes[j]) && Absolute(nodes[j].dir.value)
    ensures DirAt(nodes, i, cwd) == DirAt(nodes[j..], i - j, cwd')
  {
    if j + 1 < i {
      AbsoluteForgets(nodes, j, i - 1, cwd, cwd');
      assert nodes[j..][i - j - 1] == nodes[i - 1];
    } else {
      assert DirAt(nodes[j..], 0, cwd') == cwd';
    }
  }

  /**
   * The directory at a position: the starting one if there is no cd before it; the very name of the last cd if that
   * is absolute; and otherwise that name behind the directory at the cd, with one slash at least between them.
   */
  lemma DirIs(nodes: seq<Node>, i: nat, cwd: string)
    requires i <= |nodes| && cwd != ""
    ensures forall j: nat :: j <= i ==> DirAt(nodes, j, cwd) != ""
    ensures (forall m :: 0 <= m < i ==> !IsCd(nodes[m])) ==> DirAt(nodes, i, cwd) == cwd
    ensures forall j: nat :: LastCd(nodes, j, i) ==>
              var name, before, dir := nodes[j].dir.value, DirAt(nodes, j, cwd), DirAt(nodes, i, cwd);
              if Absolute(name) then dir == name
              else dir == if before[|before| - 1] == '/' then before + name else before + "/" + name
  {
    hide DirAt, Join;
    forall j: nat | j <= i
      ensures DirAt(nodes, j, cwd) != ""
    {
      NeverEmpty(nodes, j, cwd);
    }
    if forall m :: 0 <= m < i ==> !IsCd(nodes[m]) {
      NoCdNoChange(nodes, 0, i, cwd);
      DirAtNone(nodes, cwd);
    }
    forall j: nat | LastCd(nodes, j, i)
      ensures var name, before, dir := nodes[j].dir.value, DirAt(nodes, j, cwd), DirAt(nodes, i, cwd);
              if Absolute(name) then dir == name
              else dir == if before[|before| - 1] == '/' then before + name else before + "/" + name
    {
      NoCdNoChange(nodes, j + 1, i, cwd);
      DirBehindCd(nodes, j, cwd);
    }
  }

  lemma DirAtNone(nodes: seq<Node>, cwd: string)
    ensures DirAt(nodes, 0, cwd) == cwd
  {
  }

  lemma DirBehindCd(nodes: seq<Node>, j: nat, cwd: string)
    requires j < |nodes| && IsCd(nodes[j]) && DirAt(nodes, j, cwd) != ""
    ensures var name, before, dir := nodes[j].dir.value, DirAt(nodes, j, cwd), DirAt(nodes, j + 1, cwd);
            if Absolute(name) then dir == name
            else dir == if before[|before| - 1] == '/' then before + name else before + "/" + name
  {
  }

  // ----- How a run ends

  /**
   * A run that raises has come to a cd: to one that names no directory, which is a TypeError, or to one at the end,
   * which is an IndexError. By then it has started all commands before it.
   */
  lemma {:induction false} RaisedAt(nodes: seq<Node>, cwd: string, group: Group, codes: seq<int>, n: nat)
    returns (i: nat)
    requires WellFormed(nodes) && n + |group| + CommandCount(nodes) <= |codes|
    requires RunNodes(nodes, cwd, group, codes, n).1.Raised?
    ensures i < |nodes| && i % 2 == 0 && nodes[i].Chdir?
    ensures CommandCount(nodes[..i]) == |RunNodes(nodes, cwd, group, codes, n).0|
    ensures var error := RunNodes(nodes, cwd, group, codes, n).1.error;
            if i == |nodes| - 1 then error == IndexError else error == TypeError && nodes[i].dir == None
    decreases |nodes|
  {
    hide *;
    StartsWithNode(nodes);
    OneTurn(nodes, cwd, group, codes, n);
    if nodes[0].Chdir? && (|nodes| == 1 || nodes[0].dir == None) {
      i := 0;
      NoneBefore(nodes);
    } else {
      if nodes[0].Chdir? {
        i := RaisedAt(nodes[2..], Join(cwd, nodes[0].dir.value), group, codes, n);
      } else {
        var g := group + [Process(nodes[0], cwd, group != [])];
        if nodes[1].Pipe? {
          i := RaisedAt(nodes[2..], cwd, g, codes, n);
        } else {
          i := RaisedAt(nodes[2..], cwd, [], codes, n + |g|);
        }
      }
      OneNodeOn(nodes, i, cwd, group != []);
      i := i + 2;
    }
  }

  lemma NoneBefore(nodes: seq<Node>)
    ensures CommandCount(nodes[..0]) == 0
  {
  }

  /** Any other run ends with the exit code of the process it started last, and has started one. */
  lemma {:induction false} ExitsWithLast(nodes: seq<Node>, cwd: string, group: Group, codes: seq<int>, n: nat)
    requires WellFormed(nodes) && n + |group| + CommandCount(nodes) <= |codes|
    ensures var (started, outcome) := RunNodes(nodes, cwd, group, codes, n);
            && outcome != NoResult && n + |group| + |started| <= |codes|
            && (outcome.Exit? ==> started != [] && outcome.code == codes[n + |group| + |started| - 1])
    decreases |nodes|
  {
    hide *;
    StartsWithNode(nodes);
    OneTurn(nodes, cwd, group, codes, n);
    if nodes[0].Chdir? {
      if |nodes| > 1 && nodes[0].dir.Some? {
        ExitsWithLast(nodes[2..], Join(cwd, nodes[0].dir.value), group, codes, n);
      }
    } else {
      var g := group + [Process(nodes[0], cwd, group != [])];
      StatusIs(g, codes, n);
      if |nodes| > 1 {
        if nodes[1].Pipe? {
          ExitsWithLast(nodes[2..], cwd, g, codes, n);
        } else {
          ExitsWithLast(nodes[2..], cwd, [], codes, n + |g|);
        }
      }
    }
  }

  lemma StatusIs(g: Group, codes: seq<int>, n: nat)
    requires g != [] && n + |g| <= |codes|
    ensures Status(g, codes, n) == codes[n + |g| - 1]
  {
  }

  // ----- On the run

  /** Where run starts its k-th process, told from the nodes: see DirIs. */
  lemma RunStartsIn(nodes: seq<Node>, codes: seq<int>, k: nat) returns (i: nat)
    requires WellFormed(nodes) && CommandCount(nodes) <= |codes| && k < |RunNodes(nodes, ".", [], codes, 0).0|
    ensures i < |nodes| && nodes[i].Command? && CommandCount(nodes[..i]) == k
    ensures var p := RunNodes(nodes, ".", [], codes, 0).0[k];
            && p.cmd == nodes[i] && p.cwd != ""
            && ((forall m :: 0 <= m < i ==> !IsCd(nodes[m])) ==> p.cwd == ".")
            && forall j: nat :: LastCd(nodes, j, i) ==>
                 var name, before := nodes[j].dir.value, DirAt(nodes, j, ".");
                 before != "" &&
                 if Absolute(name) then p.cwd == name
                 else p.cwd == if before[|before| - 1] == '/' then before + name else before + "/" + name
  {
    hide *;
    i := StartedAt(nodes, ".", [], codes, 0, k);
    DirIs(nodes, i, ".");
    LastCdIs(nodes, i);
  }

  lemma LastCdIs(nodes: seq<Node>, i: nat)
    ensures forall j: nat :: LastCd(nodes, j, i) ==>
              j < i <= |nodes| && IsCd(nodes[j]) && nodes[j].Chdir? && nodes[j].dir.Some?
  {
  }

  /** Behind a cd to an absolute name, a process is started in the same directory wherever run itself was started. */
  lemma RunForgets(nodes: seq<Node>, cwd: string, cwd': string, codes: seq<int>, k: nat, i: nat, j: nat)
    requires WellFormed(nodes) && CommandCount(nodes) <= |codes|
    requires k < |RunNodes(nodes, cwd, [], codes, 0).0| && k < |RunNodes(nodes, cwd', [], codes, 0).0|
    requires i < |nodes| && nodes[i].Command? && CommandCount(nodes[..i]) == k
    requires j < i && IsCd(nodes[j]) && Absolute(nodes[j].dir.value)
    ensures RunNodes(nodes, cwd, [], codes, 0).0[k] == RunNodes(nodes, cwd', [], codes, 0).0[k]
  {
    hide *;
    var a := StartedAt(nodes, cwd, [], codes, 0, k);
    var b := StartedAt(nodes, cwd', [], codes, 0, k);
    OneCommandEach(nodes, a, i);
    OneCommandEach(nodes, b, i);
    AbsoluteForgets(nodes, j, i, cwd, cwd');
    AbsoluteForgets(nodes, j, i, cwd', cwd');
  }

  lemma {:induction false} CountGrows(nodes: seq<Node>, a: nat, b: nat)
    requires a <= b <= |nodes|
    ensures CommandCount(nodes[..a]) <= CommandCount(nodes[..b])
    ensures a < b && nodes[a].Command? ==> CommandCount(nodes[..a]) < CommandCount(nodes[..b])
    decreases |nodes|
  {
    if a > 0 {
      assert nodes[..a][1..] == nodes[1..][..a - 1] && nodes[..b][1..] == nodes[1..][..b - 1];
      CountGrows(nodes[1..], a - 1, b - 1);
    } else {
      assert CommandCount(nodes[..0]) == 0;
    }
  }

  lemma OneCommandEach(nodes: seq<Node>, a: nat, b: nat)
    requires a < |nodes| && b < |nodes| && nodes[a].Command? && nodes[b].Command?
    requires CommandCount(nodes[..a]) == CommandCount(nodes[..b])
    ensures a == b
  {
    hide CommandCount;
    if a < b {
      CountGrows(nodes, a, b);
    } else if b < a {
      CountGrows(nodes, b, a);
    }
  }
}
