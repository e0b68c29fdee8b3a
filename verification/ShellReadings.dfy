/** The operators that join the groups of a parsed pipeline, and those of its plan. */
module ShellReadings {
  import opened ShellParse
  import opened ShellRun
  import opened ShellMeaning

  // ----- The operators between groups, among the nodes

  /** The node at i joins groups: And or Or behind a command. An And behind a cd belongs to the cd. */
  predicate JoinsGroups(nodes: seq<Node>, i: nat) {
    0 < i < |nodes| && nodes[i - 1].Command? && (nodes[i].And? || nodes[i].Or?)
  }

  ghost predicate AmongNodes(nodes: seq<Node>, op: Node) {
    exists i: nat :: JoinsGroups(nodes, i) && nodes[i] == op
  }

  ghost predicate AmongGroups(rest: seq<(Node, Group)>, op: Node) {
    exists i :: 0 <= i < |rest| && rest[i].0 == op
  }

  /** All operators that join groups are the same. */
  ghost predicate OneKind(nodes: seq<Node>) {
    forall i: nat, j: nat :: JoinsGroups(nodes, i) && JoinsGroups(nodes, j) ==> nodes[i] == nodes[j]
  }

  lemma JoinsInTail(nodes: seq<Node>, op: Node)
    requires |nodes| >= 2 && !nodes[1].Command?
    ensures AmongNodes(nodes, op) <==> (JoinsGroups(nodes, 1) && nodes[1] == op) || AmongNodes(nodes[2..], op)
  {
    var tail := nodes[2..];
    if AmongNodes(nodes, op) {
      var i: nat :| JoinsGroups(nodes, i) && nodes[i] == op;
      if i > 1 { assert JoinsGroups(tail, i - 2) && tail[i - 2] == op; }
    }
    if AmongNodes(tail, op) {
      var i: nat :| JoinsGroups(tail, i) && tail[i] == op;
      assert JoinsGroups(nodes, i + 2) && nodes[i + 2] == op;
    }
  }

  lemma FirstAmongGroups(first: Node, g: Group, rest: seq<(Node, Group)>, op: Node)
    ensures AmongGroups([(first, g)] + rest, op) <==> first == op || AmongGroups(rest, op)
  {
    var all := [(first, g)] + rest;
    assert all[0].0 == first;
    if AmongGroups(rest, op) {
      var i :| 0 <= i < |rest| && rest[i].0 == op;
      assert all[i + 1].0 == op;
    }
    if AmongGroups(all, op) && first != op {
      var i :| 0 <= i < |all| && all[i].0 == op;
      assert rest[i - 1].0 == op;
    }
  }

  /** The plan's operators are those among the nodes. */
  lemma {:induction false} SameOperators(nodes: seq<Node>, cwd: string, group: Group, op: Node)
    requires WellFormed(nodes) && PlanOf(nodes, cwd, group).Some?
    ensures AmongGroups(PlanOf(nodes, cwd, group).value.rest, op) <==> AmongNodes(nodes, op)
    decreases |nodes|
  {
    StartsWithNode(nodes);
    PlanTurn(nodes, cwd, group);
    if |nodes| >= 2 {
      WellFormedTail(nodes);
      hide PlanOf, WellFormed, AmongNodes, AmongGroups;
      JoinsInTail(nodes, op);
      if nodes[0].Chdir? {
        SameOperators(nodes[2..], Join(cwd, nodes[0].dir.value), group, op);
      } else if nodes[1].Pipe? {
        SameOperators(nodes[2..], cwd, group + [Process(nodes[0], cwd, group != [])], op);
      } else {
        SameOperators(nodes[2..], cwd, [], op);
        var q := PlanOf(nodes[2..], cwd, []).value;
        FirstAmongGroups(nodes[1], q.first, q.rest, op);
      }
    }
  }

  lemma UniformIffOneKind(nodes: seq<Node>, cwd: string)
    requires WellFormed(nodes) && PlanOf(nodes, cwd, []).Some?
    ensures Uniform(PlanOf(nodes, cwd, []).value.rest) <==> OneKind(nodes)
  {
    hide PlanOf, WellFormed;
    var rest := PlanOf(nodes, cwd, []).value.rest;
    forall op ensures AmongGroups(rest, op) <==> AmongNodes(nodes, op) {
      SameOperators(nodes, cwd, [], op);
    }
    if Uniform(rest) {
      forall i: nat, j: nat | JoinsGroups(nodes, i) && JoinsGroups(nodes, j)
        ensures nodes[i] == nodes[j]
      {
        assert AmongNodes(nodes, nodes[i]) && AmongNodes(nodes, nodes[j]);
      }
    }
    if OneKind(nodes) {
      forall i | 0 <= i < |rest|
        ensures rest[i].0 == rest[0].0
      {
        assert AmongGroups(rest, rest[i].0) && AmongGroups(rest, rest[0].0);
      }
    }
  }
}
