/** Printing a pipeline as tokens, and parsing as its inverse. */
module ShellRender {
  import opened Wrappers
  import opened ShellParse

  function RenderEnv(env: EnvVars): seq<string> {
    if env == [] then []
    else
      var n := |env| - 1;
      RenderEnv(env[..n]) + [env[n].0 + "=" + env[n].1]
  }

  function RenderStdin(stdin: Option<string>): seq<string> {
    match stdin
    case None => []
    case Some(file) => ["<", file]
  }

  /** A pipe is printed as the operator that follows the command. */
  function RenderStdout(stdout: Target): seq<string> {
    match stdout
    case ToFile(file) => [">", file]
    case _ => []
  }

  function RenderStderr(stderr: Target): seq<string> {
    match stderr
    case ToFile(file) => ["2>", file]
    case ToStdout => ["2>&1"]
    case _ => []
  }

  function Render(n: Node): seq<string> {
    match n
    case Command(_, argv, stdin, stdout, stderr, env) =>
      RenderEnv(env) + argv + RenderStdin(stdin) + RenderStdout(stdout) + RenderStderr(stderr)
    case Chdir(dir) => ["cd"] + if dir.Some? then [dir.value] else []
    case Pipe => ["|"]
    case And => ["&&"]
    case Or => ["||"]
  }

  function RenderAll(nodes: seq<Node>): seq<string> {
    if nodes == [] then [] else RenderAll(nodes[..|nodes| - 1]) + Render(nodes[|nodes| - 1])
  }

  // ----- Feeding what was printed

  function Then(r: Parsed, tokens: seq<string>): Parsed {
    match r
    case Err(e) => Err(e)
    case Ok(p) => Feed(p, tokens)
  }

  lemma {:induction false} FeedConcat(p: Parser, a: seq<string>, b: seq<string>)
    ensures Feed(p, a + b) == Then(Feed(p, a), b)
  {
    hide Accept;
    if b == [] {
      assert a + b == a;
    } else {
      var n := |b| - 1;
      FeedConcat(p, a, b[..n]);
      assert (a + b)[..|a| + n] == a + b[..n];
    }
  }

  lemma FeedOne(p: Parser, token: string)
    ensures Feed(p, [token]) == Accept(p, token)
  {
    assert Feed(p, [token][..0]) == Ok(p);
  }

  lemma FeedTwo(p: Parser, a: string, b: string)
    ensures Accept(p, a).Ok? ==> Feed(p, [a, b]) == Accept(Accept(p, a).value, b)
  {
    FeedConcat(p, [a], [b]);
    FeedOne(p, a);
    if Accept(p, a).Ok? { FeedOne(Accept(p, a).value, b); }
  }

  function Idle(pipeline: seq<Node>, env: EnvVars): Parser {
    Parser(Begin, None, pipeline, env)
  }

  function Busy(pipeline: seq<Node>, n: Node): Parser {
    Parser(if n.Chdir? then InChdir else InCommand, Some(n), pipeline, [])
  }

  lemma {:induction false} FeedEnv(pipeline: seq<Node>, env: EnvVars)
    requires EnvOk(env)
    ensures Feed(Idle(pipeline, []), RenderEnv(env)) == Ok(Idle(pipeline, env))
  {
    hide Assignment;
    if env != [] {
      var n := |env| - 1;
      var (name, value) := env[n];
      assert env[n] in env && env == env[..n] + [(name, value)];
      FeedEnv(pipeline, env[..n]);
      AssignmentOfRendered(name, value);
      FeedConcat(Idle(pipeline, []), RenderEnv(env[..n]), [name + "=" + value]);
      FeedOne(Idle(pipeline, env[..n]), name + "=" + value);
    }
  }

  lemma {:induction false} FeedArgs(pipeline: seq<Node>, cmd: Node, args: seq<string>)
    requires cmd.Command? && forall a :: a in args ==> !IsOperator(a)
    ensures Feed(Busy(pipeline, cmd), args) == Ok(Busy(pipeline, cmd.(argv := cmd.argv + args)))
  {
    if args == [] {
      assert cmd.argv + args == cmd.argv;
    } else {
      var n := |args| - 1;
      FeedArgs(pipeline, cmd, args[..n]);
      assert args[n] in args;
      assert cmd.argv + args[..n] + [args[n]] == cmd.argv + args;
    }
  }

  /** The redirections of a command, fed to the machine while it holds the command without them. */
  lemma FeedRedirections(pipeline: seq<Node>, cmd: Node)
    requires cmd.Command? && !cmd.stdout.ToStdout? && !cmd.stderr.ToPipe? && !cmd.stdout.ToPipe?
    ensures Feed(Busy(pipeline, cmd.(stdin := None, stdout := Inherited, stderr := Inherited)),
                 RenderStdin(cmd.stdin) + RenderStdout(cmd.stdout) + RenderStderr(cmd.stderr))
            == Ok(Busy(pipeline, cmd))
  {
    var bare := cmd.(stdin := None, stdout := Inherited, stderr := Inherited);
    var c1, c2 := bare.(stdin := cmd.stdin), bare.(stdin := cmd.stdin, stdout := cmd.stdout);
    assert Feed(Busy(pipeline, bare), RenderStdin(cmd.stdin)) == Ok(Busy(pipeline, c1)) by {
      if cmd.stdin.Some? { FeedTwo(Busy(pipeline, bare), "<", cmd.stdin.value); }
    }
    assert Feed(Busy(pipeline, c1), RenderStdout(cmd.stdout)) == Ok(Busy(pipeline, c2)) by {
      if cmd.stdout.ToFile? { FeedTwo(Busy(pipeline, c1), ">", cmd.stdout.file); }
    }
    assert Feed(Busy(pipeline, c2), RenderStderr(cmd.stderr)) == Ok(Busy(pipeline, cmd)) by {
      if cmd.stderr.ToFile? { FeedTwo(Busy(pipeline, c2), "2>", cmd.stderr.file); }
      if cmd.stderr.ToStdout? { FeedOne(Busy(pipeline, c2), "2>&1"); }
    }
    FeedConcat(Busy(pipeline, bare), RenderStdin(cmd.stdin) + RenderStdout(cmd.stdout), RenderStderr(cmd.stderr));
    FeedConcat(Busy(pipeline, bare), RenderStdin(cmd.stdin), RenderStdout(cmd.stdout));
  }

  /** A piped command is printed, and held by the machine until the pipe comes, as if not piped. */
  function Unpiped(n: Node): Node {
    if n.Command? && n.stdout.ToPipe? then n.(stdout := Inherited) else n
  }

  lemma FeedCommand(pipeline: seq<Node>, n: Node)
    requires n.Command? && CommandOk(n)
    ensures Feed(Idle(pipeline, []), Render(n)) == Ok(Busy(pipeline, Unpiped(n)))
  {
    hide Feed, RenderEnv, RenderStdin, RenderStdout, RenderStderr, EnvOk, Assignment;
    var redirections := RenderStdin(n.stdin) + RenderStdout(n.stdout) + RenderStderr(n.stderr);
    var cmd := NewCommand(n.name, n.envVars);
    assert n.argv == [n.name] + n.argv[1..];
    assert Render(n) == RenderEnv(n.envVars) + ([n.name] + (n.argv[1..] + redirections));
    FeedEnv(pipeline, n.envVars);
    FeedOne(Idle(pipeline, n.envVars), n.name);
    FeedArgs(pipeline, cmd, n.argv[1..]);
    assert RenderStdout(Unpiped(n).stdout) == RenderStdout(n.stdout) by { UnpipedPrintsSame(n); }
    FeedRedirections(pipeline, Unpiped(n));
    FeedConcat(Idle(pipeline, []), RenderEnv(n.envVars), [n.name] + (n.argv[1..] + redirections));
    FeedConcat(Idle(pipeline, n.envVars), [n.name], n.argv[1..] + redirections);
    FeedConcat(Busy(pipeline, cmd), n.argv[1..], redirections);
  }

  lemma UnpipedPrintsSame(n: Node)
    requires n.Command?
    ensures RenderStdout(Unpiped(n).stdout) == RenderStdout(n.stdout)
  {
  }

  lemma FeedNode(pipeline: seq<Node>, n: Node)
    requires NodeOk(n)
    ensures Feed(Idle(pipeline, []), Render(n)) == Ok(Busy(pipeline, Unpiped(n)))
  {
    if n.Command? {
      hide Feed, Render, CommandOk;
      FeedCommand(pipeline, n);
    } else {
      hide Feed;
      assert Assignment("cd") == None;
      FeedOne(Idle(pipeline, []), "cd");
      if n.dir.Some? {
        FeedTwo(Idle(pipeline, []), "cd", n.dir.value);
        assert Render(n) == ["cd", n.dir.value];
      } else {
        assert Render(n) == ["cd"];
      }
    }
  }

  lemma FeedJoint(pipeline: seq<Node>, n: Node, op: Node)
    requires NodeOk(n) && Joint(n, op)
    ensures Feed(Idle(pipeline, []), Render(n) + Render(op)) == Ok(Idle(pipeline + [n, op], []))
  {
    FeedNode(pipeline, n);
    FeedConcat(Idle(pipeline, []), Render(n), Render(op));
    FeedOne(Busy(pipeline, Unpiped(n)), Render(op)[0]);
  }

  lemma AlternatesFront(nodes: seq<Node>)
    requires Alternates(nodes) && nodes != []
    ensures |nodes| >= 2 && Alternates(nodes[..|nodes| - 2])
    ensures NodeOk(nodes[|nodes| - 2]) && Joint(nodes[|nodes| - 2], nodes[|nodes| - 1])
  {
    hide NodeOk, Joint;
    var before := nodes[..|nodes| - 2];
    forall i | 0 <= i < |before| && i % 2 == 0
      ensures NodeOk(before[i]) && Joint(before[i], before[i + 1])
    {
      assert before[i] == nodes[i] && before[i + 1] == nodes[i + 1];
    }
  }

  lemma RenderAllTwo(before: seq<Node>, n: Node, op: Node)
    ensures RenderAll(before + [n, op]) == RenderAll(before) + (Render(n) + Render(op))
  {
    hide Render;
    var nodes := before + [n, op];
    assert nodes[..|nodes| - 1] == before + [n] && (before + [n])[..|before|] == before;
    assert RenderAll(before + [n]) == RenderAll(before) + Render(n);
  }

  lemma {:induction false} FeedAlternating(nodes: seq<Node>)
    requires Alternates(nodes)
    ensures Feed(START, RenderAll(nodes)) == Ok(Idle(nodes, []))
  {
    hide Feed, Render, RenderAll, Alternates, NodeOk, Joint;
    if nodes != [] {
      AlternatesFront(nodes);
      var m := |nodes| - 2;
      assert nodes == nodes[..m] + [nodes[m], nodes[m + 1]];
      RenderAllTwo(nodes[..m], nodes[m], nodes[m + 1]);
      FeedAlternating(nodes[..m]);
      FeedConcat(START, RenderAll(nodes[..m]), Render(nodes[m]) + Render(nodes[m + 1]));
      FeedJoint(nodes[..m], nodes[m], nodes[m + 1]);
    } else {
      FeedNothing();
    }
  }

  lemma FeedNothing()
    ensures RenderAll([]) == [] && Feed(START, []) == Ok(START)
  {
  }

  /** Parsing undoes printing, on every well-formed pipeline. */
  lemma ParseUndoesRender(nodes: seq<Node>)
    requires WellFormed(nodes)
    ensures ParseOf(RenderAll(nodes)) == Ok(nodes)
  {
    hide Feed, Render, NodeOk, Alternates;
    var before, last := nodes[..|nodes| - 1], nodes[|nodes| - 1];
    FeedAlternating(before);
    FeedNode(before, last);
    FeedConcat(START, RenderAll(before), Render(last));
    assert nodes == before + [last];
  }

  /** The well-formed pipelines are exactly those the parser can produce. */
  lemma WellFormedIffParsed(nodes: seq<Node>)
    ensures WellFormed(nodes) <==> exists tokens :: ParseOf(tokens) == Ok(nodes)
  {
    if WellFormed(nodes) {
      ParseUndoesRender(nodes);
    }
    if tokens :| ParseOf(tokens) == Ok(nodes) {
      ParsedIsWellFormed(tokens);
    }
  }
}
