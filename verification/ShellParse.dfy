/** waf-tools/shellcmd.py, Pipeline.parse: from shell-like tokens to a list of commands and operators. */
module ShellParse {
  import opened Wrappers

  type EnvVars = seq<(string, string)>

  /** Where an output stream goes; nowhere special if Inherited. */
  datatype Target = Inherited | ToPipe | ToStdout | ToFile(file: string)

  datatype Node =
    | Command(name: string, argv: seq<string>, stdin: Option<string>, stdout: Target, stderr: Target, envVars: EnvVars)
    | Chdir(dir: Option<string>)
    | Pipe | And | Or

  function NewCommand(name: string, envVars: EnvVars): Node {
    Command(name, [name], None, Inherited, Inherited, envVars)
  }

  // ----- Assignments such as CXX=clang

  predicate IsWordChar(c: char) {
    'a' <= c <= 'z' || 'A' <= c <= 'Z' || '0' <= c <= '9' || c == '_'
  }

  /** What Python's \s matches in a string. */
  predicate IsSpace(c: char) {
    || '\U{9}' <= c <= '\U{d}' || '\U{1c}' <= c <= '\U{20}' || c == '\U{85}' || c == '\U{a0}' || c == '\U{1680}'
    || '\U{2000}' <= c <= '\U{200a}' || c == '\U{2028}' || c == '\U{2029}' || c == '\U{202f}' || c == '\U{205f}'
    || c == '\U{3000}'
  }

  predicate IsVarName(s: string) {
    s != "" && forall c :: c in s ==> IsWordChar(c)
  }

  predicate IsVarValue(s: string) {
    s != "" && forall c :: c in s ==> !IsSpace(c)
  }

  /** The length of the longest prefix of word characters. */
  function WordLength(s: string): (n: nat)
    ensures n <= |s| && (forall c :: c in s[..n] ==> IsWordChar(c)) && (n < |s| ==> !IsWordChar(s[n]))
  {
    if s == "" || !IsWordChar(s[0]) then 0
    else
      assert s == [s[0]] + s[1..];
      var n := WordLength(s[1..]);
      assert s[..n + 1] == [s[0]] + s[1..][..n];
      n + 1
  }

  /** A match of the assignment pattern: name, "=", value without white space, and perhaps one line end. */
  function Assignment(token: string): Option<(string, string)> {
    var n := WordLength(token);
    if n == 0 || n == |token| || token[n] != '=' then None
    else
      var rest := token[n + 1..];
      var value := if rest != "" && rest[|rest| - 1] == '\n' then rest[..|rest| - 1] else rest;
      if IsVarValue(value) then Some((token[..n], value)) else None
  }

  lemma AssignmentOfRendered(name: string, value: string)
    requires IsVarName(name) && IsVarValue(value)
    ensures Assignment(name + "=" + value) == Some((name, value))
  {
    var token := name + "=" + value;
    var n := WordLength(token);
    assert token[|name|] == '=';
    assert forall i :: 0 <= i < |name| ==> token[i] in name;
    assert forall i :: 0 <= i < n ==> token[i] in token[..n];
    assert n == |name|;
    assert token[..n] == name && token[n + 1..] == value;
    assert value[|value| - 1] in value;
  }

  lemma AssignmentIsWellFormed(token: string)
    requires Assignment(token).Some?
    ensures IsVarName(Assignment(token).value.0) && IsVarValue(Assignment(token).value.1)
  {
  }

  predicate DistinctNames(env: EnvVars) {
    forall i, j :: 0 <= i < j < |env| ==> env[i].0 != env[j].0
  }

  /** Setting a dictionary entry: in place if the name is there, otherwise at the end. */
  function SetVar(env: EnvVars, name: string, value: string): (r: EnvVars)
    ensures (forall e :: e in env ==> e.0 != name) ==> r == env + [(name, value)]
    ensures forall e :: e in r ==> e == (name, value) || e in env
    ensures DistinctNames(env) ==> DistinctNames(r)
    decreases |env|
  {
    if env == [] then [(name, value)]
    else if env[0].0 == name then [(name, value)] + env[1..]
    else
      var r := SetVar(env[1..], name, value);
      assert DistinctNames(env) ==> forall e :: e in env[1..] ==> e.0 != env[0].0;
      [env[0]] + r
  }

  // ----- The token machine

  datatype Mode = Begin | InCommand | InChdir | InStderr | InStdout | InStdin

  datatype Parser = Parser(mode: Mode, current: Option<Node>, pipeline: seq<Node>, envVars: EnvVars)

  /** Every failure of the parser is a failed assertion. */
  datatype ParseError = AssertionError

  type Parsed = Result<Parser, ParseError>

  const START := Parser(Begin, None, [], [])

  predicate IsOperator(token: string) {
    token in {">", "2>", "2>&1", "<", "|", "&&", "||"}
  }

  /** _commit_command, followed by the operator that ended the command. */
  function Commit(p: Parser, node: Node, op: Node): Parser {
    Parser(Begin, None, p.pipeline + [node, op], p.envVars)
  }

  function Accept(p: Parser, token: string): Parsed {
    match p.mode
    case Begin => AcceptBegin(p, token)
    case InCommand =>
      if p.current.Some? && p.current.value.Command? then AcceptInCommand(p, p.current.value, token)
      else Err(AssertionError)
    case InChdir =>
      if p.current.Some? && p.current.value.Chdir? then AcceptInChdir(p, p.current.value, token)
      else Err(AssertionError)
    case _ =>
      if p.current.Some? && p.current.value.Command? then AcceptFile(p, p.current.value, token)
      else Err(AssertionError)
  }

  function AcceptBegin(p: Parser, token: string): Parsed {
    match Assignment(token)
    case Some((name, value)) => Ok(p.(envVars := SetVar(p.envVars, name, value)))
    case None =>
      if p.current.Some? then Err(AssertionError)
      else if token == "cd" then
        if p.envVars != [] then Err(AssertionError) else Ok(p.(current := Some(Chdir(None)), mode := InChdir))
      else Ok(Parser(InCommand, Some(NewCommand(token, p.envVars)), p.pipeline, []))
  }

  function AcceptInCommand(p: Parser, cmd: Node, token: string): Parsed
    requires cmd.Command?
  {
    if token == ">" then Ok(p.(mode := InStdout))
    else if token == "2>" then Ok(p.(mode := InStderr))
    else if token == "2>&1" then
      if cmd.stderr != Inherited then Err(AssertionError) else Ok(p.(current := Some(cmd.(stderr := ToStdout))))
    else if token == "<" then Ok(p.(mode := InStdin))
    else if token == "|" then
      if cmd.stdout != Inherited then Err(AssertionError) else Ok(Commit(p, cmd.(stdout := ToPipe), Pipe))
    else if token == "&&" then Ok(Commit(p, cmd, And))
    else if token == "||" then Ok(Commit(p, cmd, Or))
    else Ok(p.(current := Some(cmd.(argv := cmd.argv + [token]))))
  }

  function AcceptInChdir(p: Parser, cd: Node, token: string): Parsed
    requires cd.Chdir?
  {
    if token == "&&" then Ok(Commit(p, cd, And))
    else if cd.dir != None then Err(AssertionError)
    else Ok(p.(current := Some(Chdir(Some(token)))))
  }

  /** Any token at all is taken for the file name a redirection was waiting for. */
  function AcceptFile(p: Parser, cmd: Node, token: string): Parsed
    requires cmd.Command?
  {
    if p.mode == InStdout then
      if cmd.stdout != Inherited then Err(AssertionError)
      else Ok(p.(current := Some(cmd.(stdout := ToFile(token))), mode := InCommand))
    else if p.mode == InStderr then
      if cmd.stderr != Inherited then Err(AssertionError)
      else Ok(p.(current := Some(cmd.(stderr := ToFile(token))), mode := InCommand))
    else
      if cmd.stdin != None then Err(AssertionError)
      else Ok(p.(current := Some(cmd.(stdin := Some(token))), mode := InCommand))
  }

  function Feed(p: Parser, tokens: seq<string>): Parsed {
    if tokens == [] then Ok(p)
    else
      match Feed(p, tokens[..|tokens| - 1])
      case Err(e) => Err(e)
      case Ok(q) => Accept(q, tokens[|tokens| - 1])
  }

  function Finish(p: Parser): Result<seq<Node>, ParseError> {
    if p.current == None then Err(AssertionError) else Ok(p.pipeline + [p.current.value])
  }

  function ParseOf(tokens: seq<string>): Result<seq<Node>, ParseError> {
    match Feed(START, tokens)
    case Err(e) => Err(e)
    case Ok(p) => Finish(p)
  }

  method Parse(tokens: seq<string>) returns (r: Result<seq<Node>, ParseError>)
    ensures r == ParseOf(tokens)
  {
    var p := START;
    for i := 0 to |tokens|
      invariant Feed(START, tokens[..i]) == Ok(p)
    {
      assert tokens[..i + 1][..i] == tokens[..i];
      var next := Accept(p, tokens[i]);
      if next.Err? {
        FeedFails(START, tokens, i + 1);
        return Err(next.error);
      }
      p := next.value;
    }
    assert tokens[..|tokens|] == tokens;
    r := Finish(p);
  }

  lemma {:induction false} FeedFails(p: Parser, tokens: seq<string>, n: nat)
    requires n <= |tokens| && Feed(p, tokens[..n]).Err?
    ensures Feed(p, tokens) == Feed(p, tokens[..n])
  {
    if n == |tokens| {
      assert tokens[..n] == tokens;
    } else {
      assert tokens[..|tokens| - 1][..n] == tokens[..n];
      FeedFails(p, tokens[..|tokens| - 1], n);
    }
  }

  // ----- Which pipelines can come out

  predicate IsOp(n: Node) {
    n.Pipe? || n.And? || n.Or?
  }

  predicate EnvOk(env: EnvVars) {
    DistinctNames(env) && forall e :: e in env ==> IsVarName(e.0) && IsVarValue(e.1)
  }

  predicate CommandOk(n: Node)
    requires n.Command?
  {
    && n.name != "cd" && Assignment(n.name) == None
    && n.argv != [] && n.argv[0] == n.name
    && (forall a :: a in n.argv[1..] ==> !IsOperator(a))
    && !n.stdout.ToStdout? && !n.stderr.ToPipe? && EnvOk(n.envVars)
  }

  predicate NodeOk(n: Node) {
    match n
    case Command(_, _, _, _, _, _) => CommandOk(n)
    case Chdir(dir) => dir != Some("&&")
    case _ => false
  }

  /** A command's output is piped iff a pipe follows it; a change of directory is followed by And. */
  predicate Joint(n: Node, op: Node) {
    && IsOp(op)
    && (n.Command? ==> (n.stdout.ToPipe? <==> op.Pipe?))
    && (n.Chdir? ==> op.And?)
  }

  /** Nodes and operators in turn, so far ending in an operator. */
  predicate Alternates(nodes: seq<Node>) {
    && |nodes| % 2 == 0
    && forall i :: 0 <= i < |nodes| && i % 2 == 0 ==> NodeOk(nodes[i]) && Joint(nodes[i], nodes[i + 1])
  }

  predicate WellFormed(nodes: seq<Node>) {
    && nodes != [] && Alternates(nodes[..|nodes| - 1])
    && var last := nodes[|nodes| - 1];
       NodeOk(last) && (last.Command? ==> !last.stdout.ToPipe?)
  }

  /** What the machine keeps: what is committed is in order, and so is what it is working on. */
  predicate ParserOk(p: Parser) {
    && Alternates(p.pipeline) && EnvOk(p.envVars)
    && match p.mode
       case Begin => p.current == None
       case InChdir => p.envVars == [] && p.current.Some? && p.current.value.Chdir? && NodeOk(p.current.value)
       case _ => p.envVars == [] && p.current.Some? && p.current.value.Command? && CommandOk(p.current.value)
                 && !p.current.value.stdout.ToPipe?
  }

  lemma CommitKeeps(pipeline: seq<Node>, n: Node, op: Node)
    requires Alternates(pipeline) && NodeOk(n) && Joint(n, op)
    ensures Alternates(pipeline + [n, op])
  {
    hide NodeOk, Joint;
  }

  lemma NoVars()
    ensures EnvOk([])
  {
  }

  lemma AcceptKeeps(p: Parser, token: string)
    requires ParserOk(p) && Accept(p, token).Ok?
    ensures ParserOk(Accept(p, token).value)
  {
    hide Alternates, Assignment, IsVarName, IsVarValue, DistinctNames;
    if p.mode == Begin {
      if Assignment(token).Some? {
        AssignmentIsWellFormed(token);
      } else {
        NoVars();
        assert [token][1..] == [];
      }
    } else {
      var n := p.current.value;
      if n.Command? && !n.stdout.ToPipe? {
        CommitKeeps(p.pipeline, n, And);
        CommitKeeps(p.pipeline, n, Or);
        CommitKeeps(p.pipeline, n.(stdout := ToPipe), Pipe);
      }
      if n.Chdir? {
        CommitKeeps(p.pipeline, n, And);
      }
    }
  }

  lemma {:induction false} FeedKeeps(tokens: seq<string>)
    requires Feed(START, tokens).Ok?
    ensures ParserOk(Feed(START, tokens).value)
  {
    if tokens != [] {
      FeedKeeps(tokens[..|tokens| - 1]);
      AcceptKeeps(Feed(START, tokens[..|tokens| - 1]).value, tokens[|tokens| - 1]);
    }
  }

  /** Everything the parser accepts is well formed. */
  lemma ParsedIsWellFormed(tokens: seq<string>)
    requires ParseOf(tokens).Ok?
    ensures WellFormed(ParseOf(tokens).value)
  {
    FeedKeeps(tokens);
    var p := Feed(START, tokens).value;
    assert (p.pipeline + [p.current.value])[..|p.pipeline|] == p.pipeline;
  }
}
