/** waf-tools/shellcmd.py: which tokens Pipeline.parse takes for one command, in any order of its parts. */
module ShellGrammar {
  import opened Wrappers
  import opened ShellParse
  import opened ShellRender

  // ----- The assignment pattern

  /** Which tokens are assignments: a name, a sign, a value without white space, and perhaps a line end. */
  lemma AssignmentIff(token: string, name: string, value: string)
    ensures Assignment(token) == Some((name, value)) <==>
            && IsVarName(name) && IsVarValue(value)
            && (token == name + "=" + value || token == name + "=" + value + "\n")
  {
    if Assignment(token) == Some((name, value)) {
      var n := WordLength(token);
      assert token == token[..n] + "=" + token[n + 1..];
      if token[|token| - 1] == '\n' { assert token[n + 1..] == value + "\n"; }
    }
    if IsVarName(name) && IsVarValue(value) {
      AssignmentOfRendered(name, value);
      AssignmentOfEnded(name, value);
    }
  }

  lemma AssignmentOfEnded(name: string, value: string)
    requires IsVarName(name) && IsVarValue(value)
    ensures Assignment(name + "=" + value + "\n") == Some((name, value))
  {
    var token := name + "=" + value + "\n";
    var n := WordLength(token);
    assert token[|name|] == '=';
    assert forall i :: 0 <= i < |name| ==> token[i] in name;
    assert forall i :: 0 <= i < n ==> token[i] in token[..n];
    assert n == |name|;
    assert token[..n] == name && token[n + 1..] == value + "\n";
    assert (value + "\n")[..|value|] == value;
  }

  /** Setting a variable again changes it where it stands. */
  lemma {:induction false} SetVarInPlace(env: EnvVars, i: nat, name: string, value: string)
    requires i < |env| && env[i].0 == name && forall j :: 0 <= j < i ==> env[j].0 != name
    ensures SetVar(env, name, value) == env[i := (name, value)]
    decreases |env|
  {
    if i > 0 { SetVarInPlace(env[1..], i - 1, name, value); }
  }

  /** The last of these assignments to the variable gives it this value. */
  ghost predicate GivenLast(vars: EnvVars, name: string, value: string) {
    exists k :: 0 <= k < |vars| && vars[k] == (name, value) && forall m :: k < m < |vars| ==> vars[m].0 != name
  }

  /** Each variable once, with the value that it was given last. */
  ghost predicate Settled(vars: EnvVars, env: EnvVars) {
    DistinctNames(env) && forall name, value :: (name, value) in env <==> GivenLast(vars, name, value)
  }

  lemma GivenLastMore(vars: EnvVars, name: string, value: string, n: string, v: string)
    ensures GivenLast(vars + [(name, value)], n, v) <==> if n == name then v == value else GivenLast(vars, n, v)
  {
    var all := vars + [(name, value)];
    assert all[|vars|] == (name, value);
    if n != name && GivenLast(vars, n, v) {
      var k :| 0 <= k < |vars| && vars[k] == (n, v) && forall m :: k < m < |vars| ==> vars[m].0 != n;
      assert all[k] == (n, v);
    }
    if n != name && GivenLast(all, n, v) {
      var k :| 0 <= k < |all| && all[k] == (n, v) && forall m :: k < m < |all| ==> all[m].0 != n;
      assert vars[k] == (n, v);
      assert forall m :: k < m < |vars| ==> all[m] == vars[m];
    }
  }

  lemma {:induction false} SetVarHolds(env: EnvVars, name: string, value: string, n: string, v: string)
    requires DistinctNames(env)
    ensures (n, v) in SetVar(env, name, value) <==> if n == name then v == value else (n, v) in env
    decreases |env|
  {
    if env != [] {
      assert env == [env[0]] + env[1..];
      SetVarHolds(env[1..], name, value, n, v);
    }
  }

  lemma SettledMore(vars: EnvVars, env: EnvVars, name: string, value: string)
    requires Settled(vars, env)
    ensures Settled(vars + [(name, value)], SetVar(env, name, value))
  {
    hide GivenLast, DistinctNames;
    forall n, v
      ensures (n, v) in SetVar(env, name, value) <==> GivenLast(vars + [(name, value)], n, v)
    {
      SetVarHolds(env, name, value, n, v);
      GivenLastMore(vars, name, value, n, v);
    }
  }

  /** These tokens are assignments of these variables, one each. */
  predicate Assigns(tokens: seq<string>, vars: EnvVars) {
    |tokens| == |vars| && forall k :: 0 <= k < |tokens| ==> Assignment(tokens[k]) == Some(vars[k])
  }

  lemma FeedAssignment(pipeline: seq<Node>, env: EnvVars, tokens: seq<string>, name: string, value: string)
    requires tokens != [] && Assignment(tokens[|tokens| - 1]) == Some((name, value))
    requires Feed(Idle(pipeline, []), tokens[..|tokens| - 1]) == Ok(Idle(pipeline, env))
    ensures Feed(Idle(pipeline, []), tokens) == Ok(Idle(pipeline, SetVar(env, name, value)))
  {
    hide Assignment, SetVar;
  }

  lemma AssignsMore(tokens: seq<string>, vars: EnvVars)
    requires Assigns(tokens, vars) && tokens != []
    ensures var n := |tokens| - 1;
            |vars| == n + 1 && Assigns(tokens[..n], vars[..n]) && Assignment(tokens[n]) == Some(vars[n])
  {
    hide Assignment;
  }

  /** Of repeated assignments the last counts. */
  lemma {:induction false} FeedAssignments(pipeline: seq<Node>, tokens: seq<string>, vars: EnvVars)
    returns (env: EnvVars)
    requires Assigns(tokens, vars)
    ensures Settled(vars, env) && Feed(Idle(pipeline, []), tokens) == Ok(Idle(pipeline, env))
  {
    hide *;
    if tokens == [] {
      env := [];
      NothingAssigned(pipeline, vars);
    } else {
      AssignsMore(tokens, vars);
      var n := |tokens| - 1;
      var before := FeedAssignments(pipeline, tokens[..n], vars[..n]);
      var (name, value) := vars[n];
      SettledMore(vars[..n], before, name, value);
      FeedAssignment(pipeline, before, tokens, name, value);
      env := SetVar(before, name, value);
      assert vars == vars[..n] + [(name, value)];
    }
  }

  lemma NothingAssigned(pipeline: seq<Node>, vars: EnvVars)
    requires Assigns([], vars)
    ensures Settled(vars, []) && Feed(Idle(pipeline, []), []) == Ok(Idle(pipeline, []))
  {
  }

  // ----- Arguments and redirections in any order

  datatype Piece = Arg(text: string) | In(file: string) | Out(file: string) | ErrOut(file: string) | ErrToOut {
    /** Any token can be a file's name. */
    predicate Valid() { Arg? ==> !IsOperator(text) }

    function Tokens(): seq<string> {
      match this
      case Arg(text) => [text]
      case In(file) => ["<", file]
      case Out(file) => [">", file]
      case ErrOut(file) => ["2>", file]
      case ErrToOut => ["2>&1"]
    }

    /** Both redirect the same stream. */
    predicate Clashes(other: Piece) {
      (In? && other.In?) || (Out? && other.Out?) || ((ErrOut? || ErrToOut?) && (other.ErrOut? || other.ErrToOut?))
    }
  }

  predicate AllValid(pieces: seq<Piece>) {
    forall k :: 0 <= k < |pieces| ==> pieces[k].Valid()
  }

  function TokensOf(pieces: seq<Piece>): seq<string> {
    if pieces == [] then [] else TokensOf(pieces[..|pieces| - 1]) + pieces[|pieces| - 1].Tokens()
  }

  function ArgsOf(pieces: seq<Piece>): seq<string> {
    if pieces == [] then []
    else
      var last := pieces[|pieces| - 1];
      ArgsOf(pieces[..|pieces| - 1]) + if last.Arg? then [last.text] else []
  }

  /** No stream is redirected twice. */
  predicate NoClash(pieces: seq<Piece>) {
    forall i, j :: 0 <= i < j < |pieces| ==> !pieces[i].Clashes(pieces[j])
  }

  /** The command has the pieces' arguments in order and their redirections, and no others. */
  ghost predicate Has(c: Node, pieces: seq<Piece>)
    requires c.Command?
  {
    && c.argv == [c.name] + ArgsOf(pieces)
    && (forall f :: In(f) in pieces <==> c.stdin == Some(f))
    && (forall f :: Out(f) in pieces <==> c.stdout == ToFile(f))
    && (forall f :: ErrOut(f) in pieces <==> c.stderr == ToFile(f))
    && (ErrToOut in pieces <==> c.stderr == ToStdout)
    && !c.stdout.ToPipe? && !c.stdout.ToStdout? && !c.stderr.ToPipe?
  }

  /** What one more piece makes of the command, if the stream is still free. */
  function With(c: Node, p: Piece): Node
    requires c.Command?
  {
    match p
    case Arg(text) => c.(argv := c.argv + [text])
    case In(file) => c.(stdin := Some(file))
    case Out(file) => c.(stdout := ToFile(file))
    case ErrOut(file) => c.(stderr := ToFile(file))
    case ErrToOut => c.(stderr := ToStdout)
  }

  predicate Free(c: Node, p: Piece)
    requires c.Command?
  {
    match p
    case Arg(_) => true
    case In(_) => c.stdin == None
    case Out(_) => c.stdout == Inherited
    case _ => c.stderr == Inherited
  }

  lemma FreeIff(c: Node, pieces: seq<Piece>, p: Piece)
    requires c.Command? && Has(c, pieces)
    ensures Free(c, p) <==> forall q :: q in pieces ==> !q.Clashes(p)
  {
    match p
    case Arg(_) =>
    case In(_) =>
      if c.stdin.Some? { assert In(c.stdin.value) in pieces; }
      forall q | q in pieces && q.In? ensures c.stdin == Some(q.file) { assert q == In(q.file); }
    case Out(_) =>
      if c.stdout.ToFile? { assert Out(c.stdout.file) in pieces; }
      forall q | q in pieces && q.Out? ensures c.stdout == ToFile(q.file) { assert q == Out(q.file); }
    case _ =>
      if c.stderr.ToFile? { assert ErrOut(c.stderr.file) in pieces; }
      forall q | q in pieces && q.ErrOut? ensures c.stderr == ToFile(q.file) { assert q == ErrOut(q.file); }
  }

  lemma WithHas(c: Node, pieces: seq<Piece>, p: Piece)
    requires c.Command? && Has(c, pieces) && Free(c, p)
    ensures Has(With(c, p), pieces + [p])
  {
    var all := pieces + [p];
    assert all[..|all| - 1] == pieces;
    assert c.argv + ArgsOf([p]) == [c.name] + (ArgsOf(pieces) + ArgsOf([p]));
    assert forall q :: q in all <==> q in pieces || q == p;
  }

  lemma FeedPiece(pipeline: seq<Node>, c: Node, p: Piece)
    requires c.Command? && p.Valid()
    ensures Feed(Busy(pipeline, c), p.Tokens()) ==
            if Free(c, p) then Ok(Busy(pipeline, With(c, p))) else Err(AssertionError)
  {
    hide Feed;
    match p
    case Arg(text) => FeedOne(Busy(pipeline, c), text);
    case In(file) => FeedTwo(Busy(pipeline, c), "<", file);
    case Out(file) => FeedTwo(Busy(pipeline, c), ">", file);
    case ErrOut(file) => FeedTwo(Busy(pipeline, c), "2>", file);
    case ErrToOut => FeedOne(Busy(pipeline, c), "2>&1");
  }

  lemma NoClashMore(pieces: seq<Piece>, p: Piece)
    ensures NoClash(pieces + [p]) <==> NoClash(pieces) && forall q :: q in pieces ==> !q.Clashes(p)
  {
    var all := pieces + [p];
    if NoClash(all) {
      forall i, j | 0 <= i < j < |pieces| ensures !pieces[i].Clashes(pieces[j]) {
        assert !all[i].Clashes(all[j]);
      }
      forall q | q in pieces ensures !q.Clashes(p) {
        var i :| 0 <= i < |pieces| && pieces[i] == q;
        assert !all[i].Clashes(all[|pieces|]);
      }
    }
    if NoClash(pieces) && forall q :: q in pieces ==> !q.Clashes(p) {
      forall i, j | 0 <= i < j < |all| ensures !all[i].Clashes(all[j]) {
        assert all[i] == pieces[i] && pieces[i] in pieces;
      }
    }
  }

  /** Whatever the order of a command's parts: all of them are found, or a stream is redirected twice. */
  lemma {:induction false} FeedPieces(pipeline: seq<Node>, c: Node, pieces: seq<Piece>) returns (d: Node)
    requires c.Command? && Has(c, []) && AllValid(pieces)
    ensures Feed(Busy(pipeline, c), TokensOf(pieces)) ==
            if NoClash(pieces) then Ok(Busy(pipeline, d)) else Err(AssertionError)
    ensures d.Command? && d.name == c.name && d.envVars == c.envVars && (NoClash(pieces) ==> Has(d, pieces))
  {
    hide Feed, Accept, Has, With, Free, NoClash, ArgsOf, Piece.Clashes, Piece.Tokens, Piece.Valid;
    if pieces == [] {
      d := c;
      NoPieces(pipeline, c);
    } else {
      var n := |pieces| - 1;
      var p := pieces[n];
      assert pieces == pieces[..n] + [p];
      var before := FeedPieces(pipeline, c, pieces[..n]);
      NoClashMore(pieces[..n], p);
      FeedConcat(Busy(pipeline, c), TokensOf(pieces[..n]), p.Tokens());
      d := before;
      if NoClash(pieces[..n]) {
        FeedPiece(pipeline, before, p);
        FreeIff(before, pieces[..n], p);
        if Free(before, p) {
          WithHas(before, pieces[..n], p);
          d := With(before, p);
          WithKeeps(before, p);
        }
      }
    }
  }

  lemma NoPieces(pipeline: seq<Node>, c: Node)
    ensures NoClash([]) && Feed(Busy(pipeline, c), TokensOf([])) == Ok(Busy(pipeline, c))
  {
  }

  lemma WithKeeps(c: Node, p: Piece)
    requires c.Command?
    ensures var d := With(c, p); d.Command? && d.name == c.name && d.envVars == c.envVars
  {
  }

  // ----- One command, and what may follow it

  /** Assignments, a command's name, and its parts. */
  function CommandTokens(assigns: seq<string>, name: string, pieces: seq<Piece>): seq<string> {
    assigns + ([name] + TokensOf(pieces))
  }

  predicate IsName(token: string) {
    Assignment(token) == None && token != "cd"
  }

  /** Wherever a command may begin, it is read with its variables, arguments and redirections, or not at all. */
  lemma CommandIsRead(pipeline: seq<Node>, assigns: seq<string>, vars: EnvVars, name: string, pieces: seq<Piece>)
    returns (d: Node)
    requires Assigns(assigns, vars) && IsName(name) && AllValid(pieces)
    ensures d.Command? && d.name == name && Settled(vars, d.envVars) && (NoClash(pieces) ==> Has(d, pieces))
    ensures Feed(Idle(pipeline, []), CommandTokens(assigns, name, pieces)) ==
            if NoClash(pieces) then Ok(Busy(pipeline, d)) else Err(AssertionError)
  {
    hide Feed, Accept, Assigns, Settled, IsName, AllValid, NoClash, Has, NewCommand, TokensOf;
    var env := FeedAssignments(pipeline, assigns, vars);
    var c := NewCommand(name, env);
    NameIsRead(pipeline, env, name);
    d := FeedPieces(pipeline, c, pieces);
    FeedConcat(Idle(pipeline, []), assigns, [name] + TokensOf(pieces));
    FeedConcat(Idle(pipeline, env), [name], TokensOf(pieces));
  }

  lemma NameIsRead(pipeline: seq<Node>, env: EnvVars, name: string)
    requires IsName(name)
    ensures var c := NewCommand(name, env);
            c.Command? && c.name == name && c.envVars == env && Has(c, [])
            && Feed(Idle(pipeline, env), [name]) == Ok(Busy(pipeline, c))
  {
    FeedOne(Idle(pipeline, env), name);
  }

  /** A command alone. */
  lemma OneCommand(assigns: seq<string>, vars: EnvVars, name: string, pieces: seq<Piece>) returns (d: Node)
    requires Assigns(assigns, vars) && IsName(name) && AllValid(pieces)
    ensures d.Command? && d.name == name && Settled(vars, d.envVars) && (NoClash(pieces) ==> Has(d, pieces))
    ensures ParseOf(CommandTokens(assigns, name, pieces)) ==
            if NoClash(pieces) then Ok([d]) else Err(AssertionError)
  {
    d := CommandIsRead([], assigns, vars, name, pieces);
    hide Feed, CommandTokens, Assigns, IsName, AllValid, NoClash, Has, Settled;
    assert [] + [d] == [d];
  }

  /** Behind a command any operator begins the next one, but a pipe does not go with an output file. */
  lemma OperatorIsRead(pipeline: seq<Node>, d: Node, pieces: seq<Piece>)
    requires d.Command? && Has(d, pieces)
    ensures Feed(Busy(pipeline, d), ["&&"]) == Ok(Idle(pipeline + [d, And], []))
    ensures Feed(Busy(pipeline, d), ["||"]) == Ok(Idle(pipeline + [d, Or], []))
    ensures Feed(Busy(pipeline, d), ["|"]) ==
            if exists f :: Out(f) in pieces then Err(AssertionError)
            else Ok(Idle(pipeline + [d.(stdout := ToPipe), Pipe], []))
  {
    FeedOne(Busy(pipeline, d), "&&");
    FeedOne(Busy(pipeline, d), "||");
    FeedOne(Busy(pipeline, d), "|");
    if d.stdout.ToFile? { assert Out(d.stdout.file) in pieces; }
  }

  /** A redirection that lacks its file at the end of the tokens is dropped. */
  lemma DanglingIsDropped(tokens: seq<string>, pipeline: seq<Node>, d: Node, op: string)
    requires d.Command? && Feed(START, tokens) == Ok(Busy(pipeline, d)) && op in {"<", ">", "2>"}
    ensures ParseOf(tokens + [op]) == ParseOf(tokens) == Ok(pipeline + [d])
  {
    FeedConcat(START, tokens, [op]);
    FeedOne(Busy(pipeline, d), op);
  }

  /** A cd takes no variables and at most one operand, which is any token up to the next "&&". */
  lemma ChdirIsRead(pipeline: seq<Node>, env: EnvVars, operands: seq<string>)
    requires "&&" !in operands
    ensures Feed(Idle(pipeline, env), ["cd"] + operands) ==
            if env != [] || |operands| > 1 then Err(AssertionError)
            else Ok(Busy(pipeline, Chdir(if operands == [] then None else Some(operands[0]))))
  {
    assert Assignment("cd") == None;
    FeedOne(Idle(pipeline, env), "cd");
    FeedConcat(Idle(pipeline, env), ["cd"], operands);
    if env == [] { OperandsAreRead(pipeline, operands); }
  }

  lemma {:induction false} OperandsAreRead(pipeline: seq<Node>, operands: seq<string>)
    requires "&&" !in operands
    ensures Feed(Busy(pipeline, Chdir(None)), operands) ==
            if |operands| > 1 then Err(AssertionError)
            else Ok(Busy(pipeline, Chdir(if operands == [] then None else Some(operands[0]))))
  {
    if operands != [] {
      assert operands[|operands| - 1] in operands;
      OperandsAreRead(pipeline, operands[..|operands| - 1]);
    }
  }

  lemma ChdirIsCommitted(pipeline: seq<Node>, dir: Option<string>)
    ensures Feed(Busy(pipeline, Chdir(dir)), ["&&"]) == Ok(Idle(pipeline + [Chdir(dir), And], []))
  {
    FeedOne(Busy(pipeline, Chdir(dir)), "&&");
  }
}
