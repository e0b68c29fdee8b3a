/**
 * test.py, worker_thread.run and the dispatch, collect and join parts of run_tests: a main thread and N
 * worker threads that share an input and an output queue, and an interrupt that may come at any moment.
 */
module WorkerPool {
  import opened Wrappers

  // ----- The state

  /** Test i has id i; the break jobs behind the T tests have ids T, T + 1, ... */
  datatype Job = Job(id: nat, isBreak: bool, isSkip: bool, returncode: int)

  /** What a worker is doing; once exited it still names the break job that told it to. */
  datatype Worker = Idle | Holding(job: Job) | Running(job: Job) | Ready(job: Job) | Exited(job: Job)

  datatype Tally = Tally(passed: nat, failed: nat, valgrind: nat, crashed: nat, skipped: nat)

  /** Which tests are to be skipped, and how many workers there are. */
  datatype Config = Config(skips: seq<bool>, processors: nat) {
    ghost predicate Valid() { processors >= 1 }
  }

  datatype State = State(
    dispatched: nat,
    breaksPut: nat,
    input: seq<Job>,
    workers: seq<Worker>,
    output: seq<Job>,
    collected: seq<Job>,
    tally: Tally,
    joined: nat,
    threadExit: bool)

  function IdleWorkers(n: nat): (ws: seq<Worker>)
    ensures |ws| == n && forall w :: 0 <= w < n ==> ws[w] == Idle
  {
    if n == 0 then [] else IdleWorkers(n - 1) + [Idle]
  }

  function Init(c: Config): State {
    State(0, 0, [], IdleWorkers(c.processors), [], [], Tally(0, 0, 0, 0, 0), 0, false)
  }

  function Test(c: Config, i: nat): Job
    requires i < |c.skips|
  {
    Job(i, false, c.skips[i], 0)
  }

  function BreakJob(c: Config, i: nat): Job {
    Job(|c.skips| + i, true, false, 0)
  }

  // ----- The steps

  datatype Event =
    | Dispatch | SendBreak | Collect | Join
    | Get(w: nat) | Decide(w: nat) | Finish(w: nat, returncode: int) | Put(w: nat)
    | Interrupt

  predicate Enabled(c: Config, s: State, e: Event) {
    match e
    case Dispatch => s.dispatched < |c.skips|
    case SendBreak => s.dispatched == |c.skips| && s.breaksPut < c.processors
    case Collect =>
      && s.breaksPut == c.processors && s.dispatched == |c.skips|
      && |s.collected| < |c.skips| && s.output != []
    case Join =>
      && s.breaksPut == c.processors && s.dispatched == |c.skips| && |s.collected| == |c.skips|
      && s.joined < |s.workers| && s.workers[s.joined].Exited?
    case Get(w) => w < |s.workers| && s.workers[w].Idle? && s.input != []
    case Decide(w) => w < |s.workers| && s.workers[w].Holding?
    case Finish(w, _) => w < |s.workers| && s.workers[w].Running?
    case Put(w) => w < |s.workers| && s.workers[w].Ready?
    case Interrupt => true
  }

  /** What a worker makes of the job it got: exit, hand it back marked, hand it back unrun, or run it. */
  function Decision(threadExit: bool, job: Job): Worker {
    if job.isBreak then Exited(job)
    else if threadExit then Ready(job.(isBreak := true))
    else if job.isSkip then Ready(job)
    else Running(job)
  }

  function Counted(t: Tally, job: Job): Tally {
    if job.isBreak then t
    else if job.isSkip then t.(skipped := t.skipped + 1)
    else if job.returncode == 0 then t.(passed := t.passed + 1)
    else if job.returncode == 1 then t.(failed := t.failed + 1)
    else if job.returncode == 2 then t.(valgrind := t.valgrind + 1)
    else t.(crashed := t.crashed + 1)
  }

  function Apply(c: Config, s: State, e: Event): State
    requires Enabled(c, s, e)
  {
    match e
    case Dispatch => s.(input := s.input + [Test(c, s.dispatched)], dispatched := s.dispatched + 1)
    case SendBreak => s.(input := s.input + [BreakJob(c, s.breaksPut)], breaksPut := s.breaksPut + 1)
    case Collect => s.(output := s.output[1..], collected := s.collected + [s.output[0]],
                       tally := Counted(s.tally, s.output[0]))
    case Join => s.(joined := s.joined + 1)
    case Get(w) => s.(input := s.input[1..], workers := s.workers[w := Holding(s.input[0])])
    case Decide(w) => s.(workers := s.workers[w := Decision(s.threadExit, s.workers[w].job)])
    case Finish(w, returncode) => s.(workers := s.workers[w := Ready(s.workers[w].job.(returncode := returncode))])
    case Put(w) => s.(output := s.output + [s.workers[w].job], workers := s.workers[w := Idle])
    case Interrupt => s.(threadExit := true)
  }

  /** The state after a run, if the run is possible: any interleaving of the threads' steps and the interrupt. */
  function After(c: Config, run: seq<Event>): Option<State> {
    if run == [] then Some(Init(c))
    else
      var n := |run| - 1;
      match After(c, run[..n])
      case None => None
      case Some(s) => if Enabled(c, s, run[n]) then Some(Apply(c, s, run[n])) else None
  }

  predicate Done(c: Config, s: State) {
    |s.collected| == |c.skips| && s.joined == c.processors
  }

  /** What run_tests returns at the end. */
  function ExitStatus(s: State): int {
    if s.tally.passed + s.tally.skipped == s.dispatched then 0 else 1
  }

  // ----- Adding up over workers and queues

  ghost function Sum<T>(xs: seq<T>, f: T -> nat): nat {
    if xs == [] then 0 else Sum(xs[..|xs| - 1], f) + f(xs[|xs| - 1])
  }

  lemma {:induction false} SumUpdate<T>(xs: seq<T>, i: nat, x: T, f: T -> nat)
    requires i < |xs|
    ensures Sum(xs[i := x], f) + f(xs[i]) == Sum(xs, f) + f(x)
  {
    var n := |xs| - 1;
    if i < n {
      SumUpdate(xs[..n], i, x, f);
      assert xs[i := x][..n] == xs[..n][i := x];
    } else {
      assert xs[i := x][..n] == xs[..n];
    }
  }

  lemma {:induction false} SumConcat<T>(xs: seq<T>, ys: seq<T>, f: T -> nat)
    ensures Sum(xs + ys, f) == Sum(xs, f) + Sum(ys, f)
  {
    if ys == [] {
      assert xs + ys == xs;
    } else {
      var n := |ys| - 1;
      SumConcat(xs, ys[..n], f);
      assert (xs + ys)[..|xs| + n] == xs + ys[..n];
    }
  }

  lemma SumOne<T>(x: T, f: T -> nat)
    ensures Sum([x], f) == f(x)
  {
    assert Sum([x][..0], f) == 0;
  }

  /** Taking the head off a queue, and putting an item on it. */
  lemma SumQueue<T>(xs: seq<T>, x: T, f: T -> nat)
    ensures Sum(xs + [x], f) == Sum(xs, f) + f(x)
    ensures xs != [] ==> Sum(xs, f) == f(xs[0]) + Sum(xs[1..], f)
  {
    SumConcat(xs, [x], f);
    SumOne(x, f);
    if xs != [] {
      SumOne(xs[0], f);
      SumConcat([xs[0]], xs[1..], f);
      assert xs == [xs[0]] + xs[1..];
    }
  }

  lemma {:induction false} SumAtMost<T>(xs: seq<T>, f: T -> nat)
    requires forall x :: f(x) <= 1
    ensures Sum(xs, f) <= |xs|
    ensures Sum(xs, f) == |xs| <==> forall i :: 0 <= i < |xs| ==> f(xs[i]) == 1
    ensures Sum(xs, f) == 0 <==> forall i :: 0 <= i < |xs| ==> f(xs[i]) == 0
  {
    if xs != [] {
      var n := |xs| - 1;
      SumAtMost(xs[..n], f);
      assert forall i :: 0 <= i < n ==> xs[..n][i] == xs[i];
    }
  }

  lemma {:induction false} SumOfTwo<T>(xs: seq<T>, i: nat, j: nat, f: T -> nat)
    requires i < j < |xs|
    ensures f(xs[i]) + f(xs[j]) <= Sum(xs, f)
  {
    var n := |xs| - 1;
    if j < n {
      SumOfTwo(xs[..n], i, j, f);
    } else {
      SumAtLeast(xs[..n], i, f);
    }
  }

  lemma {:induction false} SumAtLeast<T>(xs: seq<T>, i: nat, f: T -> nat)
    requires i < |xs|
    ensures f(xs[i]) <= Sum(xs, f)
  {
    var n := |xs| - 1;
    if i < n { SumAtLeast(xs[..n], i, f); }
  }
}
