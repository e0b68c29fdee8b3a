/** What the worker pool reports: the counters count what was returned, and what was returned is what was run. */
module WorkerPoolResults {
  import opened Wrappers
  import opened WorkerPool
  import opened WorkerPoolSafety

  // ----- The counters

  function RanTo(returncode: int): Job -> nat {
    (job: Job) => if !job.isBreak && !job.isSkip && job.returncode == returncode then 1 else 0
  }

  function RanElsewhere(): Job -> nat {
    (job: Job) => if !job.isBreak && !job.isSkip && !(0 <= job.returncode <= 2) then 1 else 0
  }

  function WasSkipped(): Job -> nat {
    (job: Job) => if !job.isBreak && job.isSkip then 1 else 0
  }

  /** Each counter is the number of collected jobs of its kind; handed back after an interrupt counts nowhere. */
  lemma {:induction false} CountersCount(jobs: seq<Job>)
    ensures TallyOf(jobs) == Tally(Sum(jobs, RanTo(0)), Sum(jobs, RanTo(1)), Sum(jobs, RanTo(2)),
                                   Sum(jobs, RanElsewhere()), Sum(jobs, WasSkipped()))
  {
    if jobs != [] {
      CountersCount(jobs[..|jobs| - 1]);
    }
  }

  // ----- The return codes

  /** At step n of the run, worker w ends the job with this id, with this return code. */
  ghost predicate EndsAt(c: Config, run: seq<Event>, n: nat, w: nat, id: nat, returncode: int) {
    && n < |run| && run[n] == Finish(w, returncode) && After(c, run[..n]).Some?
    && var s := After(c, run[..n]).value;
       w < |s.workers| && s.workers[w].Running? && s.workers[w].job.id == id
  }

  ghost predicate WasRun(c: Config, run: seq<Event>, job: Job) {
    exists n: nat, w: nat :: EndsAt(c, run, n, w, job.id, job.returncode)
  }

  /** If the job says it was run, it was, and ended with the return code it carries. */
  ghost predicate Honest(c: Config, run: seq<Event>, job: Job) {
    job.isBreak || job.isSkip || WasRun(c, run, job)
  }

  ghost predicate AllHonest(c: Config, run: seq<Event>, s: State) {
    && (forall w :: 0 <= w < |s.workers| && s.workers[w].Ready? ==> Honest(c, run, s.workers[w].job))
    && (forall k :: 0 <= k < |s.output| ==> Honest(c, run, s.output[k]))
    && (forall k :: 0 <= k < |s.collected| ==> Honest(c, run, s.collected[k]))
  }

  lemma StaysHonest(c: Config, run: seq<Event>, e: Event, job: Job)
    requires Honest(c, run, job)
    ensures Honest(c, run + [e], job)
  {
    hide After;
    if n: nat, w: nat :| EndsAt(c, run, n, w, job.id, job.returncode) {
      assert (run + [e])[..n] == run[..n];
      assert EndsAt(c, run + [e], n, w, job.id, job.returncode);
    }
  }

  lemma AllStayHonest(c: Config, run: seq<Event>, e: Event, s: State)
    requires AllHonest(c, run, s)
    ensures AllHonest(c, run + [e], s)
  {
    hide Honest;
    forall job | Honest(c, run, job)
      ensures Honest(c, run + [e], job)
    {
      StaysHonest(c, run, e, job);
    }
  }

  lemma EndIsHonest(c: Config, run: seq<Event>, s: State, w: nat, returncode: int)
    requires After(c, run) == Some(s) && w < |s.workers| && s.workers[w].Running?
    ensures Honest(c, run + [Finish(w, returncode)], s.workers[w].job.(returncode := returncode))
  {
    hide After;
    var longer := run + [Finish(w, returncode)];
    assert longer[..|run|] == run;
    assert EndsAt(c, longer, |run|, w, s.workers[w].job.id, returncode);
  }

  /** A worker that does not run a test marks it, or it was to be skipped. */
  lemma HandedBackIsHonest(c: Config, run: seq<Event>, w: Worker)
    requires w.Ready? ==> w.job.isBreak || w.job.isSkip
    ensures w.Ready? ==> Honest(c, run, w.job)
  {
    hide WasRun;
  }

  /** A step leaves every job that is on its way back honest about what became of it. */
  lemma StepIsHonest(c: Config, run: seq<Event>, s: State, e: Event)
    requires After(c, run) == Some(s) && Enabled(c, s, e) && AllHonest(c, run, s)
    ensures AllHonest(c, run + [e], Apply(c, s, e))
  {
    hide Honest, After;
    AllStayHonest(c, run, e, s);
    if e.Finish? {
      EndIsHonest(c, run, s, e.w, e.returncode);
    } else if e.Decide? {
      HandedBackIsHonest(c, run + [e], Decision(s.threadExit, s.workers[e.w].job));
    }
  }

  /**
   * In every state of every run, a job on its way back or collected that counts as run has been run to its end
   * by some worker, and carries the return code it ended with.
   */
  lemma {:induction false} ResultsAreHonest(c: Config, run: seq<Event>)
    requires After(c, run).Some?
    ensures AllHonest(c, run, After(c, run).value)
  {
    if run != [] {
      var n := |run| - 1;
      hide AllHonest;
      ResultsAreHonest(c, run[..n]);
      StepIsHonest(c, run[..n], After(c, run[..n]).value, run[n]);
      assert run[..n] + [run[n]] == run;
    }
  }

  // ----- Every test is run at most once

  /** The step ends a run of the job with this id. */
  ghost predicate EndsHere(c: Config, before: seq<Event>, e: Event, id: nat) {
    && e.Finish? && After(c, before).Some?
    && var s := After(c, before).value;
       e.w < |s.workers| && s.workers[e.w].Running? && s.workers[e.w].job.id == id
  }

  ghost function Ends(c: Config, run: seq<Event>, id: nat): nat {
    if run == [] then 0
    else
      var n := |run| - 1;
      Ends(c, run[..n], id) + if EndsHere(c, run[..n], run[n], id) then 1 else 0
  }

  function RunResult(id: nat): Job -> nat {
    (job: Job) => if job.id == id && !job.isBreak && !job.isSkip then 1 else 0
  }

  function NotRun(id: nat): Job -> nat {
    (job: Job) => if job.id == id && (job.isBreak || job.isSkip) then 1 else 0
  }

  function RunResultReady(id: nat): Worker -> nat {
    (w: Worker) => if w.Ready? && w.job.id == id && !w.job.isBreak && !w.job.isSkip then 1 else 0
  }

  /** In how many places there is a result of running the job. */
  ghost function Results(s: State, id: nat): nat {
    Sum(s.workers, RunResultReady(id)) + Sum(s.output, RunResult(id)) + Sum(s.collected, RunResult(id))
  }

  /** A result comes into being where a run ends, and never gets lost or doubled. */
  lemma StepResults(c: Config, s: State, e: Event, id: nat)
    requires Shape(c, s) && Enabled(c, s, e)
    ensures Results(Apply(c, s, e), id) ==
            Results(s, id) + if e.Finish? && s.workers[e.w].job.id == id then 1 else 0
  {
    var s' := Apply(c, s, e);
    var f, g := RunResultReady(id), RunResult(id);
    if e.Get? || e.Decide? || e.Finish? || e.Put? {
      assert WorkerOk(c, s, s.workers[e.w]);
      SumUpdate(s.workers, e.w, s'.workers[e.w], f);
    }
    hide Shape;
    if e.Put? { SumQueue(s.output, s.workers[e.w].job, g); }
    if e.Collect? {
      SumQueue(s.output, s.output[0], g);
      SumQueue(s.collected, s.output[0], g);
    }
  }

  lemma {:induction false} ResultsCountEnds(c: Config, run: seq<Event>, id: nat)
    requires After(c, run).Some?
    ensures Results(After(c, run).value, id) == Ends(c, run, id)
  {
    if run == [] {
      SumIdle(c.processors, RunResultReady(id));
    } else {
      var n := |run| - 1;
      hide Results, Shape;
      ResultsCountEnds(c, run[..n], id);
      EveryRunInv(c, run[..n]);
      StepResults(c, After(c, run[..n]).value, run[n], id);
    }
  }

  lemma {:induction false} SumWithin<T>(xs: seq<T>, f: T -> nat, g: T -> nat)
    requires forall x :: f(x) <= g(x)
    ensures Sum(xs, f) <= Sum(xs, g)
  {
    if xs != [] { SumWithin(xs[..|xs| - 1], f, g); }
  }

  lemma {:induction false} SumSplit<T>(xs: seq<T>, f: T -> nat, g: T -> nat, h: T -> nat)
    requires forall x :: f(x) == g(x) + h(x)
    ensures Sum(xs, f) == Sum(xs, g) + Sum(xs, h)
  {
    if xs != [] { SumSplit(xs[..|xs| - 1], f, g, h); }
  }

  /** Results stand in the places of their jobs, and so do jobs that came back without having been run. */
  lemma ResultsHavePlaces(s: State, id: nat)
    ensures Results(s, id) + Sum(s.collected, NotRun(id)) <= Places(s, id)
  {
    SumWithin(s.workers, RunResultReady(id), InHand(id));
    SumWithin(s.output, RunResult(id), HasId(id));
    SumSplit(s.collected, HasId(id), RunResult(id), NotRun(id));
  }

  lemma EndsAtMostOnce(c: Config, run: seq<Event>, id: nat)
    requires After(c, run).Some?
    ensures Ends(c, run, id) + Sum(After(c, run).value.collected, NotRun(id)) <= 1
  {
    EveryRunInv(c, run);
    ResultsCountEnds(c, run, id);
    ResultsHavePlaces(After(c, run).value, id);
    hide Shape, Balance;
  }

  lemma {:induction false} EndsGrow(c: Config, run: seq<Event>, m: nat, n: nat, id: nat)
    requires m <= n <= |run|
    ensures Ends(c, run[..m], id) <= Ends(c, run[..n], id)
  {
    if m < n {
      hide EndsHere;
      EndsGrow(c, run, m, n - 1, id);
      assert run[..n][..n - 1] == run[..n - 1];
    }
  }

  lemma EndCounts(c: Config, run: seq<Event>, n: nat, w: nat, id: nat, returncode: int)
    requires EndsAt(c, run, n, w, id, returncode)
    ensures n < |run| && Ends(c, run[..n + 1], id) == Ends(c, run[..n], id) + 1
  {
    hide After;
    assert run[..n + 1][..n] == run[..n];
  }

  lemma EndIsCounted(c: Config, run: seq<Event>, n: nat, w: nat, id: nat, returncode: int)
    requires EndsAt(c, run, n, w, id, returncode)
    ensures n < |run| && Ends(c, run, id) >= Ends(c, run[..n], id) + 1
  {
    hide *;
    EndCounts(c, run, n, w, id, returncode);
    EndsGrow(c, run, n + 1, |run|, id);
    assert run[..|run|] == run;
  }

  lemma TwoEnds(c: Config, run: seq<Event>, n: nat, w: nat, returncode: int, n': nat, w': nat, returncode': int,
                id: nat)
    requires EndsAt(c, run, n, w, id, returncode) && EndsAt(c, run, n', w', id, returncode') && n < n'
    ensures Ends(c, run, id) >= 2
  {
    hide *;
    EndIsCounted(c, run, n', w', id, returncode');
    EndCounts(c, run, n, w, id, returncode);
    EndsGrow(c, run, n + 1, n', id);
  }

  lemma SameStep(c: Config, run: seq<Event>, n: nat, w: nat, returncode: int, w': nat, returncode': int, id: nat)
    requires EndsAt(c, run, n, w, id, returncode) && EndsAt(c, run, n, w', id, returncode')
    ensures w == w' && returncode == returncode'
  {
    hide After;
  }

  lemma EndIsUnique(c: Config, run: seq<Event>, n: nat, w: nat, returncode: int, n': nat, w': nat, returncode': int,
                    id: nat)
    requires After(c, run).Some?
    requires EndsAt(c, run, n, w, id, returncode) && EndsAt(c, run, n', w', id, returncode')
    ensures n == n' && w == w' && returncode == returncode'
  {
    hide *;
    EndsAtMostOnce(c, run, id);
    if n < n' {
      TwoEnds(c, run, n, w, returncode, n', w', returncode', id);
    } else if n' < n {
      TwoEnds(c, run, n', w', returncode', n, w, returncode, id);
    } else {
      SameStep(c, run, n, w, returncode, w', returncode', id);
    }
  }

  /** The job was run once and carries the return code of that run, or it says that it was not run, and was not. */
  ghost predicate Settled(c: Config, run: seq<Event>, job: Job) {
    if job.isBreak || job.isSkip then forall n: nat, w: nat, r: int :: !EndsAt(c, run, n, w, job.id, r)
    else
      exists n: nat, w: nat ::
        && EndsAt(c, run, n, w, job.id, job.returncode)
        && forall n': nat, w': nat, r: int :: EndsAt(c, run, n', w', job.id, r) ==>
             n' == n && w' == w && r == job.returncode
  }

  /** In every run every collected job is settled: what is counted is what happened. */
  lemma CollectedIsSettled(c: Config, run: seq<Event>, k: nat)
    requires After(c, run).Some? && k < |After(c, run).value.collected|
    ensures Settled(c, run, After(c, run).value.collected[k])
  {
    var job := After(c, run).value.collected[k];
    ResultsAreHonest(c, run);
    assert Honest(c, run, job);
    hide After, EndsAt, AllHonest;
    if job.isBreak || job.isSkip {
      NeverRun(c, run, k);
    } else {
      var n: nat, w: nat :| EndsAt(c, run, n, w, job.id, job.returncode);
      forall n': nat, w': nat, r: int | EndsAt(c, run, n', w', job.id, r)
        ensures n' == n && w' == w && r == job.returncode
      {
        EndIsUnique(c, run, n, w, job.returncode, n', w', r, job.id);
      }
    }
  }

  lemma NeverRun(c: Config, run: seq<Event>, k: nat)
    requires After(c, run).Some? && k < |After(c, run).value.collected|
    requires var job := After(c, run).value.collected[k]; job.isBreak || job.isSkip
    ensures forall n: nat, w: nat, r: int :: !EndsAt(c, run, n, w, After(c, run).value.collected[k].id, r)
  {
    var jobs := After(c, run).value.collected;
    var id := jobs[k].id;
    EndsAtMostOnce(c, run, id);
    SumAtLeast(jobs, k, NotRun(id));
    assert NotRun(id)(jobs[k]) == 1;
    forall n: nat, w: nat, r: int
      ensures !EndsAt(c, run, n, w, id, r)
    {
      if EndsAt(c, run, n, w, id, r) {
        EndIsCounted(c, run, n, w, id, r);
      }
    }
  }

  // ----- The order of results

  /** The jobs put on the output queue, in the order of the workers' steps. */
  ghost function HandedIn(c: Config, run: seq<Event>): seq<Job>
    requires After(c, run).Some?
  {
    if run == [] then []
    else
      var n := |run| - 1;
      var s := After(c, run[..n]).value;
      HandedIn(c, run[..n]) + if run[n].Put? then [s.workers[run[n].w].job] else []
  }

  /** Results are collected in the order in which they were handed in, and none is lost on the way. */
  lemma {:induction false} CollectedInOrder(c: Config, run: seq<Event>)
    requires After(c, run).Some?
    ensures After(c, run).value.collected + After(c, run).value.output == HandedIn(c, run)
  {
    if run != [] {
      var n := |run| - 1;
      CollectedInOrder(c, run[..n]);
      var s := After(c, run[..n]).value;
      if run[n].Collect? {
        assert s.output == [s.output[0]] + s.output[1..];
      }
      if run[n].Put? {
        var job := s.workers[run[n].w].job;
        assert s.collected + (s.output + [job]) == s.collected + s.output + [job];
      }
    }
  }

  // ----- The order of the main thread's steps

  function Times(e: Event, n: nat): (es: seq<Event>)
    ensures |es| == n && forall i :: 0 <= i < n ==> es[i] == e
  {
    seq(n, _ => e)
  }

  predicate IsMain(e: Event) {
    e.Dispatch? || e.SendBreak? || e.Collect? || e.Join?
  }

  /** What the main thread does in a run. */
  function MainOf(run: seq<Event>): seq<Event> {
    if run == [] then []
    else
      var n := |run| - 1;
      MainOf(run[..n]) + if IsMain(run[n]) then [run[n]] else []
  }

  function MainSteps(d: nat, b: nat, k: nat, j: nat): seq<Event> {
    Times(Dispatch, d) + Times(SendBreak, b) + Times(Collect, k) + Times(Join, j)
  }

  function MainDone(s: State): seq<Event> {
    MainSteps(s.dispatched, s.breaksPut, |s.collected|, s.joined)
  }

  /** No kind of step before all of the kind before it. */
  predicate InTurn(c: Config, s: State) {
    && (s.breaksPut > 0 ==> s.dispatched == |c.skips|)
    && (s.collected != [] ==> s.breaksPut == c.processors && s.dispatched == |c.skips|)
    && (s.joined > 0 ==> |s.collected| == |c.skips| && s.breaksPut == c.processors && s.dispatched == |c.skips|)
  }

  /**
   * The main thread puts all tests on the input queue, then a break job for each worker, then collects as many jobs
   * as there are tests, and then joins the workers.
   */
  lemma {:induction false} MainInOrder(c: Config, run: seq<Event>)
    requires After(c, run).Some?
    ensures InTurn(c, After(c, run).value) && MainOf(run) == MainDone(After(c, run).value)
  {
    hide InTurn, MainDone, Enabled, Apply, Init;
    if run == [] {
      NoMainSteps(c);
    } else {
      var n := |run| - 1;
      MainInOrder(c, run[..n]);
      MainStep(c, After(c, run[..n]).value, run[n]);
    }
  }

  lemma NoMainSteps(c: Config)
    ensures InTurn(c, Init(c)) && MainDone(Init(c)) == []
  {
  }

  lemma MainStep(c: Config, s: State, e: Event)
    requires InTurn(c, s) && Enabled(c, s, e)
    ensures InTurn(c, Apply(c, s, e)) && MainDone(Apply(c, s, e)) == MainDone(s) + if IsMain(e) then [e] else []
  {
    hide MainSteps;
    OneStepMore(s.dispatched, s.breaksPut, |s.collected|, s.joined);
  }

  lemma OneStepMore(d: nat, b: nat, k: nat, j: nat)
    ensures b == 0 && k == 0 && j == 0 ==> MainSteps(d + 1, b, k, j) == MainSteps(d, b, k, j) + [Dispatch]
    ensures k == 0 && j == 0 ==> MainSteps(d, b + 1, k, j) == MainSteps(d, b, k, j) + [SendBreak]
    ensures j == 0 ==> MainSteps(d, b, k + 1, j) == MainSteps(d, b, k, j) + [Collect]
    ensures MainSteps(d, b, k, j + 1) == MainSteps(d, b, k, j) + [Join]
  {
  }
}
