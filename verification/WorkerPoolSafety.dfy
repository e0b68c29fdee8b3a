/** What every step of the worker pool keeps, and so what holds in every state of every run. */
module WorkerPoolSafety {
  import opened WorkerPool

  // ----- The invariant

  /** How many jobs have been put on, and taken off, the input queue. */
  function Sent(s: State): nat {
    s.dispatched + s.breaksPut
  }

  function Got(s: State): int {
    Sent(s) - |s.input|
  }

  /** The i-th job put on the input queue: the tests first, then the break jobs. */
  function JobAt(c: Config, i: nat): Job {
    if i < |c.skips| then Test(c, i) else BreakJob(c, i - |c.skips|)
  }

  /** A test on its way back: still the same test, and marked as a break only after an interrupt. */
  ghost predicate Returned(c: Config, s: State, job: Job) {
    job.id < |c.skips| && job.isSkip == c.skips[job.id] && (job.isBreak ==> s.threadExit)
  }

  ghost predicate WorkerOk(c: Config, s: State, w: Worker) {
    match w
    case Idle => true
    case Holding(job) => job.id < Got(s) && job == JobAt(c, job.id)
    case Running(job) => job.id < |c.skips| && job == JobAt(c, job.id) && !job.isSkip
    case Ready(job) => Returned(c, s, job)
    case Exited(job) => |c.skips| <= job.id < Got(s) && job == JobAt(c, job.id)
  }

  ghost predicate Bounds(c: Config, s: State) {
    && |s.workers| == c.processors
    && s.dispatched <= |c.skips| && s.breaksPut <= c.processors && |s.collected| <= |c.skips|
    && s.joined <= c.processors
    && (s.breaksPut > 0 ==> s.dispatched == |c.skips|)
    && (s.joined > 0 ==> |s.collected| == |c.skips|)
    && (forall w :: 0 <= w < s.joined ==> s.workers[w].Exited?)
    && Got(s) >= 0
  }

  ghost predicate QueueOk(c: Config, s: State)
    requires Got(s) >= 0
  {
    forall k :: 0 <= k < |s.input| ==> s.input[k] == JobAt(c, Got(s) + k)
  }

  ghost predicate WorkersOk(c: Config, s: State) {
    forall w :: 0 <= w < |s.workers| ==> WorkerOk(c, s, s.workers[w])
  }

  ghost predicate ReturnsOk(c: Config, s: State) {
    && (forall k :: 0 <= k < |s.output| ==> Returned(c, s, s.output[k]))
    && (forall k :: 0 <= k < |s.collected| ==> Returned(c, s, s.collected[k]))
  }

  ghost predicate Shape(c: Config, s: State) {
    Bounds(c, s) && QueueOk(c, s) && WorkersOk(c, s) && ReturnsOk(c, s)
  }

  function HasId(id: nat): Job -> nat {
    (job: Job) => if job.id == id then 1 else 0
  }

  function InHand(id: nat): Worker -> nat {
    (w: Worker) => if !w.Idle? && w.job.id == id then 1 else 0
  }

  /** In how many places a job is: the queues, the workers' hands, and among the collected. */
  ghost function Places(s: State, id: nat): nat {
    Sum(s.input, HasId(id)) + Sum(s.workers, InHand(id)) + Sum(s.output, HasId(id)) + Sum(s.collected, HasId(id))
  }

  ghost predicate OnePlaceEach(s: State) {
    forall id: nat :: Places(s, id) == if id < Sent(s) then 1 else 0
  }

  function HasTest(c: Config): Worker -> nat {
    (w: Worker) => if !w.Idle? && w.job.id < |c.skips| then 1 else 0
  }

  function HasBreak(c: Config): Worker -> nat {
    (w: Worker) => if !w.Idle? && w.job.id >= |c.skips| then 1 else 0
  }

  function Min(a: int, b: int): int { if a < b then a else b }

  /** All tests and all break jobs that have left the input queue are accounted for. */
  ghost predicate Balance(c: Config, s: State) {
    && Sum(s.workers, HasTest(c)) + |s.output| + |s.collected| == Min(Got(s), |c.skips|)
    && Sum(s.workers, HasBreak(c)) == Got(s) - Min(Got(s), |c.skips|)
  }

  function TallyOf(jobs: seq<Job>): Tally {
    if jobs == [] then Tally(0, 0, 0, 0, 0)
    else Counted(TallyOf(jobs[..|jobs| - 1]), jobs[|jobs| - 1])
  }

  ghost predicate Inv(c: Config, s: State) {
    Shape(c, s) && OnePlaceEach(s) && Balance(c, s) && s.tally == TallyOf(s.collected)
  }

  // ----- It holds at the start and is kept by every step

  lemma {:induction false} SumIdle(n: nat, f: Worker -> nat)
    requires f(Idle) == 0
    ensures Sum(IdleWorkers(n), f) == 0
  {
    if n > 0 { SumIdle(n - 1, f); }
  }

  lemma InitInv(c: Config)
    ensures Inv(c, Init(c))
  {
    hide IdleWorkers;
    forall id: nat
      ensures Places(Init(c), id) == 0
    {
      SumIdle(c.processors, InHand(id));
    }
    SumIdle(c.processors, HasTest(c));
    SumIdle(c.processors, HasBreak(c));
  }

  lemma KeepsBounds(c: Config, s: State, e: Event)
    requires Shape(c, s) && Enabled(c, s, e)
    ensures Bounds(c, Apply(c, s, e)) && QueueOk(c, Apply(c, s, e))
  {
    hide WorkerOk, Returned;
    var s' := Apply(c, s, e);
    if e.Get? {
      assert forall k :: 0 <= k < |s'.input| ==> s'.input[k] == s.input[k + 1];
    }
  }

  lemma KeepsWorkers(c: Config, s: State, e: Event)
    requires Shape(c, s) && Enabled(c, s, e)
    ensures WorkersOk(c, Apply(c, s, e)) && ReturnsOk(c, Apply(c, s, e))
  {
    hide Bounds;
    var s' := Apply(c, s, e);
    GotGrows(c, s, e);
    if e.Get? || e.Decide? || e.Finish? || e.Put? {
      assert WorkerOk(c, s, s.workers[e.w]);
      StepsToOk(c, s, e);
    }
    forall w | 0 <= w < |s'.workers|
      ensures WorkerOk(c, s', s'.workers[w])
    {
      if s'.workers[w] == s.workers[w] { assert WorkerOk(c, s, s.workers[w]); }
    }
  }

  lemma GotGrows(c: Config, s: State, e: Event)
    requires Enabled(c, s, e)
    ensures Got(s) <= Got(Apply(c, s, e)) && (s.threadExit ==> Apply(c, s, e).threadExit)
  {
  }

  /** The worker that takes a step is fine after it. */
  lemma StepsToOk(c: Config, s: State, e: Event)
    requires Shape(c, s) && Enabled(c, s, e) && (e.Get? || e.Decide? || e.Finish? || e.Put?)
    ensures WorkerOk(c, Apply(c, s, e), Apply(c, s, e).workers[e.w])
  {
    hide ReturnsOk;
    assert WorkerOk(c, s, s.workers[e.w]);
    if e.Get? { assert s.input[0] == JobAt(c, Got(s)); }
  }

  lemma KeepsShape(c: Config, s: State, e: Event)
    requires Shape(c, s) && Enabled(c, s, e)
    ensures Shape(c, Apply(c, s, e))
  {
    hide Bounds, QueueOk, WorkersOk, ReturnsOk, Apply, Enabled;
    KeepsBounds(c, s, e);
    KeepsWorkers(c, s, e);
  }

  /** A step moves at most one job, and only from one place to the next. */
  lemma KeepsPlaces(c: Config, s: State, e: Event, id: nat)
    requires Bounds(c, s) && Enabled(c, s, e)
    requires Places(s, id) == if id < Sent(s) then 1 else 0
    ensures Places(Apply(c, s, e), id) == if id < Sent(Apply(c, s, e)) then 1 else 0
  {
    hide Sum;
    var f, h := HasId(id), InHand(id);
    match e
    case Dispatch => SumQueue(s.input, Test(c, s.dispatched), f);
    case SendBreak => SumQueue(s.input, BreakJob(c, s.breaksPut), f);
    case Collect =>
      SumQueue(s.output, s.output[0], f);
      SumQueue(s.collected, s.output[0], f);
    case Get(w) =>
      SumQueue(s.input, s.input[0], f);
      SumUpdate(s.workers, w, Holding(s.input[0]), h);
    case Decide(w) => SumUpdate(s.workers, w, Decision(s.threadExit, s.workers[w].job), h);
    case Finish(w, returncode) => SumUpdate(s.workers, w, Ready(s.workers[w].job.(returncode := returncode)), h);
    case Put(w) =>
      SumQueue(s.output, s.workers[w].job, f);
      SumUpdate(s.workers, w, Idle, h);
    case _ =>
  }

  lemma GotFromBounds(c: Config, s: State)
    requires Bounds(c, s)
    ensures Got(s) >= 0 && (s.breaksPut > 0 ==> s.dispatched == |c.skips|) && s.dispatched <= |c.skips|
  {
  }

  /** What a worker's step means for the counts: a job is taken, kept under its id, or handed over if it is a test. */
  lemma WorkerKept(c: Config, s: State, e: Event)
    requires Shape(c, s) && Enabled(c, s, e) && (e.Get? || e.Decide? || e.Finish? || e.Put?)
    ensures e.Get? ==> s.input[0].id == Got(s) && s.workers[e.w].Idle?
    ensures e.Decide? || e.Finish? ==>
              && !s.workers[e.w].Idle? && !Apply(c, s, e).workers[e.w].Idle?
              && Apply(c, s, e).workers[e.w].job.id == s.workers[e.w].job.id
    ensures e.Put? ==> s.workers[e.w].Ready? && s.workers[e.w].job.id < |c.skips| && Apply(c, s, e).workers[e.w].Idle?
    ensures Got(s) >= 0
  {
    assert WorkerOk(c, s, s.workers[e.w]);
  }

  lemma KeepsBalance(c: Config, s: State, e: Event)
    requires Shape(c, s) && Balance(c, s) && Enabled(c, s, e)
    ensures Balance(c, Apply(c, s, e))
  {
    hide Sum, Bounds, QueueOk, WorkersOk, ReturnsOk, Decision;
    assert Got(s) >= 0 by { GotFromBounds(c, s); }
    var f, g := HasTest(c), HasBreak(c);
    var s' := Apply(c, s, e);
    if e.Get? || e.Decide? || e.Finish? || e.Put? {
      WorkerKept(c, s, e);
      SumUpdate(s.workers, e.w, s'.workers[e.w], f);
      SumUpdate(s.workers, e.w, s'.workers[e.w], g);
    }
  }

  lemma KeepsInv(c: Config, s: State, e: Event)
    requires Inv(c, s) && Enabled(c, s, e)
    ensures Inv(c, Apply(c, s, e))
  {
    var s' := Apply(c, s, e);
    KeepsShape(c, s, e);
    KeepsBalance(c, s, e);
    forall id: nat
      ensures Places(s', id) == if id < Sent(s') then 1 else 0
    {
      KeepsPlaces(c, s, e, id);
    }
    assert s'.tally == TallyOf(s'.collected) by {
      if e.Collect? {
        assert s'.collected[..|s.collected|] == s.collected;
      }
    }
  }

  lemma {:induction false} EveryRunInv(c: Config, run: seq<Event>)
    requires After(c, run).Some?
    ensures Inv(c, After(c, run).value)
  {
    if run == [] {
      InitInv(c);
    } else {
      var n := |run| - 1;
      EveryRunInv(c, run[..n]);
      KeepsInv(c, After(c, run[..n]).value, run[n]);
    }
  }

  // ----- Where a dispatched job is

  /** Exactly one of: on the input queue, in one worker's hand, on the output queue, collected. */
  lemma DispatchedJobIsInOnePlace(c: Config, run: seq<Event>, id: nat)
    requires After(c, run).Some?
    ensures var s := After(c, run).value;
            id < s.dispatched ==> Places(s, id) == 1
  {
    EveryRunInv(c, run);
  }

  ghost predicate AllOk(jobs: seq<Job>) {
    forall k :: 0 <= k < |jobs| ==> !jobs[k].isBreak && (jobs[k].isSkip || jobs[k].returncode == 0)
  }

  function Interrupted(jobs: seq<Job>): nat {
    if jobs == [] then 0
    else Interrupted(jobs[..|jobs| - 1]) + if jobs[|jobs| - 1].isBreak then 1 else 0
  }

  lemma {:induction false} TallyAddsUp(jobs: seq<Job>)
    ensures var t := TallyOf(jobs);
            t.passed + t.failed + t.valgrind + t.crashed + t.skipped + Interrupted(jobs) == |jobs|
    ensures TallyOf(jobs).passed + TallyOf(jobs).skipped == |jobs| <==> AllOk(jobs)
  {
    if jobs != [] {
      var n := |jobs| - 1;
      TallyAddsUp(jobs[..n]);
      assert forall k :: 0 <= k < n ==> jobs[..n][k] == jobs[k];
    }
  }
}
