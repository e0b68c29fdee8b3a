/** What an interrupt of the worker pool does: no test is run that no worker had decided on before it. */
module WorkerPoolInterrupt {
  import opened Wrappers
  import opened WorkerPool
  import opened WorkerPoolSafety
  import opened WorkerPoolResults
  import opened WorkerPoolProgress

  /** At step n of the run, worker w decides what to do with the job with this id. */
  ghost predicate DecidesAt(c: Config, run: seq<Event>, n: nat, w: nat, id: nat) {
    && n < |run| && run[n] == Decide(w) && After(c, run[..n]).Some?
    && var s := After(c, run[..n]).value;
       w < |s.workers| && s.workers[w].Holding? && s.workers[w].job.id == id
  }

  lemma {:induction false} PrefixRuns(c: Config, run: seq<Event>, n: nat)
    requires After(c, run).Some? && n <= |run|
    ensures After(c, run[..n]).Some?
    ensures n < |run| ==>
              && Enabled(c, After(c, run[..n]).value, run[n])
              && After(c, run[..n + 1]) == Some(Apply(c, After(c, run[..n]).value, run[n]))
  {
    hide Enabled, Apply;
    assert run[..|run|] == run;
    if n < |run| {
      assert run[..|run| - 1][..n] == run[..n];
      assert run[..n + 1][..n] == run[..n];
      if n < |run| - 1 {
        assert run[..|run| - 1][..n + 1] == run[..n + 1];
      }
      PrefixRuns(c, run[..|run| - 1], n);
    }
  }

  /** The flag stays up once an interrupt has come. */
  lemma {:induction false} InterruptStays(c: Config, run: seq<Event>, m: nat)
    requires After(c, run).Some? && m < |run| && run[m] == Interrupt
    ensures After(c, run).value.threadExit
  {
    var n := |run| - 1;
    if m < n {
      InterruptStays(c, run[..n], m);
    }
    hide Enabled, After;
  }

  /** And it is up only then. */
  lemma {:induction false} OnlyInterruptsStop(c: Config, run: seq<Event>)
    requires After(c, run).Some? && Interrupt !in run
    ensures !After(c, run).value.threadExit
  {
    if run != [] {
      var n := |run| - 1;
      assert run[n] in run && forall e :: e in run[..n] ==> e in run;
      OnlyInterruptsStop(c, run[..n]);
      hide Enabled, After;
    }
  }

  /** Without an interrupt every test that is not to be skipped is run, and no other. */
  lemma UninterruptedIsRun(c: Config, run: seq<Event>, id: nat)
    requires c.Valid() && After(c, run).Some? && Done(c, After(c, run).value)
    requires Interrupt !in run && id < |c.skips|
    ensures (exists n: nat, w: nat, r: int :: EndsAt(c, run, n, w, id, r)) <==> !c.skips[id]
  {
    var s := After(c, run).value;
    TheEnd(c, run);
    OnlyInterruptsStop(c, run);
    assert WasCollected(s, id);
    var k :| 0 <= k < |s.collected| && s.collected[k].id == id;
    CollectedIsSettled(c, run, k);
    assert Returned(c, s, s.collected[k]);
    hide After, EndsAt;
  }

  /** Behind an interrupt a worker that decides on a test hands it back unrun, marked as a break. */
  lemma InterruptStopsRunning(c: Config, run: seq<Event>, m: nat, n: nat, w: nat, id: nat)
    requires After(c, run).Some? && m < n && n < |run| && run[m] == Interrupt
    requires DecidesAt(c, run, n, w, id) && id < |c.skips|
    ensures After(c, run[..n]).Some? && After(c, run[..n + 1]).Some?
    ensures var before, after := After(c, run[..n]).value.workers, After(c, run[..n + 1]).value.workers;
            && w < |before| == |after| && before[w].Holding? && !before[w].job.isBreak && before[w].job.id == id
            && !after[w].Running? && after[w] == Ready(before[w].job.(isBreak := true))
  {
    PrefixRuns(c, run, n);
    InterruptStays(c, run[..n], m);
    EveryRunInv(c, run[..n]);
    var s := After(c, run[..n]).value;
    assert WorkerOk(c, s, s.workers[w]);
    hide After, Balance, OnePlaceEach;
  }

  // ----- Tests that were not decided on

  /** No worker has got as far as deciding on the test. */
  ghost predicate Untouched(s: State, id: nat) {
    && (forall w :: 0 <= w < |s.workers| ==> s.workers[w].Idle? || s.workers[w].Holding? || s.workers[w].job.id != id)
    && (forall k :: 0 <= k < |s.output| ==> s.output[k].id != id)
    && (forall k :: 0 <= k < |s.collected| ==> s.collected[k].id != id)
  }

  /** Wherever the test is behind that point, it is marked as a break. */
  ghost predicate HandedBack(s: State, id: nat) {
    && s.threadExit
    && (forall w :: 0 <= w < |s.workers| && !s.workers[w].Idle? && !s.workers[w].Holding? ==>
          s.workers[w].job.id == id ==> s.workers[w].Ready? && s.workers[w].job.isBreak)
    && (forall k :: 0 <= k < |s.output| && s.output[k].id == id ==> s.output[k].isBreak)
    && (forall k :: 0 <= k < |s.collected| && s.collected[k].id == id ==> s.collected[k].isBreak)
  }

  lemma {:induction false} StaysUntouched(c: Config, run: seq<Event>, id: nat)
    requires After(c, run).Some? && id < |c.skips|
    requires forall n: nat, w: nat :: !DecidesAt(c, run, n, w, id)
    ensures Untouched(After(c, run).value, id)
  {
    if run != [] {
      var n := |run| - 1;
      forall k: nat, w: nat
        ensures !DecidesAt(c, run[..n], k, w, id)
      {
        assert !DecidesAt(c, run, k, w, id);
        if k < n { assert run[..n][..k] == run[..k]; }
      }
      StaysUntouched(c, run[..n], id);
      if run[n].Decide? { assert !DecidesAt(c, run, n, run[n].w, id); }
      StepUntouched(c, After(c, run[..n]).value, run[n], id);
    }
  }

  lemma StepUntouched(c: Config, s: State, e: Event, id: nat)
    requires Untouched(s, id) && Enabled(c, s, e)
    requires e.Decide? ==> s.workers[e.w].job.id != id
    ensures Untouched(Apply(c, s, e), id)
  {
  }

  lemma StepHandsBack(c: Config, s: State, e: Event, id: nat)
    requires HandedBack(s, id) && Enabled(c, s, e) && Inv(c, s) && id < |c.skips|
    ensures HandedBack(Apply(c, s, e), id)
  {
    if e.Decide? { assert WorkerOk(c, s, s.workers[e.w]); }
    hide Inv;
  }

  lemma {:induction false} StaysHandedBack(c: Config, run: seq<Event>, m: nat, id: nat)
    requires After(c, run).Some? && m < |run| && run[m] == Interrupt && id < |c.skips|
    requires forall n: nat, w: nat :: n < m ==> !DecidesAt(c, run, n, w, id)
    ensures HandedBack(After(c, run).value, id)
  {
    var n := |run| - 1;
    forall k: nat, w: nat | k < m
      ensures !DecidesAt(c, run[..n], k, w, id)
    {
      assert !DecidesAt(c, run, k, w, id);
      assert run[..n][..k] == run[..k];
    }
    if m < n {
      StaysHandedBack(c, run[..n], m, id);
      EveryRunInv(c, run[..n]);
      StepHandsBack(c, After(c, run[..n]).value, run[n], id);
    } else {
      StaysUntouched(c, run[..n], id);
    }
  }

  /**
   * A test that no worker had decided on when an interrupt came is never run, is collected marked as a break, and
   * makes the exit status 1.
   */
  lemma InterruptedIsNotRun(c: Config, run: seq<Event>, m: nat, id: nat)
    requires c.Valid() && After(c, run).Some? && Done(c, After(c, run).value)
    requires m < |run| && run[m] == Interrupt && id < |c.skips|
    requires forall n: nat, w: nat :: n < m ==> !DecidesAt(c, run, n, w, id)
    ensures var s := After(c, run).value;
            && (exists k :: 0 <= k < |s.collected| && s.collected[k].id == id && s.collected[k].isBreak)
            && (forall n: nat, w: nat, r: int :: !EndsAt(c, run, n, w, id, r))
            && ExitStatus(s) == 1
  {
    var s := After(c, run).value;
    TheEnd(c, run);
    StaysHandedBack(c, run, m, id);
    assert WasCollected(s, id);
    var k :| 0 <= k < |s.collected| && s.collected[k].id == id;
    CollectedIsSettled(c, run, k);
    assert s.collected[k].isBreak;
    hide After, EndsAt;
  }
}
