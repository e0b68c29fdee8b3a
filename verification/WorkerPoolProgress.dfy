/** The worker pool always gets to its end, and what holds there. */
module WorkerPoolProgress {
  import opened WorkerPool
  import opened WorkerPoolSafety

  // ----- No state is stuck

  predicate IsStep(e: Event) {
    !e.Interrupt?
  }

  /** A step some worker can take, unless all of them are idle at an empty queue or have exited. */
  lemma WorkerStep(c: Config, s: State, w: nat) returns (e: Event)
    requires w < |s.workers| && !s.workers[w].Exited? && !(s.workers[w].Idle? && s.input == [])
    ensures IsStep(e) && Enabled(c, s, e)
  {
    match s.workers[w]
    case Idle => e := Get(w);
    case Holding(_) => e := Decide(w);
    case Running(_) => e := Finish(w, 0);
    case Ready(_) => e := Put(w);
  }

  /** When every worker holds a break job, the input queue is empty and all tests have come back. */
  lemma AllBreaksOut(c: Config, s: State)
    requires c.Valid() && Inv(c, s) && s.dispatched == |c.skips| && s.breaksPut == c.processors
    ensures s.input == [] <==> Sum(s.workers, HasBreak(c)) == c.processors
    ensures s.input == [] ==> Sum(s.workers, HasTest(c)) == 0
  {
    var f, g := HasTest(c), HasBreak(c);
    SumAtMost(s.workers, f);
    SumAtMost(s.workers, g);
    if s.input == [] {
      forall w | 0 <= w < |s.workers|
        ensures f(s.workers[w]) == 0
      {
        assert g(s.workers[w]) == 1;
      }
    }
  }

  lemma NotStuck(c: Config, s: State) returns (e: Event)
    requires c.Valid() && Inv(c, s) && !Done(c, s)
    ensures IsStep(e) && Enabled(c, s, e)
  {
    if s.dispatched < |c.skips| {
      e := Dispatch;
    } else if s.breaksPut < c.processors {
      e := SendBreak;
    } else if |s.collected| < |c.skips| && s.output != [] {
      e := Collect;
    } else if |s.collected| == |c.skips| && s.workers[s.joined].Exited? {
      e := Join;
    } else {
      AllBreaksOut(c, s);
      SumAtMost(s.workers, HasBreak(c));
      if |s.collected| == |c.skips| {
        var w := s.joined;
        if s.input == [] { assert HasBreak(c)(s.workers[w]) == 1; }
        e := WorkerStep(c, s, w);
      } else {
        assert s.input != [];
        var w :| 0 <= w < |s.workers| && HasBreak(c)(s.workers[w]) != 1;
        assert WorkerOk(c, s, s.workers[w]);
        e := WorkerStep(c, s, w);
      }
    }
  }

  // ----- And every step brings the end closer

  function Weight(w: Worker): nat {
    match w
    case Idle => 0
    case Holding(_) => 4
    case Running(_) => 3
    case Ready(_) => 2
    case Exited(_) => 0
  }

  /** An upper bound on the number of steps still to come, interrupts aside. */
  ghost function StepsLeft(c: Config, s: State): int {
    6 * (|c.skips| - s.dispatched) + 6 * (c.processors - s.breaksPut) + 5 * |s.input| +
    Sum(s.workers, Weight) + |s.output| + (c.processors - s.joined)
  }

  lemma StepsFall(c: Config, s: State, e: Event)
    requires Shape(c, s) && Enabled(c, s, e)
    ensures if IsStep(e) then StepsLeft(c, Apply(c, s, e)) < StepsLeft(c, s)
            else StepsLeft(c, Apply(c, s, e)) == StepsLeft(c, s)
  {
    hide Shape;
    if e.Get? || e.Decide? || e.Finish? || e.Put? {
      SumUpdate(s.workers, e.w, Apply(c, s, e).workers[e.w], Weight);
    }
  }

  function Steps(run: seq<Event>): nat {
    if run == [] then 0 else Steps(run[..|run| - 1]) + if IsStep(run[|run| - 1]) then 1 else 0
  }

  /** However the threads are scheduled, a run has at most 6T + 7N steps. */
  lemma {:induction false} RunsAreShort(c: Config, run: seq<Event>)
    requires After(c, run).Some?
    ensures StepsLeft(c, After(c, run).value) >= 0
    ensures Steps(run) + StepsLeft(c, After(c, run).value) <= 6 * |c.skips| + 7 * c.processors
  {
    EveryRunInv(c, run);
    if run == [] {
      SumIdle(c.processors, Weight);
    } else {
      var n := |run| - 1;
      RunsAreShort(c, run[..n]);
      EveryRunInv(c, run[..n]);
      StepsFall(c, After(c, run[..n]).value, run[n]);
    }
  }

  /** A run that is not done can go on, so a run as long as can be is done. */
  lemma RunsReachTheEnd(c: Config, run: seq<Event>)
    requires c.Valid() && After(c, run).Some?
    ensures Done(c, After(c, run).value) || exists e :: IsStep(e) && After(c, run + [e]).Some?
  {
    EveryRunInv(c, run);
    if !Done(c, After(c, run).value) {
      var e := NotStuck(c, After(c, run).value);
      assert (run + [e])[..|run|] == run;
    }
  }

  // ----- What the end looks like

  predicate WasCollected(s: State, id: nat) {
    exists k :: 0 <= k < |s.collected| && s.collected[k].id == id
  }

  lemma NothingLeft(c: Config, s: State)
    requires c.Valid() && Inv(c, s) && Done(c, s)
    ensures s.dispatched == |c.skips| && s.breaksPut == c.processors && s.input == [] && s.output == []
    ensures forall w :: 0 <= w < |s.workers| ==> s.workers[w].Exited? && s.workers[w].job.id >= |c.skips|
  {
    forall w | 0 <= w < |s.workers|
      ensures s.workers[w].Exited? && s.workers[w].job.id >= |c.skips|
    {
      assert WorkerOk(c, s, s.workers[w]);
    }
    SumAtMost(s.workers, HasBreak(c));
    SumAtMost(s.workers, HasTest(c));
  }

  /** Every test is collected, none twice, and no two workers exit on the same break job. */
  lemma OnceEach(c: Config, s: State)
    requires c.Valid() && Inv(c, s) && Done(c, s)
    ensures forall id: nat :: id < |c.skips| ==> WasCollected(s, id)
    ensures forall i, j :: 0 <= i < j < |s.collected| ==> s.collected[i].id != s.collected[j].id
    ensures forall w :: 0 <= w < |s.workers| ==> s.workers[w].Exited?
    ensures forall v, w :: 0 <= v < w < |s.workers| ==> s.workers[v].job.id != s.workers[w].job.id
  {
    NothingLeft(c, s);
    forall id: nat | id < |c.skips|
      ensures WasCollected(s, id)
    {
      assert Places(s, id) == 1;
      SumAtMost(s.workers, InHand(id));
      SumAtMost(s.collected, HasId(id));
    }
    forall i, j | 0 <= i < j < |s.collected|
      ensures s.collected[i].id != s.collected[j].id
    {
      var id := s.collected[i].id;
      assert Places(s, id) <= 1;
      SumOfTwo(s.collected, i, j, HasId(id));
    }
    forall v, w | 0 <= v < w < |s.workers|
      ensures s.workers[v].job.id != s.workers[w].job.id
    {
      var id := s.workers[v].job.id;
      assert Places(s, id) <= 1;
      SumOfTwo(s.workers, v, w, InHand(id));
    }
  }

  /**
   * At the end no job is left on a queue, every test was collected exactly once, every worker has exited on
   * a break job of its own, the counters add up, and 0 is returned iff every test passed or was skipped.
   */
  lemma TheEnd(c: Config, run: seq<Event>)
    requires c.Valid() && After(c, run).Some? && Done(c, After(c, run).value)
    ensures var s := After(c, run).value;
            && s.input == [] && s.output == []
            && s.dispatched == |c.skips| == |s.collected|
            && (forall id: nat :: id < |c.skips| ==> WasCollected(s, id))
            && (forall i, j :: 0 <= i < j < |s.collected| ==> s.collected[i].id != s.collected[j].id)
            && (forall k :: 0 <= k < |s.collected| ==> Returned(c, s, s.collected[k]))
            && (forall w :: 0 <= w < |s.workers| ==> s.workers[w].Exited? && s.workers[w].job.id >= |c.skips|)
            && (forall v, w :: 0 <= v < w < |s.workers| ==> s.workers[v].job.id != s.workers[w].job.id)
            && var t := s.tally;
               t.passed + t.failed + t.valgrind + t.crashed + t.skipped + Interrupted(s.collected) == |c.skips|
    ensures ExitStatus(After(c, run).value) == 0 <==> AllOk(After(c, run).value.collected)
  {
    var s := After(c, run).value;
    EveryRunInv(c, run);
    NothingLeft(c, s);
    OnceEach(c, s);
    TallyAddsUp(s.collected);
  }
}
