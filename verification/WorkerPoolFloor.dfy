/** When shrinking keeps the worker pool at or above its minimum: exactly when no shrink
    decides on a count that still includes more workers already on their way out than have
    been spawned since. */
module WorkerPoolFloor {
  import opened Types
  import opened WorkerPool
  import opened WorkerPoolBounds

  /** Markers the adjuster has still to push. */
  function Left(a: AdjustPc): nat { if a.Shrinking? then a.left else 0 }

  /** The workers that stay once every marker decided on has been acted on. */
  function Staying(s: State): int {
    var t := Of(s);
    t.workers - t.leaving - t.nils - Left(s.adjuster)
  }

  /** While the adjuster is about to decide, the number it has loaded differs from the workers
      that stay by what was outstanding then and what has been spawned since. */
  predicate LoadInv(s: State) {
    s.adjuster.GotWorkers? ==>
      Staying(s) == s.adjuster.current - s.adjuster.outstanding + s.adjuster.spawned
  }

  lemma StayingStep(c: Config, s: State, step: Step)
    requires Enabled(c, s, step) && !s.cancelled && LoadInv(s)
    ensures LoadInv(Apply(c, s, step))
    ensures if Shrinks(c, s, step) && !GrowWanted(c, s.adjuster.length, s.adjuster.current)
            then Staying(Apply(c, s, step)) == c.minWorkers - s.adjuster.outstanding + s.adjuster.spawned
            else Staying(Apply(c, s, step)) >= Staying(s)
  {
    hide Enabled, Apply, Where, Nils, Extra, GrowWanted, ShrinkWanted;
    TallyStep(c, s, step);
    AdjusterStep(c, s, step);
    EnabledMeans(c, s, step);
    if Shrinks(c, s, step) {
      NotBoth(c, s.adjuster.length, s.adjuster.current, s.crew.active);
    }
  }

  lemma NotBoth(c: Config, length: nat, current: int, active: int)
    requires ShrinkWanted(c, length, current, active)
    ensures !GrowWanted(c, length, current) && current > c.minWorkers
  {
  }

  /** Every decision to shrink is taken on a load whose outstanding markers have been made up
      for by workers spawned since. */
  ghost predicate Guarded(c: Config, init: State, steps: seq<Step>) {
    steps == [] ||
    (var last := |steps| - 1;
     Guarded(c, init, steps[..last]) &&
     (Run(c, init, steps[..last]).Some? && Shrinks(c, Run(c, init, steps[..last]).value, steps[last]) ==>
        Run(c, init, steps[..last]).value.adjuster.outstanding <= Run(c, init, steps[..last]).value.adjuster.spawned))
  }

  /** In every state of the run at least minWorkers workers stay. */
  ghost predicate FloorKept(c: Config, init: State, steps: seq<Step>) {
    && (steps != [] ==> FloorKept(c, init, steps[..|steps| - 1]))
    && (Run(c, init, steps).Some? ==> Staying(Run(c, init, steps).value) >= c.minWorkers)
  }

  lemma InitStays(n: nat, k: nat)
    ensures Staying(Init(n, k)) == n && !Init(n, k).cancelled && LoadInv(Init(n, k))
  {
    InitTally(n, k);
  }

  lemma CancelStep(c: Config, s: State, step: Step)
    requires Enabled(c, s, step)
    ensures Apply(c, s, step).cancelled == (s.cancelled || step.Cancel?)
  {
    AdjusterStep(c, s, step);
  }

  lemma {:induction false} RunLoads(c: Config, n: nat, k: nat, steps: seq<Step>)
    requires Cancel !in steps
    ensures Run(c, Init(n, k), steps).Some? ==>
              !Run(c, Init(n, k), steps).value.cancelled && LoadInv(Run(c, Init(n, k), steps).value)
  {
    hide Enabled, Apply, Init, LoadInv;
    if steps == [] {
      InitStays(n, k);
    } else {
      var last := |steps| - 1;
      RunLoads(c, n, k, steps[..last]);
      if Run(c, Init(n, k), steps).Some? {
        var s := Run(c, Init(n, k), steps[..last]).value;
        StayingStep(c, s, steps[last]);
        CancelStep(c, s, steps[last]);
      }
    }
  }

  /** In runs without cancellation from at least minWorkers workers, the workers less those
      with a marker, the markers queued and the markers still to be pushed never fall below
      minWorkers if and only if no shrink was decided on with more markers outstanding at its
      load than workers spawned since. */
  lemma {:induction false} FloorExactly(c: Config, n: nat, k: nat, steps: seq<Step>)
    requires n >= c.minWorkers && Cancel !in steps
    requires Run(c, Init(n, k), steps).Some?
    ensures FloorKept(c, Init(n, k), steps) <==> Guarded(c, Init(n, k), steps)
  {
    hide Enabled, Apply, Init, LoadInv, Shrinks, GrowWanted, ShrinkWanted, Staying;
    var init := Init(n, k);
    if steps == [] {
      InitStays(n, k);
    } else {
      var last := |steps| - 1;
      var s := Run(c, init, steps[..last]).value;
      FloorExactly(c, n, k, steps[..last]);
      RunLoads(c, n, k, steps[..last]);
      StayingStep(c, s, steps[last]);
      FloorEnds(c, init, steps[..last]);
      if Shrinks(c, s, steps[last]) {
        ShrinkMeans(c, s, steps[last]);
      }
    }
  }

  lemma ShrinkMeans(c: Config, s: State, step: Step)
    requires Shrinks(c, s, step)
    ensures !GrowWanted(c, s.adjuster.length, s.adjuster.current)
  {
  }

  lemma FloorEnds(c: Config, init: State, steps: seq<Step>)
    requires Run(c, init, steps).Some?
    ensures FloorKept(c, init, steps) ==> Staying(Run(c, init, steps).value) >= c.minWorkers
  {
  }

  /** Under that condition the pool never has fewer than minWorkers workers, and by more than
      the markers that are still under way. */
  lemma MinimumKept(c: Config, n: nat, k: nat, steps: seq<Step>, s: State)
    requires n >= c.minWorkers && Cancel !in steps
    requires Run(c, Init(n, k), steps) == Some(s) && Guarded(c, Init(n, k), steps)
    ensures s.crew.workers >= c.minWorkers + Outstanding(s) + Left(s.adjuster)
    ensures s.crew.workers >= c.minWorkers
  {
    hide Enabled, Apply, Init, Where;
    FloorExactly(c, n, k, steps);
    FloorEnds(c, Init(n, k), steps);
  }

  // ---------------------------------------------------------------- the worker count itself

  /** A step that neither decides on more markers nor cancels. */
  predicate ActsOut(step: Step) { !step.Decide? && !step.Cancel? }

  /** No continuation of the run, or of a part of it, that decides on no more markers ever has
      fewer than minWorkers workers. */
  ghost predicate Sustained(c: Config, init: State, steps: seq<Step>) {
    forall i, more :: 0 <= i <= |steps| && (forall step :: step in more ==> ActsOut(step)) ==>
      Run(c, init, steps[..i] + more).Some? ==> Run(c, init, steps[..i] + more).value.crew.workers >= c.minWorkers
  }

  predicate IsReceived(pc: WorkerPc) { pc.Received? }
  predicate IsRunning(pc: WorkerPc) { pc.Running? }
  predicate IsReturning(pc: WorkerPc) { pc.Returning? }

  /** How far the workers are from waiting or being gone. */
  function Effort(pcs: map<Worker, WorkerPc>): nat {
    3 * |Where(pcs, IsReceived)| + 2 * |Where(pcs, IsRunning)| + |Where(pcs, IsReturning)| + |Where(pcs, IsLeaving)|
  }

  function Weight(pc: WorkerPc): nat {
    match pc case Received(_) => 3 case Running(_) => 2 case Returning(_) => 1 case Leaving => 1 case _ => 0
  }

  lemma EffortMoves(pcs: map<Worker, WorkerPc>, w: Worker, pc: WorkerPc)
    requires w in pcs
    ensures Effort(pcs[w := pc]) == Effort(pcs) + Weight(pc) - Weight(pcs[w])
  {
    hide Where;
    WhereUpdate(pcs, IsReceived, w, pc);
    WhereUpdate(pcs, IsRunning, w, pc);
    WhereUpdate(pcs, IsReturning, w, pc);
    WhereUpdate(pcs, IsLeaving, w, pc);
  }

  /** Everything that is left to be done until every marker has been acted on. */
  function Work(s: State): nat { Effort(s.crew.pcs) + 4 * |s.flow.queue| + 2 * Left(s.adjuster) }

  /** The steps that act markers out. */
  predicate Drains(step: Step) {
    step.Decrement? || step.Begin? || step.Finish? || step.End? || step.Take? || step.HandNil?
  }

  lemma DrainStep(c: Config, s: State, step: Step)
    requires Enabled(c, s, step) && Drains(step) && CountInv(Of(s))
    ensures Staying(Apply(c, s, step)) == Staying(s) && CountInv(Of(Apply(c, s, step)))
  {
    hide Enabled, Apply, Where, Nils, Extra, GrowWanted, ShrinkWanted;
    TallyStep(c, s, step);
    AdjusterStep(c, s, step);
    EnabledMeans(c, s, step);
  }

  lemma WorkShrinks(c: Config, s: State, step: Step)
    requires Enabled(c, s, step) && Drains(step)
    ensures Work(Apply(c, s, step)) < Work(s)
  {
    hide Effort, SubmitStep, Extra, GrowWanted, ShrinkWanted, Nils, Where;
    EffortMoves(s.crew.pcs, step.w, Apply(c, s, step).crew.pcs[step.w]);
  }

  lemma NoNils(queue: seq<Item>)
    requires queue == []
    ensures Nils(queue) == 0
  {
  }

  /** While more markers than the minimum bears are under way, one of them can be acted on, or
      somebody can come closer to doing so. */
  lemma SomebodyDrains(c: Config, s: State) returns (step: Step)
    requires CountInv(Of(s)) && Staying(s) < c.minWorkers <= s.crew.workers && c.minWorkers > 0
    ensures Drains(step) && Enabled(c, s, step)
  {
    hide Nils;
    var pcs := s.crew.pcs;
    if w :| w in pcs && pcs[w].Leaving? {
      step := Decrement(w);
    } else if w :| w in pcs && pcs[w].Received? {
      step := Begin(w);
    } else if w :| w in pcs && pcs[w].Running? {
      step := Finish(w);
    } else if w :| w in pcs && pcs[w].Returning? {
      step := End(w);
    } else {
      assert Where(pcs, IsLeaving) == {};
      assert Where(pcs, IsLive) != {};
      var w :| w in Where(pcs, IsLive);
      assert pcs[w] == Waiting;
      if s.flow.queue != [] {
        step := Take(w);
      } else {
        NoNils(s.flow.queue);
        step := HandNil(w);
      }
    }
  }

  /** Once fewer than minWorkers workers stay, acting out the markers decided on takes the pool
      below its minimum. */
  lemma {:induction false} Drain(c: Config, init: State, steps: seq<Step>, s: State)
    returns (more: seq<Step>, s': State)
    requires Run(c, init, steps) == Some(s) && CountInv(Of(s))
    requires Staying(s) < c.minWorkers && c.minWorkers > 0
    ensures Run(c, init, steps + more) == Some(s') && forall step :: step in more ==> ActsOut(step)
    ensures s'.crew.workers < c.minWorkers
    decreases Work(s)
  {
    hide Enabled, Apply, Staying, Work, Of;
    if s.crew.workers < c.minWorkers {
      more, s' := [], s;
      Regroup(steps, [], []);
    } else {
      var step := SomebodyDrains(c, s);
      DrainStep(c, s, step);
      WorkShrinks(c, s, step);
      Extend(c, init, steps, s, step);
      var rest;
      rest, s' := Drain(c, init, steps + [step], Apply(c, s, step));
      more := [step] + rest;
      Regroup(steps, [step], rest);
    }
  }

  /** The first state in which too few workers stay. */
  lemma {:induction false} BelowFloor(c: Config, init: State, steps: seq<Step>) returns (i: nat)
    requires !FloorKept(c, init, steps)
    ensures i <= |steps| && Run(c, init, steps[..i]).Some?
    ensures Staying(Run(c, init, steps[..i]).value) < c.minWorkers
  {
    hide Enabled, Apply, Staying;
    if steps != [] && !FloorKept(c, init, steps[..|steps| - 1]) {
      i := BelowFloor(c, init, steps[..|steps| - 1]);
      assert steps[..|steps| - 1][..i] == steps[..i];
    } else {
      i := |steps|;
      assert steps[..i] == steps;
    }
  }

  lemma {:induction false} GuardedPart(c: Config, init: State, steps: seq<Step>, i: nat)
    requires Guarded(c, init, steps) && i <= |steps|
    ensures Guarded(c, init, steps[..i])
  {
    if i < |steps| {
      GuardedPart(c, init, steps[..|steps| - 1], i);
      assert steps[..|steps| - 1][..i] == steps[..i];
    } else {
      assert steps[..i] == steps;
    }
  }

  lemma {:induction false} GuardedLonger(c: Config, init: State, steps: seq<Step>, more: seq<Step>)
    requires Guarded(c, init, steps) && forall step :: step in more ==> ActsOut(step)
    ensures Guarded(c, init, steps + more)
    decreases |more|
  {
    hide Enabled, Apply;
    if more == [] {
      assert steps + more == steps;
    } else {
      var last := |more| - 1;
      assert (steps + more)[..|steps| + last] == steps + more[..last];
      assert more[last] in more;
      GuardedLonger(c, init, steps, more[..last]);
    }
  }

  /** In runs without cancellation from at least minWorkers workers: the pool never falls below
      minWorkers, however the markers a run has decided on are acted out, if and only if the
      minimum is 0 or no shrink was decided on with more markers outstanding at its load than
      workers spawned since. */
  lemma MinimumExactly(c: Config, n: nat, k: nat, steps: seq<Step>)
    requires n >= c.minWorkers && Cancel !in steps
    requires Run(c, Init(n, k), steps).Some?
    ensures Sustained(c, Init(n, k), steps) <==> c.minWorkers == 0 || Guarded(c, Init(n, k), steps)
  {
    hide Enabled, Apply, Init, Run, Guarded, Staying, Where, Of;
    var init := Init(n, k);
    if c.minWorkers == 0 || Guarded(c, init, steps) {
      forall i, more | 0 <= i <= |steps| && (forall step :: step in more ==> ActsOut(step))
                       && Run(c, init, steps[..i] + more).Some?
        ensures Run(c, init, steps[..i] + more).value.crew.workers >= c.minWorkers
      {
        KeptLonger(c, n, k, steps, i, more);
      }
    } else {
      FloorExactly(c, n, k, steps);
      var i := BelowFloor(c, init, steps);
      RunCounts(c, n, k, steps[..i]);
      var more, s' := Drain(c, init, steps[..i], Run(c, init, steps[..i]).value);
      assert Run(c, init, steps[..i] + more).value.crew.workers < c.minWorkers;
    }
  }

  lemma KeptLonger(c: Config, n: nat, k: nat, steps: seq<Step>, i: nat, more: seq<Step>)
    requires n >= c.minWorkers && Cancel !in steps && i <= |steps|
    requires forall step :: step in more ==> ActsOut(step)
    requires c.minWorkers == 0 || Guarded(c, Init(n, k), steps)
    requires Run(c, Init(n, k), steps[..i] + more).Some?
    ensures Run(c, Init(n, k), steps[..i] + more).value.crew.workers >= c.minWorkers
  {
    hide Enabled, Apply, Init, Run, Guarded, Where;
    var s := Run(c, Init(n, k), steps[..i] + more).value;
    if c.minWorkers == 0 {
      CountersExact(c, n, k, steps[..i] + more, s);
    } else {
      GuardedPart(c, Init(n, k), steps, i);
      GuardedLonger(c, Init(n, k), steps[..i], more);
      MinimumKept(c, n, k, steps[..i] + more, s);
    }
  }
}
