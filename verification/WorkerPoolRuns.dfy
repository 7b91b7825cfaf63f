/** A run of a pool with minimum 1 and maximum 2 that falls below the minimum. */
module WorkerPoolRuns {
  import opened Types
  import opened WorkerPool
  import opened WorkerPoolBounds

  /** One place in the queue, one worker at least and two at most. */
  const SMALL: Config := Config(1, 1, 2)

  /** No marker is queued whenever the adjuster ticks, loads the counter, or decides. */
  ghost predicate NoneQueued(c: Config, init: State, steps: seq<Step>) {
    steps == [] ||
    (var last := |steps| - 1;
     NoneQueued(c, init, steps[..last]) &&
     (Run(c, init, steps[..last]).Some? && (steps[last].Tick? || steps[last].LoadWorkers? || steps[last].Decide?) ==>
        Nils(Run(c, init, steps[..last]).value.flow.queue) == 0))
  }

  predicate Moves(s: State, step: Step, s': State) {
    Enabled(SMALL, s, step) && !step.Cancel? && Apply(SMALL, s, step) == s'
  }

  // ---------------------------------------------------------------- below the minimum

  /** Two workers, no submitter. */
  function Pair(queue: seq<Item>, workers: int, first: WorkerPc, second: WorkerPc, a: AdjustPc): State {
    State(Flow(queue, [], []), Crew(workers, 0, map[0 := first, 1 := second], [], {}), Desk(map[], {}, {}, 0), a, false)
  }

  ghost predicate Reaches(steps: seq<Step>, s: State) {
    Run(SMALL, Init(2, 0), steps) == Some(s) && NoneQueued(SMALL, Init(2, 0), steps) && Cancel !in steps
  }

  lemma Reach(steps: seq<Step>, s: State, step: Step, s': State)
    requires Reaches(steps, s) && Moves(s, step, s')
    requires step.Tick? || step.LoadWorkers? || step.Decide? ==> Nils(s.flow.queue) == 0
    ensures Reaches(steps + [step], s')
  {
    hide Enabled, Apply, Init, Run, Nils;
    Extend(SMALL, Init(2, 0), steps, s, step);
    assert (steps + [step])[..|steps|] == steps;
  }

  lemma PairTakes(second: WorkerPc)
    ensures Moves(Pair([Nil], 2, Waiting, second, Shrinking(0)), Take(0), Pair([], 2, Leaving, second, Shrinking(0)))
  {
    hide SubmitStep, AdjustStep;
    assert [Nil][1..] == [];
    assert map[0 := Waiting, 1 := second][0 := Leaving] == map[0 := Leaving, 1 := second];
  }

  lemma OtherTakes(first: WorkerPc)
    ensures Moves(Pair([Nil], 2, first, Waiting, Shrinking(0)), Take(1), Pair([], 2, first, Leaving, Shrinking(0)))
  {
    hide SubmitStep, AdjustStep;
    assert [Nil][1..] == [];
    assert map[0 := first, 1 := Waiting][1 := Leaving] == map[0 := first, 1 := Leaving];
  }

  lemma PairLeaves()
    ensures Moves(Pair([], 2, Leaving, Leaving, Shrinking(0)), Decrement(0), Pair([], 1, Gone, Leaving, Shrinking(0)))
    ensures Moves(Pair([], 1, Gone, Leaving, Shrinking(0)), Decrement(1), Pair([], 0, Gone, Gone, Shrinking(0)))
  {
    hide SubmitStep, AdjustStep;
    assert map[0 := Leaving, 1 := Leaving][0 := Gone] == map[0 := Gone, 1 := Leaving];
    assert map[0 := Gone, 1 := Leaving][1 := Gone] == map[0 := Gone, 1 := Gone];
  }

  lemma PairLoads(first: WorkerPc) returns (out: int)
    ensures var s := Pair([], 2, first, Waiting, Resting);
            && Moves(s, Tick, s.(adjuster := GotLength(0)))
            && Moves(s.(adjuster := GotLength(0)), LoadWorkers, s.(adjuster := GotWorkers(0, 2, out, 0)))
  {
    hide SubmitStep, WorkerStep, Extra, Where, Nils, GrowWanted, ShrinkWanted;
    out := Outstanding(Pair([], 2, first, Waiting, Resting));
  }

  lemma PairPushes(first: WorkerPc, out: int)
    ensures var s := Pair([], 2, first, Waiting, Resting);
            && Moves(s.(adjuster := GotWorkers(0, 2, out, 0)), Decide, s.(adjuster := Shrinking(1)))
            && Moves(s.(adjuster := Shrinking(1)), Push, Pair([Nil], 2, first, Waiting, Shrinking(0)))
  {
    hide SubmitStep, WorkerStep, Extra, Where, Nils;
    assert [] + [Nil] == [Nil];
  }

  lemma PairRests(first: WorkerPc)
    ensures var s := Pair([], 2, first, Waiting, Resting);
            Moves(s.(adjuster := Shrinking(0)), Rest, s)
  {
    hide SubmitStep, WorkerStep;
  }

  /** The adjuster sees two workers and an empty queue, and queues a marker. */
  lemma Shrunk(before: seq<Step>, first: WorkerPc) returns (steps: seq<Step>)
    requires Reaches(before, Pair([], 2, first, Waiting, Resting))
    ensures Reaches(steps, Pair([Nil], 2, first, Waiting, Shrinking(0)))
  {
    assert Nils([]) == 0;
    hide Reaches, Enabled, Apply, Where, Nils;
    var out := PairLoads(first);
    PairPushes(first, out);
    var s := Pair([], 2, first, Waiting, Resting);
    Reach(before, s, Tick, s.(adjuster := GotLength(0)));
    Reach(before + [Tick], s.(adjuster := GotLength(0)), LoadWorkers, s.(adjuster := GotWorkers(0, 2, out, 0)));
    Reach(before + [Tick] + [LoadWorkers], s.(adjuster := GotWorkers(0, 2, out, 0)), Decide,
          s.(adjuster := Shrinking(1)));
    Reach(before + [Tick] + [LoadWorkers] + [Decide], s.(adjuster := Shrinking(1)), Push,
          Pair([Nil], 2, first, Waiting, Shrinking(0)));
    steps := before + [Tick] + [LoadWorkers] + [Decide] + [Push];
  }

  lemma StartsPaired()
    ensures Reaches([], Pair([], 2, Waiting, Waiting, Resting))
  {
    assert Idle(1) == map[0 := Waiting] && Idle(2) == map[0 := Waiting, 1 := Waiting];
    assert Init(2, 0) == Pair([], 2, Waiting, Waiting, Resting);
  }

  lemma TwoShrinks() returns (steps: seq<Step>)
    ensures Reaches(steps, Pair([Nil], 2, Leaving, Waiting, Shrinking(0)))
  {
    hide Reaches, Enabled, Apply;
    StartsPaired();
    var once := Shrunk([], Waiting);
    var s := Pair([Nil], 2, Waiting, Waiting, Shrinking(0));
    var t := Pair([], 2, Leaving, Waiting, Shrinking(0));
    PairTakes(Waiting);
    Reach(once, s, Take(0), t);
    PairRests(Leaving);
    Reach(once + [Take(0)], t, Rest, t.(adjuster := Resting));
    steps := Shrunk(once + [Take(0)] + [Rest], Leaving);
  }

  lemma BothLeave() returns (steps: seq<Step>)
    ensures Reaches(steps, Pair([], 0, Gone, Gone, Shrinking(0)))
  {
    hide Reaches, Enabled, Apply;
    var twice := TwoShrinks();
    OtherTakes(Leaving);
    PairLeaves();
    var t := Pair([], 2, Leaving, Leaving, Shrinking(0));
    var u := Pair([], 1, Gone, Leaving, Shrinking(0));
    Reach(twice, Pair([Nil], 2, Leaving, Waiting, Shrinking(0)), Take(1), t);
    Reach(twice + [Take(1)], t, Decrement(0), u);
    Reach(twice + [Take(1)] + [Decrement(0)], u, Decrement(1), Pair([], 0, Gone, Gone, Shrinking(0)));
    steps := twice + [Take(1)] + [Decrement(0)] + [Decrement(1)];
  }

  /** A count that includes a worker that has taken its marker but not yet left is enough to
      shrink too far: a pool with minimum 1 is left with no worker at all, although no marker
      was queued whenever a shrink began. */
  lemma FloorNeedsMore() returns (steps: seq<Step>, s: State)
    ensures Run(SMALL, Init(2, 0), steps) == Some(s) && Cancel !in steps
    ensures NoneQueued(SMALL, Init(2, 0), steps)
    ensures s.crew.workers == 0 < SMALL.minWorkers
  {
    steps := BothLeave();
    s := Pair([], 0, Gone, Gone, Shrinking(0));
  }
}
