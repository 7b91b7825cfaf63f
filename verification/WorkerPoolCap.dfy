/** When maxWorkers is a maximum: exactly when every step that commits to spawning workers
    finds room for them. */
module WorkerPoolCap {
  import opened Types
  import opened WorkerPool
  import opened WorkerPoolBounds

  /** Workers the adjuster has decided to add and not yet added. */
  function ToAdd(a: AdjustPc): nat { if a.Growing? then a.left else 0 }

  /** The workers there are once everyone committed to spawning one has done so. */
  function Committed(s: State): int {
    var t := Of(s);
    t.workers + t.spawning + ToAdd(s.adjuster)
  }

  /** The workers a step commits to spawning: one for a load below the maximum, all that are
      missing for a decision to grow. */
  function Commits(c: Config, s: State, step: Step): nat {
    match step
    case Load(_) => if s.crew.workers < c.maxWorkers then 1 else 0
    case Decide =>
      if s.adjuster.GotWorkers? && GrowWanted(c, s.adjuster.length, s.adjuster.current)
      then Extra(c, s.adjuster.current) else 0
    case _ => 0
  }

  lemma CommittedStep(c: Config, s: State, step: Step)
    requires Enabled(c, s, step)
    ensures Committed(Apply(c, s, step)) == Committed(s) + Commits(c, s, step) - if step.Decrement? then 1 else 0
  {
    hide Enabled, Apply, Where, Nils, Extra, GrowWanted, ShrinkWanted;
    TallyStep(c, s, step);
    AdjusterStep(c, s, step);
    EnabledMeans(c, s, step);
  }

  /** Every step of the run that commits to spawning workers finds room for them. */
  ghost predicate Roomy(c: Config, init: State, steps: seq<Step>) {
    steps == [] ||
    (var last := |steps| - 1;
     Roomy(c, init, steps[..last]) &&
     (Run(c, init, steps[..last]).Some? ==>
        var s := Run(c, init, steps[..last]).value;
        Commits(c, s, steps[last]) > 0 ==> Committed(s) + Commits(c, s, steps[last]) <= c.maxWorkers))
  }

  /** A step that commits to nothing. */
  predicate Fulfils(step: Step) { !step.Load? && !step.Decide? }

  /** No continuation of the run, or of a part of it, that commits to no more workers ever has
      more than maxWorkers. */
  ghost predicate Capped(c: Config, init: State, steps: seq<Step>) {
    forall i, more :: 0 <= i <= |steps| && (forall step :: step in more ==> Fulfils(step)) ==>
      Run(c, init, steps[..i] + more).Some? ==> Run(c, init, steps[..i] + more).value.crew.workers <= c.maxWorkers
  }

  lemma CommittedStarts(n: nat, k: nat)
    ensures Committed(Init(n, k)) == n
  {
    InitTally(n, k);
  }

  lemma {:induction false} RunDefined(c: Config, init: State, steps: seq<Step>, i: nat)
    requires Run(c, init, steps).Some? && i <= |steps|
    ensures Run(c, init, steps[..i]).Some?
  {
    if i < |steps| {
      RunDefined(c, init, steps[..|steps| - 1], i);
      assert steps[..|steps| - 1][..i] == steps[..i];
    } else {
      assert steps[..i] == steps;
    }
  }

  lemma {:induction false} RoomyCommitted(c: Config, n: nat, k: nat, steps: seq<Step>, i: nat)
    requires n <= c.maxWorkers && Run(c, Init(n, k), steps).Some? && Roomy(c, Init(n, k), steps) && i <= |steps|
    ensures Run(c, Init(n, k), steps[..i]).Some?
    ensures Committed(Run(c, Init(n, k), steps[..i]).value) <= c.maxWorkers
    decreases |steps|
  {
    hide Enabled, Apply, Init, Committed, Commits;
    RunDefined(c, Init(n, k), steps, i);
    if steps == [] {
      assert steps[..i] == [];
      CommittedStarts(n, k);
    } else if i < |steps| {
      RoomyCommitted(c, n, k, steps[..|steps| - 1], i);
      assert steps[..|steps| - 1][..i] == steps[..i];
    } else {
      var last := |steps| - 1;
      RoomyCommitted(c, n, k, steps[..last], last);
      assert steps[..last][..last] == steps[..last] && steps[..i] == steps;
      CommittedStep(c, Run(c, Init(n, k), steps[..last]).value, steps[last]);
    }
  }

  lemma {:induction false} FulfilledOnly(c: Config, init: State, steps: seq<Step>, more: seq<Step>)
    requires Run(c, init, steps).Some? && Run(c, init, steps + more).Some?
    requires forall step :: step in more ==> Fulfils(step)
    ensures Committed(Run(c, init, steps + more).value) <= Committed(Run(c, init, steps).value)
    decreases |more|
  {
    hide Enabled, Apply, Committed;
    if more == [] {
      assert steps + more == steps;
    } else {
      var last := |more| - 1;
      assert (steps + more)[..|steps| + last] == steps + more[..last];
      assert more[last] in more;
      FulfilledOnly(c, init, steps, more[..last]);
      CommittedStep(c, Run(c, init, steps + more[..last]).value, more[last]);
    }
  }

  lemma WorkersCommitted(s: State)
    ensures s.crew.workers <= Committed(s)
  {
  }

  lemma {:induction false} Unused(ws: set<Worker>) returns (w: Worker)
    ensures forall v :: v in ws ==> v < w
  {
    if ws == {} {
      w := 0;
    } else {
      var v :| v in ws;
      var u := Unused(ws - {v});
      w := if u > v then u else v + 1;
      assert forall x :: x in ws ==> x == v || x in ws - {v};
    }
  }

  lemma SpawnEnabled(c: Config, s: State, i: nat, w: Worker)
    requires i in s.desk.submitters && s.desk.submitters[i].Spawning? && w !in s.crew.pcs
    ensures Enabled(c, s, Spawn(i, w))
  {
  }

  lemma GrowEnabled(c: Config, s: State, w: Worker)
    requires s.adjuster.Growing? && s.adjuster.left > 0 && w !in s.crew.pcs
    ensures Enabled(c, s, Grow(w))
  {
  }

  /** Someone committed to spawning a worker can do so at once; nothing is in the way. */
  lemma SomebodySpawns(c: Config, s: State) returns (step: Step)
    requires ToAdd(s.adjuster) > 0 || Where(s.desk.submitters, IsSpawning) != {}
    ensures Enabled(c, s, step) && Fulfils(step)
    ensures Commitments(Apply(c, s, step)) < Commitments(s)
    ensures Committed(Apply(c, s, step)) == Committed(s)
  {
    hide Enabled, Apply, Nils, Extra;
    var w := Unused(s.crew.pcs.Keys);
    if ToAdd(s.adjuster) > 0 {
      step := Grow(w);
      GrowEnabled(c, s, w);
    } else {
      var i :| i in Where(s.desk.submitters, IsSpawning);
      step := Spawn(i, w);
      SpawnEnabled(c, s, i, w);
    }
    hide Where;
    TallyStep(c, s, step);
    AdjusterStep(c, s, step);
  }

  /** How many workers are committed to and not yet there. */
  function Commitments(s: State): nat { |Where(s.desk.submitters, IsSpawning)| + ToAdd(s.adjuster) }

  lemma NobodyCommitted(s: State)
    requires ToAdd(s.adjuster) == 0 && Where(s.desk.submitters, IsSpawning) == {}
    ensures Committed(s) == s.crew.workers
  {
    hide Where;
  }

  /** The commitments of any reachable state can be carried out in full. */
  lemma {:induction false} Fulfil(c: Config, init: State, steps: seq<Step>, s: State)
    returns (more: seq<Step>, s': State)
    requires Run(c, init, steps) == Some(s)
    ensures Run(c, init, steps + more) == Some(s') && forall step :: step in more ==> Fulfils(step)
    ensures s'.crew.workers == Committed(s)
    decreases Commitments(s)
  {
    hide Enabled, Apply, Run, Commitments, Committed, Fulfils, Where;
    if ToAdd(s.adjuster) == 0 && Where(s.desk.submitters, IsSpawning) == {} {
      more, s' := [], s;
      Regroup(steps, [], []);
      NobodyCommitted(s);
    } else {
      var step := SomebodySpawns(c, s);
      Extend(c, init, steps, s, step);
      var rest;
      rest, s' := Fulfil(c, init, steps + [step], Apply(c, s, step));
      more := [step] + rest;
      Regroup(steps, [step], rest);
    }
  }

  /** The first step that finds no room. */
  lemma {:induction false} NoRoom(c: Config, n: nat, k: nat, steps: seq<Step>) returns (i: nat)
    requires Run(c, Init(n, k), steps).Some? && !Roomy(c, Init(n, k), steps)
    ensures i <= |steps| && Run(c, Init(n, k), steps[..i]).Some?
    ensures Committed(Run(c, Init(n, k), steps[..i]).value) > c.maxWorkers
  {
    hide Enabled, Apply, Init, Committed, Commits;
    var last := |steps| - 1;
    var s := Run(c, Init(n, k), steps[..last]).value;
    if Roomy(c, Init(n, k), steps[..last]) {
      CommittedStep(c, s, steps[last]);
      CommitsOnly(c, s, steps[last]);
      i := |steps|;
      assert steps[..i] == steps;
    } else {
      i := NoRoom(c, n, k, steps[..last]);
      assert steps[..last][..i] == steps[..i];
    }
  }

  lemma CommitsOnly(c: Config, s: State, step: Step)
    ensures Commits(c, s, step) > 0 ==> step.Load? || step.Decide?
  {
  }

  /** maxWorkers is never exceeded, however the spawns a run has committed to are carried out,
      if and only if every step of the run that commits to spawning workers finds room. */
  lemma CapExactly(c: Config, n: nat, k: nat, steps: seq<Step>)
    requires n <= c.maxWorkers && Run(c, Init(n, k), steps).Some?
    ensures Capped(c, Init(n, k), steps) <==> Roomy(c, Init(n, k), steps)
  {
    hide Enabled, Apply, Init, Committed, Fulfils, Run;
    var init := Init(n, k);
    if Roomy(c, init, steps) {
      forall i, more | 0 <= i <= |steps| && (forall step :: step in more ==> Fulfils(step))
                       && Run(c, init, steps[..i] + more).Some?
        ensures Run(c, init, steps[..i] + more).value.crew.workers <= c.maxWorkers
      {
        RoomyCommitted(c, n, k, steps, i);
        FulfilledOnly(c, init, steps[..i], more);
        WorkersCommitted(Run(c, init, steps[..i] + more).value);
      }
    } else {
      var i := NoRoom(c, n, k, steps);
      var more, s' := Fulfil(c, init, steps[..i], Run(c, init, steps[..i]).value);
      assert Run(c, init, steps[..i] + more).value.crew.workers > c.maxWorkers;
    }
  }

  // ---------------------------------------------------------------- exclusion is enough

  /** A counter is loaded only when nobody is between a load and the spawns it leads to. */
  ghost predicate Exclusive(c: Config, init: State, steps: seq<Step>) {
    steps == [] ||
    (var last := |steps| - 1;
     Exclusive(c, init, steps[..last]) &&
     (Run(c, init, steps[..last]).Some? && (steps[last].Load? || steps[last].LoadWorkers?) ==>
        (var s := Run(c, init, steps[..last]).value;
         Where(s.desk.submitters, IsSpawning) == {} && Reserve(c, s.adjuster) == 0)))
  }

  lemma ExclusiveStep(c: Config, k: nat, s: State, step: Step)
    requires Enabled(c, s, step) && |s.desk.submitters.Keys| == k
    requires step.Load? || step.LoadWorkers? ==>
               Where(s.desk.submitters, IsSpawning) == {} && Reserve(c, s.adjuster) == 0
    requires PeakInv(c, k, c.maxWorkers, Of(s), s.adjuster)
    ensures PeakInv(c, k, c.maxWorkers, Of(Apply(c, s, step)), Apply(c, s, step).adjuster)
    ensures |Apply(c, s, step).desk.submitters.Keys| == k
  {
    hide Enabled, Apply, Where, Nils, Extra, Reserve, NextAdjuster;
    TallyStep(c, s, step);
    AdjusterStep(c, s, step);
    WhereWithin(Apply(c, s, step).desk.submitters, IsSpawning);
    ReserveStep(c, s, step);
    ExtraBound(c, s.crew.workers);
  }

  lemma {:induction false} RunExclusive(c: Config, n: nat, k: nat, steps: seq<Step>)
    requires n <= c.maxWorkers && Exclusive(c, Init(n, k), steps)
    ensures Run(c, Init(n, k), steps).Some? ==>
              (var s := Run(c, Init(n, k), steps).value;
               PeakInv(c, k, c.maxWorkers, Of(s), s.adjuster) && |s.desk.submitters.Keys| == k)
  {
    hide Of, Enabled, Apply, PeakInv, Where, Reserve, Init;
    if steps == [] {
      InitTally(n, k);
      assert PeakInv(c, k, c.maxWorkers, Tally(n, 0, n, 0, 0, 0, 0), Resting) by { InitExclusive(c, n, k); }
      assert Init(n, k).adjuster == Resting by { InitRests(n, k); }
    } else {
      var last := |steps| - 1;
      RunExclusive(c, n, k, steps[..last]);
      if Run(c, Init(n, k), steps).Some? {
        ExclusiveStep(c, k, Run(c, Init(n, k), steps[..last]).value, steps[last]);
      }
    }
  }

  lemma InitRests(n: nat, k: nat)
    ensures Init(n, k).adjuster == Resting
  {
  }

  lemma InitExclusive(c: Config, n: nat, k: nat)
    requires n <= c.maxWorkers
    ensures PeakInv(c, k, c.maxWorkers, Tally(n, 0, n, 0, 0, 0, 0), Resting)
  {
  }

  /** What exclusion leaves free, the steps that commit find. */
  lemma ExclusiveRoom(c: Config, k: nat, s: State, step: Step)
    requires Enabled(c, s, step) && PeakInv(c, k, c.maxWorkers, Of(s), s.adjuster)
    requires step.Load? || step.LoadWorkers? ==>
               Where(s.desk.submitters, IsSpawning) == {} && Reserve(c, s.adjuster) == 0
    requires Commits(c, s, step) > 0
    ensures Committed(s) + Commits(c, s, step) <= c.maxWorkers
  {
    hide Enabled, Nils, Extra, GrowWanted;
    EnabledMeans(c, s, step);
  }

  lemma {:induction false} ExclusiveRoomy(c: Config, n: nat, k: nat, steps: seq<Step>)
    requires n <= c.maxWorkers && Exclusive(c, Init(n, k), steps) && Run(c, Init(n, k), steps).Some?
    ensures Roomy(c, Init(n, k), steps)
  {
    hide Enabled, Apply, Init, PeakInv, Committed, Commits, Reserve, Where, Of;
    if steps != [] {
      var last := |steps| - 1;
      ExclusiveRoomy(c, n, k, steps[..last]);
      RunExclusive(c, n, k, steps[..last]);
      var s := Run(c, Init(n, k), steps[..last]).value;
      if Commits(c, s, steps[last]) > 0 {
        ExclusiveRoom(c, k, s, steps[last]);
      }
    }
  }

  /** When the check-and-spawn of Submit and the load-and-grow of adjust exclude each other,
      maxWorkers is a true maximum. */
  lemma ExclusiveBound(c: Config, n: nat, k: nat, steps: seq<Step>, s: State)
    requires n <= c.maxWorkers && Run(c, Init(n, k), steps) == Some(s)
    requires Exclusive(c, Init(n, k), steps)
    ensures s.crew.workers <= c.maxWorkers
  {
    ExclusiveRoomy(c, n, k, steps);
    RoomyCommitted(c, n, k, steps, |steps|);
    assert steps[..|steps|] == steps;
    WorkersCommitted(s);
  }
}
