/** How large and how small the worker pool can get, over every run. */
module WorkerPoolBounds {
  import opened Types
  import opened WorkerPool

  // ---------------------------------------------------------------- counting

  predicate IsLive(pc: WorkerPc) { !pc.Gone? }

  predicate IsBusy(pc: WorkerPc) { pc.Running? || pc.Returning? }

  predicate IsSpawning(pc: SubmitPc) { pc.Spawning? }

  /** The numbers the bounds are about: the two counters, what they should count, the workers
      that are leaving, the markers queued, and the submitters about to spawn. */
  datatype Tally = Tally(workers: int, active: int, live: int, busy: int, leaving: int, nils: int, spawning: int)

  function Of(s: State): Tally {
    Tally(s.crew.workers, s.crew.active, |Where(s.crew.pcs, IsLive)|, |Where(s.crew.pcs, IsBusy)|,
          |Where(s.crew.pcs, IsLeaving)|, Nils(s.flow.queue), |Where(s.desk.submitters, IsSpawning)|)
  }

  /** What a step does to the numbers. */
  function Tallied(c: Config, s: State, step: Step, t: Tally): Tally {
    match step
    case Load(_) => if s.crew.workers < c.maxWorkers then t.(spawning := t.spawning + 1) else t
    case Spawn(_, _) => t.(workers := t.workers + 1, live := t.live + 1, spawning := t.spawning - 1)
    case Take(_) =>
      if s.flow.queue != [] && s.flow.queue[0].Nil? then t.(leaving := t.leaving + 1, nils := t.nils - 1) else t
    case Begin(_) => t.(active := t.active + 1, busy := t.busy + 1)
    case End(_) => t.(active := t.active - 1, busy := t.busy - 1)
    case Quit(_) => t.(leaving := t.leaving + 1)
    case Decrement(_) => t.(workers := t.workers - 1, live := t.live - 1, leaving := t.leaving - 1)
    case Grow(_) => t.(workers := t.workers + 1, live := t.live + 1)
    case Push => t.(nils := t.nils + 1)
    case HandNil(_) => t.(leaving := t.leaving + 1)
    case _ => t
  }

  lemma WhereUpdate<K, V>(m: map<K, V>, p: V -> bool, k: K, v: V)
    ensures |Where(m[k := v], p)|
         == |Where(m, p)| + (if p(v) then 1 else 0) - (if k in m && p(m[k]) then 1 else 0)
  {
    assert Where(m[k := v], p) == Where(m, p) - {k} + if p(v) then {k} else {};
  }

  lemma NilsAppend(queue: seq<Item>, x: Item)
    ensures Nils(queue + [x]) == Nils(queue) + (if x.Nil? then 1 else 0)
  {
    assert (queue + [x])[..|queue|] == queue;
  }

  lemma {:induction false} NilsTail(queue: seq<Item>)
    requires queue != []
    ensures Nils(queue) == Nils(queue[1..]) + (if queue[0].Nil? then 1 else 0)
  {
    if |queue| > 1 {
      var front := queue[..|queue| - 1];
      NilsTail(front);
      assert front[1..] == queue[1..][..|queue[1..]| - 1];
    } else {
      assert queue[..0] == [];
    }
  }

  lemma TallySubmit(c: Config, s: State, step: Step)
    requires SubmitEnabled(c, s, step)
    ensures Of(SubmitStep(c, s, step)) == Tallied(c, s, step, Of(s))
  {
    hide Where;
    var s' := SubmitStep(c, s, step);
    WhereUpdate(s.desk.submitters, IsSpawning, step.i, s'.desk.submitters[step.i]);
    if step.Spawn? || step.Handoff? {
      WhereUpdate(s.crew.pcs, IsLive, step.w, s'.crew.pcs[step.w]);
      WhereUpdate(s.crew.pcs, IsBusy, step.w, s'.crew.pcs[step.w]);
      WhereUpdate(s.crew.pcs, IsLeaving, step.w, s'.crew.pcs[step.w]);
    } else if step.Offer? {
      NilsAppend(s.flow.queue, Job(TaskOf(s.desk.submitters[step.i])));
    }
  }

  lemma TallyWorker(c: Config, s: State, step: Step)
    requires WorkerEnabled(s, step)
    ensures Of(WorkerStep(s, step)) == Tallied(c, s, step, Of(s))
  {
    hide Where;
    var s' := WorkerStep(s, step);
    WhereUpdate(s.crew.pcs, IsLive, step.w, s'.crew.pcs[step.w]);
    WhereUpdate(s.crew.pcs, IsBusy, step.w, s'.crew.pcs[step.w]);
    WhereUpdate(s.crew.pcs, IsLeaving, step.w, s'.crew.pcs[step.w]);
    if step.Take? {
      NilsTail(s.flow.queue);
    }
  }

  lemma TallyAdjust(c: Config, s: State, step: Step)
    requires AdjustEnabled(c, s, step)
    ensures Of(AdjustStep(c, s, step)) == Tallied(c, s, step, Of(s))
  {
    hide Where, GrowWanted, ShrinkWanted, Extra;
    var s' := AdjustStep(c, s, step);
    if step.Grow? || step.HandNil? {
      WhereUpdate(s.crew.pcs, IsLive, step.w, s'.crew.pcs[step.w]);
      WhereUpdate(s.crew.pcs, IsBusy, step.w, s'.crew.pcs[step.w]);
      WhereUpdate(s.crew.pcs, IsLeaving, step.w, s'.crew.pcs[step.w]);
    } else if step.Push? {
      NilsAppend(s.flow.queue, Nil);
    }
  }

  lemma TallyStep(c: Config, s: State, step: Step)
    requires Enabled(c, s, step)
    ensures Of(Apply(c, s, step)) == Tallied(c, s, step, Of(s))
  {
    hide Where, Nils, SubmitStep, WorkerStep, AdjustStep, SubmitEnabled, WorkerEnabled, AdjustEnabled;
    if step.Cancel? {
    } else if SubmitEnabled(c, s, step) {
      TallySubmit(c, s, step);
    } else if WorkerEnabled(s, step) {
      TallyWorker(c, s, step);
    } else {
      TallyAdjust(c, s, step);
    }
  }

  /** Where the adjuster goes; only its own steps and spawns touch it. */
  function NextAdjuster(c: Config, s: State, step: Step): AdjustPc {
    match step
    case Spawn(_, _) => NoteSpawn(s.adjuster)
    case Tick => GotLength(|s.flow.queue|)
    case LoadWorkers =>
      if s.adjuster.GotLength? then GotWorkers(s.adjuster.length, s.crew.workers, Outstanding(s), 0) else s.adjuster
    case Decide =>
      if !s.adjuster.GotWorkers? then s.adjuster
      else if GrowWanted(c, s.adjuster.length, s.adjuster.current) then Growing(Extra(c, s.adjuster.current))
      else if Shrinks(c, s, step) then Shrinking(s.adjuster.current - c.minWorkers)
      else Resting
    case Grow(_) => if s.adjuster.Growing? && s.adjuster.left > 0 then Growing(s.adjuster.left - 1) else s.adjuster
    case Push => if s.adjuster.Shrinking? && s.adjuster.left > 0 then Shrinking(s.adjuster.left - 1) else s.adjuster
    case HandNil(_) =>
      if s.adjuster.Shrinking? && s.adjuster.left > 0 then Shrinking(s.adjuster.left - 1) else s.adjuster
    case GiveUp => Resting
    case Rest => Resting
    case Stop => Stopped
    case _ => s.adjuster
  }

  /** The adjuster's decision is to shrink. */
  predicate Shrinks(c: Config, s: State, step: Step) {
    step.Decide? && s.adjuster.GotWorkers?
    && ShrinkWanted(c, s.adjuster.length, s.adjuster.current, s.crew.active)
  }

  predicate Adjusted(c: Config, s: State, step: Step, s': State) {
    && s'.adjuster == NextAdjuster(c, s, step)
    && s'.desk.submitters.Keys == s.desk.submitters.Keys
    && s'.cancelled == (s.cancelled || step.Cancel?)
  }

  lemma AdjusterSubmit(c: Config, s: State, step: Step)
    requires SubmitEnabled(c, s, step)
    ensures Adjusted(c, s, step, SubmitStep(c, s, step))
  {
    hide Where, Nils, Extra, GrowWanted, ShrinkWanted;
  }

  lemma AdjusterWorker(c: Config, s: State, step: Step)
    requires WorkerEnabled(s, step)
    ensures Adjusted(c, s, step, WorkerStep(s, step))
  {
    hide Where, Nils, Extra, GrowWanted, ShrinkWanted;
  }

  lemma AdjusterAdjust(c: Config, s: State, step: Step)
    requires AdjustEnabled(c, s, step)
    ensures Adjusted(c, s, step, AdjustStep(c, s, step))
  {
    hide Where, Nils, Extra, GrowWanted, ShrinkWanted;
  }

  lemma AdjusterStep(c: Config, s: State, step: Step)
    requires Enabled(c, s, step)
    ensures Adjusted(c, s, step, Apply(c, s, step))
  {
    hide SubmitStep, WorkerStep, AdjustStep, SubmitEnabled, WorkerEnabled, AdjustEnabled;
    if step.Cancel? {
    } else {
      hide Adjusted;
      if SubmitEnabled(c, s, step) {
        AdjusterSubmit(c, s, step);
      } else if WorkerEnabled(s, step) {
        AdjusterWorker(c, s, step);
      } else {
        AdjusterAdjust(c, s, step);
      }
    }
  }

  /** What being enabled says about the adjuster and the context. */
  lemma EnabledMeans(c: Config, s: State, step: Step)
    requires Enabled(c, s, step)
    ensures step.Tick? || step.Stop? ==> s.adjuster.Resting?
    ensures step.LoadWorkers? ==> s.adjuster.GotLength?
    ensures step.Decide? ==> s.adjuster.GotWorkers?
    ensures step.Grow? ==> s.adjuster.Growing? && s.adjuster.left > 0
    ensures step.Push? || step.HandNil? ==> s.adjuster.Shrinking? && s.adjuster.left > 0
    ensures step.Rest? ==> (s.adjuster.Growing? || s.adjuster.Shrinking?) && s.adjuster.left == 0
    ensures step.GiveUp? ==> s.adjuster.Shrinking?
    ensures step.Quit? ==> s.cancelled
  {
  }

  lemma {:induction false} InitTally(n: nat, k: nat)
    ensures Of(Init(n, k)) == Tally(n, 0, n, 0, 0, 0, 0)
    ensures |Init(n, k).desk.submitters.Keys| == k
  {
    IdleTally(n);
    RestTally(k);
  }

  lemma {:induction false} IdleTally(n: nat)
    ensures |Where(Idle(n), IsLive)| == n && |Where(Idle(n), IsBusy)| == 0 && |Where(Idle(n), IsLeaving)| == 0
    ensures forall w :: w in Idle(n) ==> w < n
  {
    if n == 0 {
      NowhereEmpty<Worker, WorkerPc>(IsLive);
      NowhereEmpty<Worker, WorkerPc>(IsBusy);
      NowhereEmpty<Worker, WorkerPc>(IsLeaving);
    } else {
      var m: map<Worker, WorkerPc>, w: Worker := Idle(n - 1), n - 1;
      IdleTally(n - 1);
      assert w !in m;
      WhereUpdate(m, IsLive, w, Waiting);
      WhereUpdate(m, IsBusy, w, Waiting);
      WhereUpdate(m, IsLeaving, w, Waiting);
      assert Idle(n) == m[w := Waiting];
    }
  }

  lemma NowhereEmpty<K, V>(p: V -> bool)
    ensures Where<K, V>(map[], p) == {}
  {
  }

  lemma {:induction false} RestTally(k: nat)
    ensures |Where(AtRest(k), IsSpawning)| == 0 && |AtRest(k).Keys| == k
    ensures forall i :: i in AtRest(k) ==> i < k && AtRest(k)[i] == Ready
  {
    if k == 0 {
      NowhereEmpty<nat, SubmitPc>(IsSpawning);
    } else {
      RestTally(k - 1);
      WhereUpdate(AtRest(k - 1), IsSpawning, k - 1, Ready);
      assert AtRest(k).Keys == AtRest(k - 1).Keys + {k - 1};
    }
  }

  lemma Extend(c: Config, init: State, steps: seq<Step>, s: State, step: Step)
    requires Run(c, init, steps) == Some(s) && Enabled(c, s, step)
    ensures Run(c, init, steps + [step]) == Some(Apply(c, s, step))
  {
    assert (steps + [step])[..|steps|] == steps;
  }

  // ---------------------------------------------------------------- the counters

  predicate CountInv(t: Tally) { t.workers == t.live && t.active == t.busy }

  /** The worker counter counts the workers that have not gone, and the active counter those
      inside a task, so neither is ever negative. */
  lemma {:induction false} CountersExact(c: Config, n: nat, k: nat, steps: seq<Step>, s: State)
    requires Run(c, Init(n, k), steps) == Some(s)
    ensures s.crew.workers == |Where(s.crew.pcs, IsLive)| >= 0
    ensures s.crew.active == |Where(s.crew.pcs, IsBusy)| >= 0
  {
    RunCounts(c, n, k, steps);
  }

  lemma {:induction false} RunCounts(c: Config, n: nat, k: nat, steps: seq<Step>)
    ensures Run(c, Init(n, k), steps).Some? ==> CountInv(Of(Run(c, Init(n, k), steps).value))
  {
    hide Of, Enabled, Apply, Init;
    if steps == [] {
      InitTally(n, k);
    } else {
      var last := |steps| - 1;
      RunCounts(c, n, k, steps[..last]);
      if Run(c, Init(n, k), steps).Some? {
        TallyStep(c, Run(c, Init(n, k), steps[..last]).value, steps[last]);
      }
    }
  }

  // ---------------------------------------------------------------- the largest pool

  /** Workers the adjuster is committed to add. */
  function Reserve(c: Config, a: AdjustPc): nat {
    match a
    case GotWorkers(_, current, _, _) => Extra(c, current)
    case Growing(left) => left
    case _ => 0
  }

  function Peak(c: Config, k: nat): int {
    if k == 0 || c.maxWorkers == 0 then c.maxWorkers else c.maxWorkers + c.maxWorkers / 2 + k - 1
  }

  ghost predicate PeakInv(c: Config, k: nat, bound: int, t: Tally, a: AdjustPc) {
    && CountInv(t)
    && t.live >= 0
    && 0 <= t.spawning <= k
    && Reserve(c, a) <= c.maxWorkers / 2
    && t.workers + t.spawning + Reserve(c, a) <= bound
  }

  lemma ExtraBound(c: Config, current: int)
    requires current >= 0
    ensures Extra(c, current) <= c.maxWorkers / 2
    ensures Extra(c, current) > 0 ==> current + Extra(c, current) <= c.maxWorkers
  {
    assert Int32(current * 2) <= current * 2;
  }

  lemma WhereWithin<K, V>(m: map<K, V>, p: V -> bool)
    ensures |Where(m, p)| <= |m.Keys|
  {
    Within(Where(m, p), m.Keys);
  }

  lemma {:induction false} Within<T>(a: set<T>, b: set<T>)
    requires a <= b
    ensures |a| <= |b|
  {
    if a != {} {
      var x :| x in a;
      Within(a - {x}, b - {x});
    }
  }

  lemma ReserveStep(c: Config, s: State, step: Step)
    requires Enabled(c, s, step) && s.crew.workers >= 0
    ensures var r := Reserve(c, NextAdjuster(c, s, step));
            if step.LoadWorkers? then r == Extra(c, s.crew.workers)
            else if step.Grow? then r == Reserve(c, s.adjuster) - 1
            else r <= Reserve(c, s.adjuster)
  {
    hide Extra, Where, Nils, SubmitEnabled, WorkerEnabled, AdjustEnabled, Enabled, GrowWanted, ShrinkWanted;
    EnabledMeans(c, s, step);
  }

  lemma PeakStep(c: Config, k: nat, s: State, step: Step)
    requires Enabled(c, s, step) && |s.desk.submitters.Keys| == k
    requires PeakInv(c, k, Peak(c, k), Of(s), s.adjuster)
    ensures PeakInv(c, k, Peak(c, k), Of(Apply(c, s, step)), Apply(c, s, step).adjuster)
    ensures |Apply(c, s, step).desk.submitters.Keys| == k
  {
    hide Enabled, Apply, Where, Nils, Extra, Reserve, NextAdjuster;
    TallyStep(c, s, step);
    AdjusterStep(c, s, step);
    WhereWithin(Apply(c, s, step).desk.submitters, IsSpawning);
    ReserveStep(c, s, step);
    ExtraBound(c, s.crew.workers);
  }

  lemma {:induction false} RunPeak(c: Config, n: nat, k: nat, steps: seq<Step>)
    requires n <= c.maxWorkers
    ensures Run(c, Init(n, k), steps).Some? ==>
              (var s := Run(c, Init(n, k), steps).value;
               PeakInv(c, k, Peak(c, k), Of(s), s.adjuster) && |s.desk.submitters.Keys| == k)
  {
    hide Of, Enabled, Apply, PeakInv;
    if steps == [] {
      InitTally(n, k);
      assert PeakInv(c, k, Peak(c, k), Tally(n, 0, n, 0, 0, 0, 0), Resting) by { InitPeak(c, n, k); }
    } else {
      var last := |steps| - 1;
      RunPeak(c, n, k, steps[..last]);
      if Run(c, Init(n, k), steps).Some? {
        PeakStep(c, k, Run(c, Init(n, k), steps[..last]).value, steps[last]);
      }
    }
  }

  lemma InitPeak(c: Config, n: nat, k: nat)
    requires n <= c.maxWorkers
    ensures PeakInv(c, k, Peak(c, k), Tally(n, 0, n, 0, 0, 0, 0), Resting)
  {
  }

  /** With k submitters and the adjuster interleaving step by step, a pool started with at most
      maxWorkers workers never has more than maxWorkers + maxWorkers / 2 + k - 1, and never
      more than maxWorkers when there is no submitter or that maximum is 0. */
  lemma PeakBound(c: Config, n: nat, k: nat, steps: seq<Step>, s: State)
    requires n <= c.maxWorkers && Run(c, Init(n, k), steps) == Some(s)
    ensures s.crew.workers <=
              if k == 0 || c.maxWorkers == 0 then c.maxWorkers else c.maxWorkers + c.maxWorkers / 2 + k - 1
  {
    RunPeak(c, n, k, steps);
  }

  // ---------------------------------------------------------------- what adjust decides

  /** The adjuster grows exactly if more than 80 % of the queue is in use and the maximum is
      not reached, to twice the number it has seen or the maximum; where doubling wraps around
      it adds nobody. It shrinks exactly if less than 20 % is in use, the minimum is exceeded
      and fewer than half of the workers are active. A pool without a queue is never adjusted. */
  lemma Decision(c: Config, length: nat, current: int, active: int)
    ensures GrowWanted(c, length, current) <==>
              c.capacity > 0 && length as real / c.capacity as real > 0.8 && current < c.maxWorkers
    ensures GrowWanted(c, length, current) && 0 <= current < 0x4000_0000 ==>
              current + Extra(c, current) == Min(2 * current, c.maxWorkers)
    ensures 0x4000_0000 <= current < 0x8000_0000 ==> Extra(c, current) == 0
    ensures ShrinkWanted(c, length, current, active) <==>
              c.capacity > 0 && length as real / c.capacity as real < 0.2
              && current > c.minWorkers && active < current / 2
  {
    if c.capacity > 0 {
      UsageIs(length, c.capacity);
    }
    if 0 <= current < 0x4000_0000 {
      assert Int32(current * 2) == current * 2;
    } else if 0x4000_0000 <= current < 0x8000_0000 {
      assert Int32(current * 2) == current * 2 - 0x1_0000_0000;
    }
  }

  lemma UsageIs(length: nat, capacity: nat)
    requires capacity > 0
    ensures length as real / capacity as real > 0.8 <==> 5 * length > 4 * capacity
    ensures length as real / capacity as real < 0.2 <==> 5 * length < capacity
  {
    var l, k := length as real, capacity as real;
    Quotient(l, k, 0.8);
    Quotient(l, k, 0.2);
    assert 5.0 * l == (5 * length) as real && 4.0 * k == (4 * capacity) as real;
  }

  lemma Quotient(l: real, k: real, b: real)
    requires k > 0.0
    ensures l / k > b <==> l > b * k
    ensures l / k < b <==> l < b * k
  {
    var u := l / k;
    assert u * k == l;
    Scale(u, b, k);
  }

  lemma Scale(a: real, b: real, k: real)
    requires k > 0.0
    ensures a > b <==> a * k > b * k
    ensures a < b <==> a * k < b * k
  {
    if a > b {
      Positive(a - b, k);
      assert (a - b) * k == a * k - b * k;
    } else if a < b {
      Positive(b - a, k);
      assert (b - a) * k == b * k - a * k;
    }
  }

  lemma Positive(d: real, k: real)
    requires d > 0.0 && k > 0.0
    ensures d * k > 0.0
  {
  }
}
