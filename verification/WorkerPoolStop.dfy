/** What cancelling does to the worker pool: who is refused from then on, and that the pool can
    always be brought to a stop; and what Submit and adjust do only with a full queue. */
module WorkerPoolStop {
  import opened Types
  import opened WorkerPool
  import opened WorkerPoolBounds
  import opened WorkerPoolCap
  import opened WorkerPoolFloor
  import opened WorkerPoolTasks

  // ---------------------------------------------------------------- refusals

  /** The queue is within its capacity, and nobody has been refused before the cancellation. */
  predicate CalmInv(c: Config, s: State) {
    |s.flow.queue| <= c.capacity && (s.desk.refused != {} ==> s.cancelled)
  }

  lemma CalmStep(c: Config, s: State, step: Step)
    requires Enabled(c, s, step) && CalmInv(c, s)
    ensures CalmInv(c, Apply(c, s, step))
    ensures s.desk.refused <= Apply(c, s, step).desk.refused
  {
    hide Extra, GrowWanted, ShrinkWanted, Outstanding, Hire;
  }

  lemma {:induction false} RunCalm(c: Config, n: nat, k: nat, steps: seq<Step>)
    ensures Run(c, Init(n, k), steps).Some? ==> CalmInv(c, Run(c, Init(n, k), steps).value)
  {
    hide Enabled, Apply;
    if steps != [] {
      var last := |steps| - 1;
      RunCalm(c, n, k, steps[..last]);
      if Run(c, Init(n, k), steps).Some? {
        CalmStep(c, Run(c, Init(n, k), steps[..last]).value, steps[last]);
      }
    }
  }

  /** The queue never exceeds its capacity, and Submit returns false only on a cancelled pool. */
  lemma QueueBounded(c: Config, n: nat, k: nat, steps: seq<Step>, s: State)
    requires Run(c, Init(n, k), steps) == Some(s)
    ensures |s.flow.queue| <= c.capacity
    ensures s.desk.refused != {} ==> s.cancelled
  {
    RunCalm(c, n, k, steps);
  }

  lemma {:induction false} CancelledIs(c: Config, n: nat, k: nat, steps: seq<Step>)
    requires Run(c, Init(n, k), steps).Some?
    ensures Run(c, Init(n, k), steps).value.cancelled <==> Cancel in steps
  {
    hide Enabled, Apply;
    if steps != [] {
      var last := |steps| - 1;
      CancelledIs(c, n, k, steps[..last]);
      CancelStep(c, Run(c, Init(n, k), steps[..last]).value, steps[last]);
      assert steps == steps[..last] + [steps[last]];
    }
  }

  lemma {:induction false} RefusedStays(c: Config, n: nat, k: nat, steps: seq<Step>, more: seq<Step>, t: Task)
    requires Run(c, Init(n, k), steps).Some? && Run(c, Init(n, k), steps + more).Some?
    requires t in Run(c, Init(n, k), steps).value.desk.refused
    ensures t in Run(c, Init(n, k), steps + more).value.desk.refused
    decreases |more|
  {
    hide Enabled, Apply, CalmInv, Init;
    if more == [] {
      assert steps + more == steps;
    } else {
      var last := |more| - 1;
      assert (steps + more)[..|steps| + last] == steps + more[..last];
      RefusedStays(c, n, k, steps, more[..last], t);
      RunCalm(c, n, k, steps + more[..last]);
      CalmStep(c, Run(c, Init(n, k), steps + more[..last]).value, more[last]);
    }
  }

  lemma CheckRefuses(c: Config, s: State, i: nat, t: Task)
    requires i in s.desk.submitters && s.desk.submitters[i] == Checking(t) && s.cancelled
    ensures Enabled(c, s, Check(i)) && t in Apply(c, s, Check(i)).desk.refused
  {
    hide WorkerStep, AdjustStep, WorkerEnabled, AdjustEnabled;
  }

  /** A Submit that looks at the context after the pool has been cancelled is refused: in every
      run its task is never accepted, queued, taken off the queue or started. */
  lemma CancelledRefused(c: Config, n: nat, k: nat, before: seq<Step>, u: State, i: nat, t: Task,
                         after: seq<Step>, s: State)
    requires Run(c, Init(n, k), before) == Some(u) && Cancel in before
    requires i in u.desk.submitters && u.desk.submitters[i] == Checking(t)
    requires Run(c, Init(n, k), before + [Check(i)] + after) == Some(s)
    ensures t in s.desk.refused && t !in s.desk.granted && t !in s.flow.accepted
    ensures Job(t) !in s.flow.queue && t !in s.flow.dequeued && t !in s.crew.started
  {
    CancelledIs(c, n, k, before);
    CheckRefuses(c, u, i, t);
    Extend(c, Init(n, k), before, u, Check(i));
    hide Enabled, Apply, Init, Run;
    RefusedStays(c, n, k, before + [Check(i)], after, t);
    RefusedNeverRun(c, n, k, before + [Check(i)] + after, s);
    RunTasks(c, n, k, before + [Check(i)] + after);
  }

  /** Submit turns to spawning, and adjust gives up on markers, only with a full queue. */
  lemma OnlyWhenFull(c: Config, n: nat, k: nat, steps: seq<Step>, s: State, i: nat)
    requires Run(c, Init(n, k), steps) == Some(s)
    ensures Enabled(c, s, Full(i)) ==> |s.flow.queue| == c.capacity && !s.cancelled
    ensures Enabled(c, s, GiveUp) ==> |s.flow.queue| == c.capacity
  {
    RunCalm(c, n, k, steps);
  }

  /** A Submit that finds room in the queue, or an empty queue and a waiting worker, succeeds in
      one step, whether it has just arrived or has been waiting. */
  lemma AcceptedAtOnce(c: Config, s: State, i: nat, t: Task) returns (step: Step)
    requires i in s.desk.submitters
    requires s.desk.submitters[i] == Offering(t) || s.desk.submitters[i] == Blocking(t)
    requires |s.flow.queue| < c.capacity
             || (s.flow.queue == [] && exists w :: w in s.crew.pcs && s.crew.pcs[w] == Waiting)
    ensures Enabled(c, s, step)
    ensures var s' := Apply(c, s, step);
            && t in s'.desk.granted && s'.flow.accepted == s.flow.accepted + [t] && s'.desk.submitters[i] == Ready
            && s'.crew.workers == s.crew.workers
  {
    if |s.flow.queue| < c.capacity {
      step := Offer(i);
    } else {
      var w :| w in s.crew.pcs && s.crew.pcs[w] == Waiting;
      step := Handoff(i, w);
    }
    hide WorkerStep, AdjustStep, WorkerEnabled, AdjustEnabled;
  }

  /** What the adjuster does next with what it has loaded and the active workers it now sees. */
  lemma Decided(c: Config, s: State)
    requires s.adjuster.GotWorkers? && c.capacity > 0
    ensures Enabled(c, s, Decide)
    ensures var usage := s.adjuster.length as real / c.capacity as real;
            Apply(c, s, Decide).adjuster ==
              if usage > 0.8 && s.adjuster.current < c.maxWorkers then Growing(Extra(c, s.adjuster.current))
              else if usage < 0.2 && s.adjuster.current > c.minWorkers && s.crew.active < s.adjuster.current / 2
              then Shrinking(s.adjuster.current - c.minWorkers)
              else Resting
  {
    Decision(c, s.adjuster.length, s.adjuster.current, s.crew.active);
    hide SubmitStep, WorkerStep, Extra;
  }

  // ---------------------------------------------------------------- coming to a stop

  predicate IsPending(pc: SubmitPc) { !pc.Ready? }
  predicate IsLoading(pc: SubmitPc) { pc.Loading? }

  /** How far the submitters are from having returned, once the pool is cancelled. */
  function Unreturned(submitters: map<nat, SubmitPc>): nat {
    |Where(submitters, IsPending)| + |Where(submitters, IsSpawning)| + 2 * |Where(submitters, IsLoading)|
  }

  lemma ReturnSoon(c: Config, s: State) returns (step: Step)
    requires s.cancelled && Where(s.desk.submitters, IsPending) != {}
    ensures Enabled(c, s, step) && Apply(c, s, step).cancelled
    ensures Unreturned(Apply(c, s, step).desk.submitters) < Unreturned(s.desk.submitters)
  {
    var i :| i in Where(s.desk.submitters, IsPending);
    var w := Unused(s.crew.pcs.Keys);
    var pc := s.desk.submitters[i];
    step := match pc
            case Checking(_) => Check(i)
            case Loading(_) => Load(i)
            case Spawning(_) => Spawn(i, w)
            case _ => Refuse(i);
    hide WorkerStep, AdjustStep, WorkerEnabled, AdjustEnabled, Where;
    var pc' := Apply(c, s, step).desk.submitters[i];
    WhereUpdate(s.desk.submitters, IsPending, i, pc');
    WhereUpdate(s.desk.submitters, IsSpawning, i, pc');
    WhereUpdate(s.desk.submitters, IsLoading, i, pc');
  }

  lemma {:induction false} AllReturn(c: Config, init: State, steps: seq<Step>, s: State)
    returns (more: seq<Step>, s': State)
    requires Run(c, init, steps) == Some(s) && s.cancelled
    ensures Run(c, init, steps + more) == Some(s') && s'.cancelled
    ensures Where(s'.desk.submitters, IsPending) == {}
    decreases Unreturned(s.desk.submitters)
  {
    hide Enabled, Apply, Where, Unreturned, Run;
    if Where(s.desk.submitters, IsPending) == {} {
      more, s' := [], s;
      Regroup(steps, [], []);
    } else {
      var step := ReturnSoon(c, s);
      Extend(c, init, steps, s, step);
      var rest;
      rest, s' := AllReturn(c, init, steps + [step], Apply(c, s, step));
      more := [step] + rest;
      Regroup(steps, [step], rest);
    }
  }

  /** How far the adjuster is from having left. */
  function Stage(a: AdjustPc): nat {
    match a
    case GotLength(_) => 4
    case GotWorkers(_, _, _, _) => 3
    case Growing(_) => 2
    case Shrinking(_) => 2
    case Resting => 1
    case Stopped => 0
  }

  function LeftToDo(a: AdjustPc): nat { if a.Growing? || a.Shrinking? then a.left else 0 }

  lemma LeaveSoon(c: Config, s: State) returns (step: Step)
    requires s.cancelled && !s.adjuster.Stopped?
    ensures Enabled(c, s, step) && Apply(c, s, step).cancelled
    ensures Apply(c, s, step).desk == s.desk
    ensures Stage(Apply(c, s, step).adjuster) < Stage(s.adjuster)
            || (Stage(Apply(c, s, step).adjuster) == Stage(s.adjuster)
                && LeftToDo(Apply(c, s, step).adjuster) < LeftToDo(s.adjuster))
  {
    var w := Unused(s.crew.pcs.Keys);
    step := match s.adjuster
            case GotLength(_) => LoadWorkers
            case GotWorkers(_, _, _, _) => Decide
            case Growing(left) => if left > 0 then Grow(w) else Rest
            case Shrinking(left) =>
              if left == 0 then Rest else if |s.flow.queue| < c.capacity then Push else GiveUp
            case _ => Step.Stop;
    hide SubmitStep, WorkerStep, Extra, GrowWanted, ShrinkWanted, Outstanding;
  }

  lemma {:induction false} AdjusterLeaves(c: Config, init: State, steps: seq<Step>, s: State)
    returns (more: seq<Step>, s': State)
    requires Run(c, init, steps) == Some(s) && s.cancelled
    ensures Run(c, init, steps + more) == Some(s') && s'.cancelled && s'.adjuster.Stopped? && s'.desk == s.desk
    decreases Stage(s.adjuster), LeftToDo(s.adjuster)
  {
    hide Enabled, Apply, Run;
    if s.adjuster.Stopped? {
      more, s' := [], s;
      Regroup(steps, [], []);
    } else {
      var step := LeaveSoon(c, s);
      Extend(c, init, steps, s, step);
      var rest;
      rest, s' := AdjusterLeaves(c, init, steps + [step], Apply(c, s, step));
      more := [step] + rest;
      Regroup(steps, [step], rest);
    }
  }

  /** How far the workers are from being gone. */
  function Remaining(pcs: map<Worker, WorkerPc>): int {
    2 * |Where(pcs, IsLive)| + Effort(pcs) - 2 * |Where(pcs, IsLeaving)|
  }

  lemma {:induction false} LeavingLive(pcs: map<Worker, WorkerPc>)
    ensures |Where(pcs, IsLeaving)| <= |Where(pcs, IsLive)|
  {
    Within(Where(pcs, IsLeaving), Where(pcs, IsLive));
  }

  lemma RemainingBounded(pcs: map<Worker, WorkerPc>)
    ensures Remaining(pcs) >= 0
  {
    LeavingLive(pcs);
  }

  lemma GoSoon(c: Config, s: State) returns (step: Step)
    requires s.cancelled && Where(s.crew.pcs, IsLive) != {}
    ensures Enabled(c, s, step)
    ensures var s' := Apply(c, s, step);
            && s'.cancelled && s'.desk == s.desk && s'.adjuster == s.adjuster
            && Remaining(s'.crew.pcs) < Remaining(s.crew.pcs)
  {
    var w :| w in Where(s.crew.pcs, IsLive);
    step := match s.crew.pcs[w]
            case Waiting => Quit(w)
            case Received(_) => Begin(w)
            case Running(_) => Finish(w)
            case Returning(_) => End(w)
            case _ => Decrement(w);
    hide SubmitStep, AdjustStep, AdjustEnabled, Where, Effort;
    var pc' := Apply(c, s, step).crew.pcs[w];
    WhereUpdate(s.crew.pcs, IsLive, w, pc');
    WhereUpdate(s.crew.pcs, IsLeaving, w, pc');
    EffortMoves(s.crew.pcs, w, pc');
  }

  lemma {:induction false} WorkersGo(c: Config, init: State, steps: seq<Step>, s: State)
    returns (more: seq<Step>, s': State)
    requires Run(c, init, steps) == Some(s) && s.cancelled
    ensures Run(c, init, steps + more) == Some(s')
    ensures Where(s'.crew.pcs, IsLive) == {} && s'.desk == s.desk && s'.adjuster == s.adjuster
    decreases Remaining(s.crew.pcs)
  {
    RemainingBounded(s.crew.pcs);
    hide Enabled, Apply, Where, Run, Remaining;
    if Where(s.crew.pcs, IsLive) == {} {
      more, s' := [], s;
      Regroup(steps, [], []);
    } else {
      var step := GoSoon(c, s);
      Extend(c, init, steps, s, step);
      var rest;
      rest, s' := WorkersGo(c, init, steps + [step], Apply(c, s, step));
      more := [step] + rest;
      Regroup(steps, [step], rest);
    }
  }

  /** Every Submit has returned, the adjuster has left and every worker is gone. */
  ghost predicate Halted(s: State) {
    && (forall i :: i in s.desk.submitters ==> s.desk.submitters[i].Ready?)
    && s.adjuster.Stopped?
    && (forall w :: w in s.crew.pcs ==> s.crew.pcs[w].Gone?)
  }

  /** A cancelled pool can always be brought to a stop: from every reachable state after the
      cancellation some continuation leaves nobody behind, and then the counter is 0. */
  lemma StopCompletes(c: Config, n: nat, k: nat, steps: seq<Step>, s: State)
    returns (more: seq<Step>, s': State)
    requires Run(c, Init(n, k), steps) == Some(s) && Cancel in steps
    ensures Run(c, Init(n, k), steps + more) == Some(s') && Halted(s') && s'.crew.workers == 0
  {
    CancelledIs(c, n, k, steps);
    more, s' := Halts(c, Init(n, k), steps, s);
    NobodyLeft(s');
    hide Halted;
    CountersExact(c, n, k, steps + more, s');
  }

  lemma Halts(c: Config, init: State, steps: seq<Step>, s: State) returns (more: seq<Step>, s': State)
    requires Run(c, init, steps) == Some(s) && s.cancelled
    ensures Run(c, init, steps + more) == Some(s')
    ensures Where(s'.desk.submitters, IsPending) == {} && s'.adjuster.Stopped? && Where(s'.crew.pcs, IsLive) == {}
  {
    hide Run, Where;
    var a, t := AllReturn(c, init, steps, s);
    var b, u := AdjusterLeaves(c, init, steps + a, t);
    var d;
    d, s' := WorkersGo(c, init, steps + a + b, u);
    more := a + (b + d);
    Regroup(steps + a, b, d);
    Regroup(steps, a, b + d);
  }

  lemma NobodyLeft(s: State)
    requires Where(s.desk.submitters, IsPending) == {} && s.adjuster.Stopped? && Where(s.crew.pcs, IsLive) == {}
    ensures Halted(s) && |Where(s.crew.pcs, IsLive)| == 0
  {
    forall i | i in s.desk.submitters
      ensures s.desk.submitters[i].Ready?
    {
      assert i !in Where(s.desk.submitters, IsPending);
    }
    forall w | w in s.crew.pcs
      ensures s.crew.pcs[w].Gone?
    {
      assert w !in Where(s.crew.pcs, IsLive);
    }
  }
}
