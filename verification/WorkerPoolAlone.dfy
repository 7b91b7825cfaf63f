/** What Submit and adjust do when nobody interferes: each of them carried through from any
    state, with the state it ends in. */
module WorkerPoolAlone {
  import opened Types
  import opened WorkerPool
  import opened WorkerPoolBounds
  import opened WorkerPoolCap

  // ---------------------------------------------------------------- submitting

  predicate Moves(c: Config, s: State, step: Step, s': State) { Enabled(c, s, step) && Apply(c, s, step) == s' }

  lemma Goes(c: Config, init: State, steps: seq<Step>, s: State, step: Step, s': State) returns (steps': seq<Step>)
    requires Run(c, init, steps) == Some(s) && Moves(c, s, step, s')
    ensures steps' == steps + [step] && Run(c, init, steps') == Some(s')
  {
    steps' := steps + [step];
    Extend(c, init, steps, s, step);
  }

  /** Submitter i is at some point with the task it has just named. */
  function Submits(s: State, i: nat, pc: SubmitPc): State {
    s.(desk := At(s.desk, i, pc).(next := s.desk.next + 1))
  }

  lemma SubmitMoves(c: Config, s: State, i: nat)
    requires i in s.desk.submitters && s.desk.submitters[i].Ready?
    ensures var t := s.desk.next;
            && Moves(c, s, Call(i), Submits(s, i, Checking(t)))
            && Moves(c, Submits(s, i, Checking(t)), Check(i),
                     if s.cancelled then Submits(s, i, Ready).(desk := Submits(s, i, Ready).desk.(
                                         refused := s.desk.refused + {t}))
                     else Submits(s, i, Offering(t)))
            && (|s.flow.queue| < c.capacity ==>
                  Moves(c, Submits(s, i, Offering(t)), Offer(i),
                        Submits(s, i, Ready).(desk := Submits(s, i, Ready).desk.(granted := s.desk.granted + {t}),
                        flow := Flow(s.flow.queue + [Job(t)], s.flow.accepted + [t], s.flow.dequeued))))
            && (|s.flow.queue| >= c.capacity && !s.cancelled ==>
                  Moves(c, Submits(s, i, Offering(t)), Full(i), Submits(s, i, Loading(t))))
  {
    hide WorkerStep, AdjustStep, WorkerEnabled, AdjustEnabled;
  }

  lemma SpawnMoves(c: Config, s: State, i: nat, w: Worker)
    requires i in s.desk.submitters && w !in s.crew.pcs
    ensures var t := s.desk.next;
            && Moves(c, Submits(s, i, Loading(t)), Load(i),
                     Submits(s, i, if s.crew.workers < c.maxWorkers then Spawning(t) else Blocking(t)))
            && Moves(c, Submits(s, i, Spawning(t)), Spawn(i, w),
                     Submits(s, i, Blocking(t)).(adjuster := NoteSpawn(s.adjuster),
                     crew := s.crew.(pcs := s.crew.pcs[w := Waiting], workers := s.crew.workers + 1)))
  {
    hide WorkerStep, AdjustStep, WorkerEnabled, AdjustEnabled;
  }

  /** Submit refuses on a cancelled pool, accepts at the end of a queue with room, and with a
      full queue starts one worker if there are fewer than the maximum and then waits. */
  lemma SubmitAlone(c: Config, s: State, i: nat) returns (steps: seq<Step>, s': State)
    requires i in s.desk.submitters && s.desk.submitters[i].Ready?
    ensures Run(c, s, steps) == Some(s') && s'.cancelled == s.cancelled && s'.desk.next == s.desk.next + 1
    ensures var t := s.desk.next;
            if s.cancelled then
              && s'.desk == s.desk.(refused := s.desk.refused + {t}, next := t + 1)
              && s'.flow == s.flow && s'.crew == s.crew
            else if |s.flow.queue| < c.capacity then
              && s'.desk == s.desk.(granted := s.desk.granted + {t}, next := t + 1)
              && s'.flow == Flow(s.flow.queue + [Job(t)], s.flow.accepted + [t], s.flow.dequeued) && s'.crew == s.crew
            else
              && s'.desk == s.desk.(submitters := s.desk.submitters[i := Blocking(t)], next := t + 1)
              && s'.flow == s.flow
              && s'.crew.workers == s.crew.workers + (if s.crew.workers < c.maxWorkers then 1 else 0)
  {
    var t := s.desk.next;
    var w := Unused(s.crew.pcs.Keys);
    SubmitMoves(c, s, i);
    assert s.desk.submitters[i := Ready] == s.desk.submitters;
    SpawnMoves(c, s, i, w);
    hide Moves;
    steps := Goes(c, s, [], s, Call(i), Submits(s, i, Checking(t)));
    if s.cancelled {
      s' := Submits(s, i, Ready).(desk := Submits(s, i, Ready).desk.(refused := s.desk.refused + {t}));
      steps := Goes(c, s, steps, Submits(s, i, Checking(t)), Check(i), s');
    } else {
      steps := Goes(c, s, steps, Submits(s, i, Checking(t)), Check(i), Submits(s, i, Offering(t)));
      if |s.flow.queue| < c.capacity {
        s' := Submits(s, i, Ready).(desk := Submits(s, i, Ready).desk.(granted := s.desk.granted + {t}),
              flow := Flow(s.flow.queue + [Job(t)], s.flow.accepted + [t], s.flow.dequeued));
        steps := Goes(c, s, steps, Submits(s, i, Offering(t)), Offer(i), s');
      } else {
        steps := Goes(c, s, steps, Submits(s, i, Offering(t)), Full(i), Submits(s, i, Loading(t)));
        var pc := if s.crew.workers < c.maxWorkers then Spawning(t) else Blocking(t);
        steps := Goes(c, s, steps, Submits(s, i, Loading(t)), Load(i), Submits(s, i, pc));
        s' := Submits(s, i, Blocking(t));
        if s.crew.workers < c.maxWorkers {
          s' := Submits(s, i, Blocking(t)).(adjuster := NoteSpawn(s.adjuster),
                crew := s.crew.(pcs := s.crew.pcs[w := Waiting], workers := s.crew.workers + 1));
          steps := Goes(c, s, steps, Submits(s, i, Spawning(t)), Spawn(i, w), s');
        }
      }
    }
  }

  // ---------------------------------------------------------------- working

  lemma WorkMoves(c: Config, s: State, w: Worker, t: Task)
    requires IsAt(s, w, Waiting) && s.flow.queue != [] && s.flow.queue[0] == Job(t)
    ensures var took := s.(flow := s.flow.(queue := s.flow.queue[1..], dequeued := s.flow.dequeued + [t]));
            var begun := s.crew.(started := s.crew.started + [t], active := s.crew.active + 1);
            var done := begun.(finished := s.crew.finished + {t});
            && Moves(c, s, Take(w), took.(crew := WorkerAt(s.crew, w, Received(t))))
            && Moves(c, took.(crew := WorkerAt(s.crew, w, Received(t))), Begin(w),
                     took.(crew := WorkerAt(begun, w, Running(t))))
            && Moves(c, took.(crew := WorkerAt(begun, w, Running(t))), Finish(w),
                     took.(crew := WorkerAt(done, w, Returning(t))))
            && Moves(c, took.(crew := WorkerAt(done, w, Returning(t))), End(w),
                     took.(crew := s.crew.(started := s.crew.started + [t], finished := s.crew.finished + {t})))
  {
    hide SubmitStep, AdjustStep;
    assert s.crew.pcs[w := Waiting] == s.crew.pcs;
  }

  /** A waiting worker takes what has been queued longest: it runs a task once and waits again,
      with the counters as they were, and leaves for a marker. */
  lemma WorkAlone(c: Config, s: State, w: Worker) returns (steps: seq<Step>, s': State)
    requires IsAt(s, w, Waiting) && s.flow.queue != []
    ensures Run(c, s, steps) == Some(s')
    ensures match s.flow.queue[0]
            case Job(t) =>
              s' == s.(flow := s.flow.(queue := s.flow.queue[1..], dequeued := s.flow.dequeued + [t]),
                       crew := s.crew.(started := s.crew.started + [t], finished := s.crew.finished + {t}))
            case Nil =>
              s' == s.(flow := s.flow.(queue := s.flow.queue[1..]),
                       crew := s.crew.(workers := s.crew.workers - 1, pcs := s.crew.pcs[w := Gone]))
  {
    match s.flow.queue[0]
    case Job(t) =>
      WorkMoves(c, s, w, t);
      hide Moves;
      var took := s.(flow := s.flow.(queue := s.flow.queue[1..], dequeued := s.flow.dequeued + [t]));
      var begun := s.crew.(started := s.crew.started + [t], active := s.crew.active + 1);
      var done := begun.(finished := s.crew.finished + {t});
      steps := Goes(c, s, [], s, Take(w), took.(crew := WorkerAt(s.crew, w, Received(t))));
      steps := Goes(c, s, steps, took.(crew := WorkerAt(s.crew, w, Received(t))), Begin(w),
                    took.(crew := WorkerAt(begun, w, Running(t))));
      steps := Goes(c, s, steps, took.(crew := WorkerAt(begun, w, Running(t))), Finish(w),
                    took.(crew := WorkerAt(done, w, Returning(t))));
      s' := took.(crew := s.crew.(started := s.crew.started + [t], finished := s.crew.finished + {t}));
      steps := Goes(c, s, steps, took.(crew := WorkerAt(done, w, Returning(t))), End(w), s');
    case Nil =>
      var took := s.(flow := s.flow.(queue := s.flow.queue[1..]), crew := WorkerAt(s.crew, w, Leaving));
      steps := Goes(c, s, [], s, Take(w), took);
      s' := took.(crew := WorkerAt(took.crew, w, Gone).(workers := s.crew.workers - 1));
      assert s.crew.pcs[w := Leaving][w := Gone] == s.crew.pcs[w := Gone];
      steps := Goes(c, s, steps, took, Decrement(w), s');
  }

  /** A send met by a waiting worker is the send and the worker's receive in one: on a buffered
      queue it reaches no state that those two steps do not. */
  lemma HandoffsAreShortcuts(c: Config, s: State, i: nat, w: Worker)
    requires c.capacity > 0
    ensures Enabled(c, s, Handoff(i, w)) ==>
              && Enabled(c, s, Offer(i)) && Enabled(c, Apply(c, s, Offer(i)), Take(w))
              && Apply(c, Apply(c, s, Offer(i)), Take(w)) == Apply(c, s, Handoff(i, w))
    ensures Enabled(c, s, HandNil(w)) ==>
              && Enabled(c, s, Push) && Enabled(c, Apply(c, s, Push), Take(w))
              && Apply(c, Apply(c, s, Push), Take(w)) == Apply(c, s, HandNil(w))
    ensures s.flow.queue == [] && IsAt(s, w, Waiting) ==>
              (Enabled(c, s, Handoff(i, w)) <==> Enabled(c, s, Offer(i)))
              && (Enabled(c, s, HandNil(w)) <==> Enabled(c, s, Push))
  {
    hide GrowWanted, ShrinkWanted, Extra, Outstanding;
  }

  // ---------------------------------------------------------------- adjusting

  function Markers(n: nat): (q: seq<Item>)
    ensures |q| == n && forall j :: 0 <= j < n ==> q[j] == Nil
  {
    seq(n, _ => Nil)
  }

  /** The pool with n more workers, all of them waiting. */
  predicate Enlarged(crew: Crew, crew': Crew, n: nat) {
    && crew'.workers == crew.workers + n
    && crew'.active == crew.active && crew'.started == crew.started && crew'.finished == crew.finished
    && (forall w :: w in crew.pcs ==> w in crew'.pcs && crew'.pcs[w] == crew.pcs[w])
    && (forall w :: w in crew'.pcs ==> w in crew.pcs || crew'.pcs[w] == Waiting)
  }

  lemma {:induction false} GrowsAlone(c: Config, init: State, steps: seq<Step>, s: State)
    returns (steps': seq<Step>, s': State)
    requires Run(c, init, steps) == Some(s) && s.adjuster.Growing?
    ensures Run(c, init, steps') == Some(s')
    ensures Enlarged(s.crew, s'.crew, s.adjuster.left) && s' == s.(adjuster := Resting, crew := s'.crew)
    decreases s.adjuster.left
  {
    var left := s.adjuster.left;
    if left == 0 {
      s' := s.(adjuster := Resting);
      steps' := Goes(c, init, steps, s, Rest, s');
    } else {
      var w := Unused(s.crew.pcs.Keys);
      var t := s.(crew := s.crew.(pcs := s.crew.pcs[w := Waiting], workers := s.crew.workers + 1),
                  adjuster := Growing(left - 1));
      steps' := Goes(c, init, steps, s, Grow(w), t);
      steps', s' := GrowsAlone(c, init, steps', t);
    }
  }

  lemma {:induction false} ShrinksAlone(c: Config, init: State, steps: seq<Step>, s: State)
    returns (steps': seq<Step>, s': State)
    requires Run(c, init, steps) == Some(s) && s.adjuster.Shrinking? && |s.flow.queue| <= c.capacity
    ensures Run(c, init, steps') == Some(s')
    ensures var n := Min(s.adjuster.left, c.capacity - |s.flow.queue|);
            s' == s.(adjuster := Resting, flow := s.flow.(queue := s.flow.queue + Markers(n)))
    decreases s.adjuster.left
  {
    var left := s.adjuster.left;
    if left == 0 || |s.flow.queue| == c.capacity {
      s' := s.(adjuster := Resting);
      steps' := Goes(c, init, steps, s, if left == 0 then Rest else GiveUp, s');
      assert s.flow.queue + Markers(0) == s.flow.queue;
    } else {
      var n := Min(left, c.capacity - |s.flow.queue|);
      var t := s.(flow := s.flow.(queue := s.flow.queue + [Nil]), adjuster := Shrinking(left - 1));
      steps' := Goes(c, init, steps, s, Push, t);
      steps', s' := ShrinksAlone(c, init, steps', t);
      assert s.flow.queue + [Nil] + Markers(n - 1) == s.flow.queue + Markers(n);
    }
  }

  lemma DecideMoves(c: Config, s: State)
    requires s.adjuster.Resting?
    ensures var load := GotWorkers(|s.flow.queue|, s.crew.workers, Outstanding(s), 0);
            && Moves(c, s, Tick, s.(adjuster := GotLength(|s.flow.queue|)))
            && Moves(c, s.(adjuster := GotLength(|s.flow.queue|)), LoadWorkers, s.(adjuster := load))
            && Moves(c, s.(adjuster := load), Decide,
                     s.(adjuster :=
                        if GrowWanted(c, |s.flow.queue|, s.crew.workers) then Growing(Extra(c, s.crew.workers))
                        else if ShrinkWanted(c, |s.flow.queue|, s.crew.workers, s.crew.active) then
                          Shrinking(s.crew.workers - c.minWorkers)
                        else Resting))
  {
    hide SubmitStep, WorkerStep, GrowWanted, ShrinkWanted, Extra, Nils, Where;
  }

  /** One adjustment: above 80 % usage the number of workers becomes the smaller of twice as many
      and the maximum; below 20 % with fewer than half of them active a marker is queued for each
      worker above the minimum, as far as the queue has room; otherwise nothing changes. */
  lemma AdjustAlone(c: Config, s: State) returns (steps: seq<Step>, s': State)
    requires s.adjuster.Resting? && |s.flow.queue| <= c.capacity && c.capacity > 0
    requires 0 <= s.crew.workers < 0x4000_0000
    ensures Run(c, s, steps) == Some(s')
    ensures var usage, workers := |s.flow.queue| as real / c.capacity as real, s.crew.workers;
            if usage > 0.8 && workers < c.maxWorkers then
              && s' == s.(crew := s'.crew) && s'.crew.workers == Min(2 * workers, c.maxWorkers)
              && Enlarged(s.crew, s'.crew, s'.crew.workers - workers)
            else if usage < 0.2 && workers > c.minWorkers && s.crew.active < workers / 2 then
              s' == s.(flow := s.flow.(queue :=
                s.flow.queue + Markers(Min(workers - c.minWorkers, c.capacity - |s.flow.queue|))))
            else s' == s
  {
    DecideMoves(c, s);
    Decision(c, |s.flow.queue|, s.crew.workers, s.crew.active);
    hide Moves, Enabled, Apply, GrowWanted, ShrinkWanted, Extra, Outstanding, Enlarged;
    var load := GotWorkers(|s.flow.queue|, s.crew.workers, Outstanding(s), 0);
    steps := Goes(c, s, [], s, Tick, s.(adjuster := GotLength(|s.flow.queue|)));
    steps := Goes(c, s, steps, s.(adjuster := GotLength(|s.flow.queue|)), LoadWorkers, s.(adjuster := load));
    if GrowWanted(c, |s.flow.queue|, s.crew.workers) {
      var t := s.(adjuster := Growing(Extra(c, s.crew.workers)));
      steps := Goes(c, s, steps, s.(adjuster := load), Decide, t);
      steps, s' := GrowsAlone(c, s, steps, t);
    } else if ShrinkWanted(c, |s.flow.queue|, s.crew.workers, s.crew.active) {
      var t := s.(adjuster := Shrinking(s.crew.workers - c.minWorkers));
      steps := Goes(c, s, steps, s.(adjuster := load), Decide, t);
      steps, s' := ShrinksAlone(c, s, steps, t);
    } else {
      s' := s.(adjuster := Resting);
      steps := Goes(c, s, steps, s.(adjuster := load), Decide, s');
    }
  }
}
