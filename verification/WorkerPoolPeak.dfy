/** The bound on the worker pool is attained: for every queue, every maximum and every number
    of submitters some run reaches it. */
module WorkerPoolPeak {
  import opened Types
  import opened WorkerPool
  import opened WorkerPoolBounds
  import opened WorkerPoolCap

  predicate Moves(c: Config, s: State, step: Step, s': State) { Enabled(c, s, step) && Apply(c, s, step) == s' }

  lemma Reach(c: Config, init: State, steps: seq<Step>, s: State, step: Step, s': State)
    requires Run(c, init, steps) == Some(s) && Moves(c, s, step, s')
    ensures Run(c, init, steps + [step]) == Some(s')
  {
    hide Enabled, Apply;
    assert (steps + [step])[..|steps|] == steps;
  }

  // ---------------------------------------------------------------- single steps

  /** Submitter i at pc. */
  function Put(s: State, i: nat, pc: SubmitPc): State { s.(desk := At(s.desk, i, pc)) }

  /** One more task name is used up. */
  function Named(s: State): State { s.(desk := s.desk.(next := s.desk.next + 1)) }

  lemma Calls(c: Config, s: State, i: nat)
    requires i in s.desk.submitters && s.desk.submitters[i].Ready? && !s.cancelled
    ensures var t := s.desk.next;
            && Moves(c, s, Call(i), Put(Named(s), i, Checking(t)))
            && Moves(c, Put(Named(s), i, Checking(t)), Check(i), Put(Named(s), i, Offering(t)))
  {
    hide WorkerStep, AdjustStep, WorkerEnabled, AdjustEnabled;
  }

  /** The task of submitter i is accepted. */
  function Accepted(s: State, i: nat, t: Task): State {
    s.(flow := Accept(s.flow, t), desk := Grant(s.desk, i, t))
  }

  lemma Offers(c: Config, s: State, i: nat, t: Task, pc: SubmitPc)
    requires |s.flow.queue| < c.capacity && (pc == Offering(t) || pc == Blocking(t))
    ensures Moves(c, Put(s, i, pc), Offer(i), Accepted(s, i, t))
  {
    hide WorkerStep, AdjustStep, WorkerEnabled, AdjustEnabled;
  }

  lemma Loads(c: Config, s: State, i: nat, t: Task)
    requires |s.flow.queue| >= c.capacity && s.crew.workers < c.maxWorkers && !s.cancelled
    ensures Moves(c, Put(s, i, Offering(t)), Full(i), Put(s, i, Loading(t)))
    ensures Moves(c, Put(s, i, Loading(t)), Load(i), Put(s, i, Spawning(t)))
  {
    hide WorkerStep, AdjustStep, WorkerEnabled, AdjustEnabled;
  }

  function Spawned(s: State, w: Worker): State {
    s.(crew := Hire(s.crew, w), adjuster := NoteSpawn(s.adjuster))
  }

  lemma Spawns(c: Config, s: State, i: nat, t: Task, w: Worker)
    requires w !in s.crew.pcs
    ensures Moves(c, Put(s, i, Spawning(t)), Spawn(i, w), Put(Spawned(s, w), i, Blocking(t)))
  {
    hide WorkerStep, AdjustStep, WorkerEnabled, AdjustEnabled;
  }

  /** Worker w has taken the first task off the queue. */
  function Taken(s: State, w: Worker): State
    requires s.flow.queue != [] && s.flow.queue[0].Job?
  {
    var t := s.flow.queue[0].task;
    s.(flow := s.flow.(queue := s.flow.queue[1..], dequeued := s.flow.dequeued + [t]),
       crew := WorkerAt(s.crew, w, Received(t)))
  }

  lemma Takes(c: Config, s: State, i: nat, pc: SubmitPc, w: Worker)
    requires s.flow.queue != [] && s.flow.queue[0].Job? && w in s.crew.pcs && s.crew.pcs[w] == Waiting
    ensures Moves(c, Put(s, i, pc), Take(w), Put(Taken(s, w), i, pc))
  {
    hide SubmitStep, AdjustStep, AdjustEnabled;
  }

  // ---------------------------------------------------------------- situations

  predicate AllJobs(queue: seq<Item>) { forall i :: 0 <= i < |queue| ==> queue[i].Job? }

  /** What the adjuster knows: nothing, or that the queue is full and there are `seen` workers. */
  datatype Seen = Nothing | Crowded(length: nat, seen: nat)

  predicate Knows(a: AdjustPc, x: Seen) {
    match x
    case Nothing => a.Resting?
    case Crowded(length, seen) => a.GotWorkers? && a.length == length && a.current == seen
  }

  /** q tasks queued, m workers, and of k submitters those below j about to spawn, the others
      at rest. */
  ghost predicate Poised(s: State, q: nat, m: nat, k: nat, j: nat, x: Seen) {
    && !s.cancelled && s.crew.workers == m && Knows(s.adjuster, x)
    && |s.flow.queue| == q && AllJobs(s.flow.queue)
    && (forall i: nat :: i < k <==> i in s.desk.submitters)
    && (forall i: nat :: i in s.desk.submitters ==>
          if i < j then s.desk.submitters[i].Spawning? else s.desk.submitters[i].Ready?)
  }

  lemma StartsPoised(n: nat, k: nat)
    ensures Poised(Init(n, k), 0, n, k, 0, Nothing)
  {
    DeskAtRest(k);
  }

  lemma {:induction false} DeskAtRest(k: nat)
    ensures forall i: nat :: i < k <==> i in AtRest(k)
    ensures forall i: nat :: i in AtRest(k) ==> AtRest(k)[i] == Ready
  {
    if k > 0 {
      DeskAtRest(k - 1);
      assert forall i: nat :: i in AtRest(k) <==> i == k - 1 || i in AtRest(k - 1);
    }
  }

  lemma Offering1(c: Config, init: State, steps: seq<Step>, s: State, i: nat)
    returns (steps': seq<Step>)
    requires Run(c, init, steps) == Some(s) && !s.cancelled
    requires i in s.desk.submitters && s.desk.submitters[i].Ready?
    ensures Run(c, init, steps') == Some(Put(Named(s), i, Offering(s.desk.next)))
  {
    Calls(c, s, i);
    hide Run, Moves;
    var t := s.desk.next;
    Reach(c, init, steps, s, Call(i), Put(Named(s), i, Checking(t)));
    Reach(c, init, steps + [Call(i)], Put(Named(s), i, Checking(t)), Check(i), Put(Named(s), i, Offering(t)));
    steps' := steps + [Call(i)] + [Check(i)];
  }

  /** Submitter 0 puts one more task on the queue. */
  lemma Queues(c: Config, init: State, steps: seq<Step>, s: State, q: nat, m: nat, k: nat)
    returns (steps': seq<Step>, s': State)
    requires Run(c, init, steps) == Some(s) && Poised(s, q, m, k, 0, Nothing) && q < c.capacity && k > 0
    ensures Run(c, init, steps') == Some(s') && Poised(s', q + 1, m, k, 0, Nothing)
  {
    assert 0 in s.desk.submitters;
    var t := s.desk.next;
    var offering := Offering1(c, init, steps, s, 0);
    Offers(c, Named(s), 0, t, Offering(t));
    Reach(c, init, offering, Put(Named(s), 0, Offering(t)), Offer(0), Accepted(Named(s), 0, t));
    steps', s' := offering + [Offer(0)], Accepted(Named(s), 0, t);
  }

  /** Submitter j stops just short of spawning. */
  lemma Arms(c: Config, init: State, steps: seq<Step>, s: State, m: nat, k: nat, j: nat, x: Seen)
    returns (steps': seq<Step>, s': State)
    requires Run(c, init, steps) == Some(s) && Poised(s, c.capacity, m, k, j, x) && j < k && m < c.maxWorkers
    ensures Run(c, init, steps') == Some(s') && Poised(s', c.capacity, m, k, j + 1, x)
    ensures s' == Put(Named(s), j, Spawning(s.desk.next))
  {
    assert j in s.desk.submitters;
    var t := s.desk.next;
    var offering := Offering1(c, init, steps, s, j);
    Loads(c, Named(s), j, t);
    s' := Put(Named(s), j, Spawning(t));
    assert Run(c, init, offering + [Full(j)] + [Load(j)]) == Some(s') by {
      hide Run, Moves;
      Reach(c, init, offering, Put(Named(s), j, Offering(t)), Full(j), Put(Named(s), j, Loading(t)));
      Reach(c, init, offering + [Full(j)], Put(Named(s), j, Loading(t)), Load(j), s');
    }
    steps' := offering + [Full(j)] + [Load(j)];
  }

  /** Submitter 0 spawns a worker, which takes a task, so that the submitter can queue its own. */
  lemma Adds(c: Config, init: State, steps: seq<Step>, s: State, m: nat, k: nat, x: Seen)
    returns (steps': seq<Step>, s': State)
    requires Run(c, init, steps) == Some(s) && Poised(s, c.capacity, m, k, 0, x)
    requires k > 0 && m < c.maxWorkers && c.capacity > 0
    ensures Run(c, init, steps') == Some(s') && Poised(s', c.capacity, m + 1, k, 0, x)
  {
    var t := s.desk.next;
    var w := Unused(s.crew.pcs.Keys);
    var armed, u := Arms(c, init, steps, s, m, k, 0, x);
    var v := Spawned(Named(s), w);
    Spawns(c, Named(s), 0, t, w);
    Takes(c, v, 0, Blocking(t), w);
    Offers(c, Taken(v, w), 0, t, Blocking(t));
    s' := Accepted(Taken(v, w), 0, t);
    steps' := armed + [Spawn(0, w)] + [Take(w)] + [Offer(0)];
    assert Run(c, init, steps') == Some(s') by {
      hide Run, Moves;
      Reach(c, init, armed, u, Spawn(0, w), Put(v, 0, Blocking(t)));
      Reach(c, init, armed + [Spawn(0, w)], Put(v, 0, Blocking(t)), Take(w), Put(Taken(v, w), 0, Blocking(t)));
      Reach(c, init, armed + [Spawn(0, w)] + [Take(w)], Put(Taken(v, w), 0, Blocking(t)), Offer(0), s');
    }
  }

  lemma Ticks(c: Config, s: State)
    requires s.adjuster.Resting?
    ensures var t := s.(adjuster := GotLength(|s.flow.queue|));
            Moves(c, s, Tick, t)
  {
    hide SubmitStep, WorkerStep;
  }

  lemma LoadsWorkers(c: Config, s: State)
    requires s.adjuster.GotLength?
    ensures Moves(c, s, LoadWorkers, s.(adjuster := GotWorkers(s.adjuster.length, s.crew.workers, Outstanding(s), 0)))
  {
    hide SubmitStep, WorkerStep, Where, Nils;
  }

  lemma SeesCrowd(s: State, q: nat, m: nat, k: nat, outstanding: int)
    requires Poised(s, q, m, k, 0, Nothing)
    ensures Poised(s.(adjuster := GotWorkers(q, m, outstanding, 0)), q, m, k, 0, Crowded(q, m))
    ensures s.adjuster.Resting? && |s.flow.queue| == q && s.crew.workers == m
  {
  }

  lemma Looks(c: Config, init: State, steps: seq<Step>, s: State, q: nat, m: nat, k: nat)
    returns (steps': seq<Step>, s': State)
    requires Run(c, init, steps) == Some(s) && Poised(s, q, m, k, 0, Nothing)
    ensures Run(c, init, steps') == Some(s') && Poised(s', q, m, k, 0, Crowded(q, m))
  {
    var t := s.(adjuster := GotLength(q));
    s' := s.(adjuster := GotWorkers(q, m, Outstanding(t), 0));
    SeesCrowd(s, q, m, k, Outstanding(t));
    hide Run, Moves, Outstanding, Poised;
    Ticks(c, s);
    LoadsWorkers(c, t);
    Reach(c, init, steps, s, Tick, t);
    Reach(c, init, steps + [Tick], t, LoadWorkers, s');
    steps' := steps + [Tick] + [LoadWorkers];
  }

  // ---------------------------------------------------------------- the whole run

  lemma {:induction false} Fills(c: Config, n: nat, k: nat, q: nat) returns (steps: seq<Step>, s: State)
    requires k > 0 && q <= c.capacity
    ensures Run(c, Init(n, k), steps) == Some(s) && Poised(s, q, n, k, 0, Nothing)
  {
    if q == 0 {
      steps, s := [], Init(n, k);
      StartsPoised(n, k);
    } else {
      var before, t := Fills(c, n, k, q - 1);
      hide Poised, Run;
      steps, s := Queues(c, Init(n, k), before, t, q - 1, n, k);
    }
  }

  lemma {:induction false} Rises(c: Config, init: State, steps: seq<Step>, s: State, m: nat, top: nat, k: nat, x: Seen)
    returns (steps': seq<Step>, s': State)
    requires Run(c, init, steps) == Some(s) && Poised(s, c.capacity, m, k, 0, x)
    requires k > 0 && c.capacity > 0 && m <= top <= c.maxWorkers
    ensures Run(c, init, steps') == Some(s') && Poised(s', c.capacity, top, k, 0, x)
    decreases top - m
  {
    hide Poised, Run;
    if m == top {
      steps', s' := steps, s;
    } else {
      var after, t := Adds(c, init, steps, s, m, k, x);
      steps', s' := Rises(c, init, after, t, m + 1, top, k, x);
    }
  }

  lemma {:induction false} ArmsAll(c: Config, init: State, steps: seq<Step>, s: State, m: nat, k: nat, j: nat, x: Seen)
    returns (steps': seq<Step>, s': State)
    requires Run(c, init, steps) == Some(s) && Poised(s, c.capacity, m, k, j, x) && j <= k && m < c.maxWorkers
    ensures Run(c, init, steps') == Some(s') && Poised(s', c.capacity, m, k, k, x)
    decreases k - j
  {
    hide Poised, Run;
    if j == k {
      steps', s' := steps, s;
    } else {
      var after, t := Arms(c, init, steps, s, m, k, j, x);
      steps', s' := ArmsAll(c, init, after, t, m, k, j + 1, x);
    }
  }

  /** A full queue, h workers seen, one worker short of the maximum, and every submitter about
      to spawn. */
  lemma Gathers(c: Config, n: nat, k: nat, h: nat) returns (steps: seq<Step>, s: State)
    requires c.capacity > 0 && k > 0 && n <= h < c.maxWorkers
    ensures Run(c, Init(n, k), steps) == Some(s)
    ensures Poised(s, c.capacity, c.maxWorkers - 1, k, k, Crowded(c.capacity, h))
  {
    hide Poised, Run, Init;
    steps, s := Fills(c, n, k, c.capacity);
    steps, s := Rises(c, Init(n, k), steps, s, n, h, k, Nothing);
    steps, s := Looks(c, Init(n, k), steps, s, c.capacity, h, k);
    steps, s := Rises(c, Init(n, k), steps, s, h, c.maxWorkers - 1, k, Crowded(c.capacity, h));
    steps, s := ArmsAll(c, Init(n, k), steps, s, c.maxWorkers - 1, k, 0, Crowded(c.capacity, h));
  }

  lemma Decides(c: Config, s: State, k: nat, h: nat)
    requires c.capacity > 0 && h < c.maxWorkers < 0x8000_0000 && 2 * h <= c.maxWorkers
    requires Poised(s, c.capacity, c.maxWorkers - 1, k, k, Crowded(c.capacity, h))
    ensures Moves(c, s, Decide, s.(adjuster := Growing(h)))
  {
    hide SubmitStep, WorkerStep, Where, Nils;
    assert Int32(h * 2) == h * 2;
  }

  lemma AllSpawning(s: State, q: nat, m: nat, k: nat, x: Seen)
    requires Poised(s, q, m, k, k, x) && |s.desk.submitters.Keys| == k
    ensures |Where(s.desk.submitters, IsSpawning)| == k
  {
    assert Where(s.desk.submitters, IsSpawning) == s.desk.submitters.Keys;
  }

  /** For every queue, every 32-bit maximum, every number of submitters and every start of at
      most half the maximum, some run attains the bound of PeakBound. So maxWorkers is not a
      maximum wherever two submitters, or one and the adjuster, can spawn. */
  lemma PeakAttained(c: Config, n: nat, k: nat) returns (steps: seq<Step>, s: State)
    requires c.capacity > 0 && k > 0 && n <= c.maxWorkers / 2 && c.maxWorkers < 0x8000_0000
    ensures Run(c, Init(n, k), steps) == Some(s)
    ensures s.crew.workers == Peak(c, k)
    ensures c.maxWorkers >= 2 || (c.maxWorkers == 1 && k >= 2) ==> s.crew.workers > c.maxWorkers
  {
    if c.maxWorkers == 0 {
      steps, s := [], Init(n, k);
    } else {
      var h := c.maxWorkers / 2;
      var before, t := Gathers(c, n, k, h);
      RunPeak(c, n, k, before);
      AllSpawning(t, c.capacity, c.maxWorkers - 1, k, Crowded(c.capacity, h));
      Decides(c, t, k, h);
      var u := t.(adjuster := Growing(h));
      assert Committed(u) == Peak(c, k);
      hide Run, Moves, Committed, Init;
      Reach(c, Init(n, k), before, t, Decide, u);
      var more;
      more, s := Fulfil(c, Init(n, k), before + [Decide], u);
      steps := before + [Decide] + more;
    }
  }
}
