/** What becomes of the tasks given to the worker pool, over every run. */
module WorkerPoolTasks {
  import opened Types
  import opened WorkerPool

  function Jobs(queue: seq<Item>): seq<Task> {
    if queue == [] then []
    else Jobs(queue[..|queue| - 1]) + (match queue[|queue| - 1] case Job(t) => [t] case Nil => [])
  }

  predicate InHand(pcs: map<Worker, WorkerPc>, t: Task) {
    exists w :: w in pcs && pcs[w] == WorkerPc.Received(t)
  }

  predicate Inside(pcs: map<Worker, WorkerPc>, t: Task) {
    exists w :: w in pcs && pcs[w] == Running(t)
  }

  /** A Submit call for t has not returned. */
  predicate Pending(submitters: map<nat, SubmitPc>, t: Task) {
    exists i :: i in submitters && !submitters[i].Ready? && TaskOf(submitters[i]) == t
  }

  predicate FlowInv(f: Flow) {
    f.accepted == f.dequeued + Jobs(f.queue) && Distinct(f.accepted)
  }

  /** Every task ever submitted is pending, accepted or refused, and only one of these;
      Submit has returned true for exactly the accepted ones. */
  ghost predicate DeskInv(d: Desk, accepted: seq<Task>) {
    && (forall t :: t in d.granted <==> t in accepted)
    && (forall t :: t in accepted ==> t < d.next && t !in d.refused && !Pending(d.submitters, t))
    && (forall t :: t in d.refused ==> t < d.next && !Pending(d.submitters, t))
    && (forall t: Task :: Pending(d.submitters, t) ==> t < d.next)
    && (forall t: Task :: t < d.next ==> t in accepted || t in d.refused || Pending(d.submitters, t))
    && (forall i, j :: i in d.submitters && j in d.submitters && i != j
                       && !d.submitters[i].Ready? && !d.submitters[j].Ready? ==>
                         TaskOf(d.submitters[i]) != TaskOf(d.submitters[j]))
  }

  predicate Holds(pc: WorkerPc) { pc.Received? || pc.Running? }

  /** Every dequeued task is with a worker about to start it, or was started, once; every
      started task is running or finished. */
  ghost predicate CrewInv(crew: Crew, dequeued: seq<Task>) {
    && Distinct(crew.started)
    && (forall t :: t in dequeued <==> t in crew.started || InHand(crew.pcs, t))
    && (forall t :: t in crew.started <==> t in crew.finished || Inside(crew.pcs, t))
    && (forall w :: w in crew.pcs && crew.pcs[w].Received? ==> crew.pcs[w].task !in crew.started)
    && (forall w :: w in crew.pcs && crew.pcs[w].Running? ==> crew.pcs[w].task !in crew.finished)
    && (forall v, w :: v in crew.pcs && w in crew.pcs && v != w && Holds(crew.pcs[v]) && Holds(crew.pcs[w]) ==>
                         crew.pcs[v].task != crew.pcs[w].task)
  }

  ghost predicate TasksInv(s: State) {
    FlowInv(s.flow) && DeskInv(s.desk, s.flow.accepted) && CrewInv(s.crew, s.flow.dequeued)
  }

  // ---------------------------------------------------------------- the queue

  lemma JobsAppend(queue: seq<Item>, x: Item)
    ensures Jobs(queue + [x]) == Jobs(queue) + (match x case Job(t) => [t] case Nil => [])
  {
    assert (queue + [x])[..|queue|] == queue;
  }

  lemma {:induction false} JobsTail(queue: seq<Item>)
    requires queue != []
    ensures Jobs(queue) == (match queue[0] case Job(t) => [t] case Nil => []) + Jobs(queue[1..])
  {
    if |queue| > 1 {
      var front := queue[..|queue| - 1];
      JobsTail(front);
      assert front[1..] == queue[1..][..|queue[1..]| - 1];
    } else {
      assert queue[..0] == [];
    }
  }

  lemma FlowAccept(f: Flow, t: Task)
    requires FlowInv(f) && t !in f.accepted
    ensures FlowInv(Accept(f, t))
  {
    JobsAppend(f.queue, Job(t));
  }

  lemma FlowMark(f: Flow)
    requires FlowInv(f)
    ensures FlowInv(f.(queue := f.queue + [Nil]))
  {
    JobsAppend(f.queue, Nil);
  }

  lemma FlowTake(f: Flow)
    requires FlowInv(f) && f.queue != []
    ensures match f.queue[0]
            case Job(t) => t !in f.dequeued && FlowInv(f.(queue := f.queue[1..], dequeued := f.dequeued + [t]))
            case Nil => FlowInv(f.(queue := f.queue[1..]))
  {
    JobsTail(f.queue);
    match f.queue[0]
    case Job(t) =>
      var tail := Jobs(f.queue[1..]);
      assert f.accepted == f.dequeued + [t] + tail;
      assert f.accepted[|f.dequeued|] == t;
      assert forall i :: 0 <= i < |f.dequeued| ==> f.accepted[i] == f.dequeued[i];
    case Nil =>
  }

  // ---------------------------------------------------------------- the workers

  lemma WorkerMoves(pcs: map<Worker, WorkerPc>, w: Worker, pc: WorkerPc, t: Task)
    ensures InHand(pcs[w := pc], t) <==>
              pc == WorkerPc.Received(t) || InHand(map v | v in pcs && v != w :: pcs[v], t)
    ensures Inside(pcs[w := pc], t) <==>
              pc == Running(t) || Inside(map v | v in pcs && v != w :: pcs[v], t)
  {
    var rest := map v | v in pcs && v != w :: pcs[v];
    assert w in pcs[w := pc] && pcs[w := pc][w] == pc;
    if InHand(rest, t) {
      var v :| v in rest && rest[v] == WorkerPc.Received(t);
      assert pcs[w := pc][v] == WorkerPc.Received(t);
    }
    if InHand(pcs[w := pc], t) && pc != WorkerPc.Received(t) {
      var v :| v in pcs[w := pc] && pcs[w := pc][v] == WorkerPc.Received(t);
      assert rest[v] == WorkerPc.Received(t);
    }
    if Inside(rest, t) {
      var v :| v in rest && rest[v] == Running(t);
      assert pcs[w := pc][v] == Running(t);
    }
    if Inside(pcs[w := pc], t) && pc != Running(t) {
      var v :| v in pcs[w := pc] && pcs[w := pc][v] == Running(t);
      assert rest[v] == Running(t);
    }
  }

  /** The worker takes a task off the queue, or is handed one. */
  lemma CrewTakes(crew: Crew, dequeued: seq<Task>, w: Worker, t: Task)
    requires CrewInv(crew, dequeued) && t !in dequeued
    requires w in crew.pcs && crew.pcs[w] == Waiting
    ensures CrewInv(WorkerAt(crew, w, WorkerPc.Received(t)), dequeued + [t])
  {
    var pcs' := crew.pcs[w := WorkerPc.Received(t)];
    forall u
      ensures InHand(pcs', u) <==> u == t || InHand(crew.pcs, u)
      ensures Inside(pcs', u) <==> Inside(crew.pcs, u)
    {
      WorkerMoves(crew.pcs, w, WorkerPc.Received(t), u);
      WorkerMoves(crew.pcs, w, Waiting, u);
      assert crew.pcs[w := Waiting] == crew.pcs;
    }
    hide InHand, Inside, Distinct;
    forall v | v in crew.pcs && Holds(crew.pcs[v])
      ensures crew.pcs[v].task != t
    {
      Held(crew, dequeued, v);
    }
  }

  lemma Held(crew: Crew, dequeued: seq<Task>, v: Worker)
    requires CrewInv(crew, dequeued) && v in crew.pcs && Holds(crew.pcs[v])
    ensures crew.pcs[v].task in dequeued
    ensures crew.pcs[v].Received? ==> InHand(crew.pcs, crew.pcs[v].task)
    ensures crew.pcs[v].Running? ==> Inside(crew.pcs, crew.pcs[v].task) && crew.pcs[v].task in crew.started
  {
    assert crew.pcs[v] == WorkerPc.Received(crew.pcs[v].task) || crew.pcs[v] == Running(crew.pcs[v].task);
  }

  lemma CrewBegins(crew: Crew, dequeued: seq<Task>, w: Worker, t: Task)
    requires CrewInv(crew, dequeued)
    requires w in crew.pcs && crew.pcs[w] == WorkerPc.Received(t)
    ensures CrewInv(WorkerAt(crew, w, Running(t)).(active := crew.active + 1, started := crew.started + [t]), dequeued)
  {
    var pcs' := crew.pcs[w := Running(t)];
    forall u
      ensures InHand(pcs', u) <==> u != t && InHand(crew.pcs, u)
      ensures Inside(pcs', u) <==> u == t || Inside(crew.pcs, u)
    {
      Only(crew, dequeued, w, u);
      WorkerMoves(crew.pcs, w, Running(t), u);
      WorkerMoves(crew.pcs, w, WorkerPc.Received(t), u);
      assert crew.pcs[w := WorkerPc.Received(t)] == crew.pcs;
    }
    Held(crew, dequeued, w);
    hide InHand, Inside;
  }

  /** Nobody else holds the task that w holds. */
  lemma Only(crew: Crew, dequeued: seq<Task>, w: Worker, t: Task)
    requires CrewInv(crew, dequeued)
    requires w in crew.pcs && Holds(crew.pcs[w])
    ensures var rest := map v | v in crew.pcs && v != w :: crew.pcs[v];
            t == crew.pcs[w].task ==> !InHand(rest, t) && !Inside(rest, t)
  {
    var rest := map v | v in crew.pcs && v != w :: crew.pcs[v];
    forall v | v in rest && Holds(rest[v])
      ensures rest[v].task != crew.pcs[w].task
    {
    }
  }

  lemma CrewFinishes(crew: Crew, dequeued: seq<Task>, w: Worker, t: Task)
    requires CrewInv(crew, dequeued)
    requires w in crew.pcs && crew.pcs[w] == Running(t)
    ensures CrewInv(WorkerAt(crew, w, Returning(t)).(finished := crew.finished + {t}), dequeued)
  {
    var pcs' := crew.pcs[w := Returning(t)];
    forall u
      ensures InHand(pcs', u) <==> InHand(crew.pcs, u)
      ensures Inside(pcs', u) <==> u != t && Inside(crew.pcs, u)
    {
      Only(crew, dequeued, w, u);
      WorkerMoves(crew.pcs, w, Returning(t), u);
      WorkerMoves(crew.pcs, w, Running(t), u);
      assert crew.pcs[w := Running(t)] == crew.pcs;
    }
    Held(crew, dequeued, w);
    hide InHand, Inside, Distinct;
  }

  /** A worker without a task, or one that has none yet, moves on. */
  lemma CrewIdles(crew: Crew, dequeued: seq<Task>, w: Worker, pc: WorkerPc, workers: int, active: int)
    requires CrewInv(crew, dequeued)
    requires w in crew.pcs ==> !Holds(crew.pcs[w])
    requires !Holds(pc)
    ensures CrewInv(WorkerAt(crew, w, pc).(workers := workers, active := active), dequeued)
  {
    var pcs' := crew.pcs[w := pc];
    forall u
      ensures InHand(pcs', u) <==> InHand(crew.pcs, u)
      ensures Inside(pcs', u) <==> Inside(crew.pcs, u)
    {
      WorkerMoves(crew.pcs, w, pc, u);
      if w in crew.pcs {
        WorkerMoves(crew.pcs, w, crew.pcs[w], u);
        assert crew.pcs[w := crew.pcs[w]] == crew.pcs;
      } else {
        assert (map v | v in crew.pcs && v != w :: crew.pcs[v]) == crew.pcs;
      }
    }
    hide InHand, Inside, Distinct;
  }

  // ---------------------------------------------------------------- the submitters

  lemma SubmitterMoves(submitters: map<nat, SubmitPc>, i: nat, pc: SubmitPc, t: Task)
    ensures Pending(submitters[i := pc], t) <==>
              (!pc.Ready? && TaskOf(pc) == t) || Pending(map j | j in submitters && j != i :: submitters[j], t)
  {
    var rest := map j | j in submitters && j != i :: submitters[j];
    assert i in submitters[i := pc] && submitters[i := pc][i] == pc;
    if Pending(rest, t) {
      var j :| j in rest && !rest[j].Ready? && TaskOf(rest[j]) == t;
      assert submitters[i := pc][j] == rest[j];
    }
    if Pending(submitters[i := pc], t) && (pc.Ready? || TaskOf(pc) != t) {
      var j :| j in submitters[i := pc] && !submitters[i := pc][j].Ready? && TaskOf(submitters[i := pc][j]) == t;
      assert rest[j] == submitters[j];
    }
  }

  lemma Waits(submitters: map<nat, SubmitPc>, i: nat)
    requires i in submitters && !submitters[i].Ready?
    ensures Pending(submitters, TaskOf(submitters[i]))
  {
  }

  /** A step of submitter i changes at most whether its own task is pending. */
  lemma PendingChange(d: Desk, accepted: seq<Task>, i: nat, pc: SubmitPc, t: Task)
    requires DeskInv(d, accepted) && i in d.submitters
    ensures Pending(d.submitters[i := pc], t) <==>
              (!pc.Ready? && TaskOf(pc) == t)
              || (Pending(d.submitters, t) && (d.submitters[i].Ready? || TaskOf(d.submitters[i]) != t))
  {
    var rest := map j | j in d.submitters && j != i :: d.submitters[j];
    SubmitterMoves(d.submitters, i, pc, t);
    SubmitterMoves(d.submitters, i, d.submitters[i], t);
    assert d.submitters[i := d.submitters[i]] == d.submitters;
    if !d.submitters[i].Ready? && TaskOf(d.submitters[i]) == t {
      forall j | j in rest && !rest[j].Ready?
        ensures TaskOf(rest[j]) != t
      {
      }
    }
  }

  lemma DeskCalls(d: Desk, accepted: seq<Task>, i: nat)
    requires DeskInv(d, accepted) && i in d.submitters && d.submitters[i].Ready?
    ensures DeskInv(At(d, i, Checking(d.next)).(next := d.next + 1), accepted)
  {
    var after := d.submitters[i := Checking(d.next)];
    forall t
      ensures Pending(after, t) <==> t == d.next || Pending(d.submitters, t)
    {
      PendingChange(d, accepted, i, Checking(d.next), t);
    }
    forall j | j in d.submitters && !d.submitters[j].Ready?
      ensures TaskOf(d.submitters[j]) != d.next
    {
      Waits(d.submitters, j);
    }
    hide Pending;
  }

  lemma DeskMoves(d: Desk, accepted: seq<Task>, i: nat, pc: SubmitPc)
    requires DeskInv(d, accepted) && i in d.submitters && !d.submitters[i].Ready?
    requires !pc.Ready? && TaskOf(pc) == TaskOf(d.submitters[i])
    ensures DeskInv(At(d, i, pc), accepted)
  {
    var after := d.submitters[i := pc];
    forall t
      ensures Pending(after, t) <==> Pending(d.submitters, t)
    {
      PendingChange(d, accepted, i, pc, t);
      Waits(d.submitters, i);
    }
    hide Pending;
  }

  lemma DeskReturns(d: Desk, accepted: seq<Task>, i: nat, t: Task)
    requires DeskInv(d, accepted) && i in d.submitters && !d.submitters[i].Ready? && TaskOf(d.submitters[i]) == t
    ensures t !in accepted
    ensures DeskInv(Grant(d, i, t), accepted + [t])
    ensures DeskInv(Deny(d, i, t), accepted)
  {
    var after := d.submitters[i := Ready];
    forall u
      ensures Pending(after, u) <==> u != t && Pending(d.submitters, u)
    {
      PendingChange(d, accepted, i, Ready, u);
    }
    Waits(d.submitters, i);
    hide Pending;
  }

  // ---------------------------------------------------------------- steps and runs

  lemma TasksSubmit(c: Config, s: State, step: Step)
    requires TasksInv(s) && SubmitEnabled(c, s, step)
    ensures TasksInv(SubmitStep(c, s, step))
  {
    hide FlowInv, DeskInv, CrewInv;
    var t := TaskOf(s.desk.submitters[step.i]);
    match step
    case Call(i) => DeskCalls(s.desk, s.flow.accepted, i);
    case Check(i) => DeskReturns(s.desk, s.flow.accepted, i, t); DeskMoves(s.desk, s.flow.accepted, i, Offering(t));
    case Offer(i) => DeskReturns(s.desk, s.flow.accepted, i, t); FlowAccept(s.flow, t);
    case Refuse(i) => DeskReturns(s.desk, s.flow.accepted, i, t);
    case Full(i) => DeskMoves(s.desk, s.flow.accepted, i, Loading(t));
    case Load(i) => DeskMoves(s.desk, s.flow.accepted, i, SubmitStep(c, s, step).desk.submitters[i]);
    case Spawn(i, w) =>
      DeskMoves(s.desk, s.flow.accepted, i, Blocking(t));
      CrewIdles(s.crew, s.flow.dequeued, w, Waiting, s.crew.workers + 1, s.crew.active);
    case Handoff(i, w) =>
      DeskReturns(s.desk, s.flow.accepted, i, t);
      FlowHandoff(s.flow, t);
      CrewTakes(s.crew, s.flow.dequeued, w, t);
  }

  lemma FlowHandoff(f: Flow, t: Task)
    requires FlowInv(f) && f.queue == [] && t !in f.accepted
    ensures t !in f.dequeued && FlowInv(Flow([], f.accepted + [t], f.dequeued + [t]))
  {
    assert f.accepted == f.dequeued;
  }

  lemma TasksWorker(c: Config, s: State, step: Step)
    requires TasksInv(s) && WorkerEnabled(s, step)
    ensures TasksInv(WorkerStep(s, step))
  {
    hide FlowInv, DeskInv, CrewInv;
    match step
    case Take(w) =>
      FlowTake(s.flow);
      if s.flow.queue[0].Job? {
        CrewTakes(s.crew, s.flow.dequeued, w, s.flow.queue[0].task);
      } else {
        CrewIdles(s.crew, s.flow.dequeued, w, Leaving, s.crew.workers, s.crew.active);
      }
    case Begin(w) => CrewBegins(s.crew, s.flow.dequeued, w, s.crew.pcs[w].task);
    case Finish(w) => CrewFinishes(s.crew, s.flow.dequeued, w, s.crew.pcs[w].task);
    case End(w) => CrewIdles(s.crew, s.flow.dequeued, w, Waiting, s.crew.workers, s.crew.active - 1);
    case Quit(w) => CrewIdles(s.crew, s.flow.dequeued, w, Leaving, s.crew.workers, s.crew.active);
    case Decrement(w) => CrewIdles(s.crew, s.flow.dequeued, w, Gone, s.crew.workers - 1, s.crew.active);
  }

  lemma TasksAdjust(c: Config, s: State, step: Step)
    requires TasksInv(s) && AdjustEnabled(c, s, step)
    ensures TasksInv(AdjustStep(c, s, step))
  {
    hide FlowInv, DeskInv, CrewInv, GrowWanted, ShrinkWanted, Extra, Outstanding;
    match step
    case Grow(w) => CrewIdles(s.crew, s.flow.dequeued, w, Waiting, s.crew.workers + 1, s.crew.active);
    case Push => FlowMark(s.flow);
    case HandNil(w) => CrewIdles(s.crew, s.flow.dequeued, w, Leaving, s.crew.workers, s.crew.active);
    case _ =>
  }

  lemma TasksStep(c: Config, s: State, step: Step)
    requires TasksInv(s) && Enabled(c, s, step)
    ensures TasksInv(Apply(c, s, step))
  {
    hide FlowInv, DeskInv, CrewInv, SubmitStep, WorkerStep, AdjustStep, SubmitEnabled, WorkerEnabled, AdjustEnabled;
    if step.Cancel? {
    } else if SubmitEnabled(c, s, step) {
      TasksSubmit(c, s, step);
    } else if WorkerEnabled(s, step) {
      TasksWorker(c, s, step);
    } else {
      TasksAdjust(c, s, step);
    }
  }

  lemma {:induction false} InitIdle(n: nat)
    ensures forall w :: w in Idle(n) ==> Idle(n)[w] == Waiting
  {
    if n > 0 {
      InitIdle(n - 1);
    }
  }

  lemma {:induction false} InitRests(k: nat)
    ensures forall i :: i in AtRest(k) ==> AtRest(k)[i] == Ready
  {
    if k > 0 {
      InitRests(k - 1);
    }
  }

  lemma {:induction false} RunTasks(c: Config, n: nat, k: nat, steps: seq<Step>)
    ensures Run(c, Init(n, k), steps).Some? ==> TasksInv(Run(c, Init(n, k), steps).value)
  {
    hide Enabled, Apply;
    if steps == [] {
      InitIdle(n);
      InitRests(k);
    } else {
      hide TasksInv, Init;
      var last := |steps| - 1;
      RunTasks(c, n, k, steps[..last]);
      if Run(c, Init(n, k), steps).Some? {
        TasksStep(c, Run(c, Init(n, k), steps[..last]).value, steps[last]);
      }
    }
  }

  /** Whatever the submitters, workers and the adjuster do, with or without cancellation: the
      tasks for which Submit returned true are those queued, with a worker, or finished, each
      in one of these places; they leave the queue in the order in which they were accepted
      and no task is started twice. */
  lemma TasksAccountedFor(c: Config, n: nat, k: nat, steps: seq<Step>, s: State)
    requires Run(c, Init(n, k), steps) == Some(s)
    ensures s.flow.accepted == s.flow.dequeued + Jobs(s.flow.queue) && Distinct(s.flow.accepted)
    ensures forall t :: t in s.desk.granted <==>
              t in Jobs(s.flow.queue) || InHand(s.crew.pcs, t) || Inside(s.crew.pcs, t) || t in s.crew.finished
    ensures forall t :: t in Jobs(s.flow.queue) ==> t !in s.flow.dequeued
    ensures forall t :: InHand(s.crew.pcs, t) ==> t !in s.crew.started
    ensures forall t :: Inside(s.crew.pcs, t) ==> t !in s.crew.finished
    ensures forall t :: t in s.flow.dequeued <==>
              InHand(s.crew.pcs, t) || Inside(s.crew.pcs, t) || t in s.crew.finished
    ensures Distinct(s.crew.started)
  {
    RunTasks(c, n, k, steps);
    hide Run, Init;
    var jobs := Jobs(s.flow.queue);
    forall t | t in jobs
      ensures t !in s.flow.dequeued
    {
      var i :| 0 <= i < |jobs| && jobs[i] == t;
      assert s.flow.accepted[|s.flow.dequeued| + i] == t;
      assert forall j :: 0 <= j < |s.flow.dequeued| ==> s.flow.accepted[j] == s.flow.dequeued[j];
    }
  }

  /** A task for which Submit returned false is never queued and never run, and every task
      submitted so far has been accepted, refused, or is still with its caller. */
  lemma RefusedNeverRun(c: Config, n: nat, k: nat, steps: seq<Step>, s: State)
    requires Run(c, Init(n, k), steps) == Some(s)
    ensures forall t :: t in s.desk.refused ==>
              t !in s.desk.granted && Job(t) !in s.flow.queue && t !in s.flow.dequeued && t !in s.crew.started
    ensures forall t: Task :: t < s.desk.next ==>
              t in s.desk.granted || t in s.desk.refused || Pending(s.desk.submitters, t)
  {
    RunTasks(c, n, k, steps);
    hide Run, Init;
    forall t | Job(t) in s.flow.queue
      ensures t in s.flow.accepted
    {
      JobsHas(s.flow.queue, t);
    }
  }

  lemma {:induction false} JobsHas(queue: seq<Item>, t: Task)
    requires Job(t) in queue
    ensures t in Jobs(queue)
  {
    var last := |queue| - 1;
    if queue[last] != Job(t) {
      assert queue == queue[..last] + [queue[last]];
      JobsHas(queue[..last], t);
    }
  }
}
