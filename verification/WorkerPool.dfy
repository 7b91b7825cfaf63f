/** The elastic worker pool of transport/tcp_highperf.go: workers, k submitters and the
    adjuster interleaving, one step per access to the queue, the counters or the context. */
module WorkerPool {
  import opened Types

  type Task = nat
  type Worker = nat

  /** Queue capacity and the worker bounds. */
  datatype Config = Config(capacity: nat, minWorkers: nat, maxWorkers: nat)

  /** A queued element: a task, or the nil marker that makes a worker leave. */
  datatype Item = Job(task: Task) | Nil

  datatype WorkerPc =
    | Waiting                   // at the select
    | Received(task: Task)      // about to increment active
    | Running(task: Task)       // inside the task
    | Returning(task: Task)     // about to decrement active
    | Leaving                   // about to decrement workers
    | Gone

  datatype SubmitPc =
    | Ready
    | Checking(task: Task)      // about to look at the context
    | Offering(task: Task)      // at the non-blocking select
    | Loading(task: Task)       // found the queue full, about to load workers
    | Spawning(task: Task)      // loaded workers < maxWorkers, about to spawn
    | Blocking(task: Task)      // at the blocking select

  datatype AdjustPc =
    | Resting
    | GotLength(length: nat)    // about to load workers
    | GotWorkers(length: nat, current: int,
                 outstanding: int,  // history: markers not yet acted on at the load
                 spawned: int)      // history: workers spawned since the load
    | Growing(left: nat)
    | Shrinking(left: nat)
    | Stopped

  /** The queue, and in order the tasks ever put on it and taken off it. */
  datatype Flow = Flow(queue: seq<Item>, accepted: seq<Task>, dequeued: seq<Task>)

  /** The counters, the workers, the tasks started in order, and those finished. */
  datatype Crew = Crew(workers: int, active: int, pcs: map<Worker, WorkerPc>, started: seq<Task>, finished: set<Task>)

  /** The submitters, the tasks for which Submit returned true and false, and the next
      unused task name. */
  datatype Desk = Desk(submitters: map<nat, SubmitPc>, granted: set<Task>, refused: set<Task>, next: Task)

  datatype State = State(flow: Flow, crew: Crew, desk: Desk, adjuster: AdjustPc, cancelled: bool)

  function Idle(n: nat): map<Worker, WorkerPc> {
    if n == 0 then map[] else Idle(n - 1)[n - 1 := Waiting]
  }

  function AtRest(k: nat): map<nat, SubmitPc> {
    if k == 0 then map[] else AtRest(k - 1)[k - 1 := Ready]
  }

  /** A pool with n idle workers and k submitters at rest. */
  function Init(n: nat, k: nat): State {
    State(Flow([], [], []),
          Crew(n, 0, Idle(n), [], {}),
          Desk(AtRest(k), {}, {}, 0),
          Resting, false)
  }

  datatype Step =
    | Call(i: nat) | Check(i: nat) | Offer(i: nat) | Refuse(i: nat) | Full(i: nat) | Load(i: nat)
    | Spawn(i: nat, w: Worker)
    | Handoff(i: nat, w: Worker)            // a send met by a waiting worker, queue empty
    | Take(w: Worker) | Begin(w: Worker) | Finish(w: Worker) | End(w: Worker)
    | Quit(w: Worker)                       // the worker sees the cancelled context
    | Decrement(w: Worker)
    | Tick | LoadWorkers | Decide
    | Grow(w: Worker)
    | Push | HandNil(w: Worker) | GiveUp | Rest
    | Stop                                  // the adjuster sees the cancelled context
    | Cancel

  function Min(a: int, b: int): int { if a < b then a else b }

  /** Two's complement of a 32-bit product. */
  function Int32(x: int): int { (x + 0x8000_0000) % 0x1_0000_0000 - 0x8000_0000 }

  /** How many workers the adjuster adds when it has seen `current`. */
  function Extra(c: Config, current: int): nat {
    var target := Min(Int32(current * 2), c.maxWorkers);
    if current < c.maxWorkers && current < target then target - current else 0
  }

  predicate GrowWanted(c: Config, length: nat, current: int) {
    c.capacity > 0 && 5 * length > 4 * c.capacity && current < c.maxWorkers
  }

  predicate ShrinkWanted(c: Config, length: nat, current: int, active: int) {
    c.capacity > 0 && 5 * length < c.capacity && current > c.minWorkers && active < current / 2
  }

  predicate IsAt(s: State, w: Worker, pc: WorkerPc) { w in s.crew.pcs && s.crew.pcs[w] == pc }

  predicate SubmitEnabled(c: Config, s: State, step: Step) {
    match step
    case Call(i) => i in s.desk.submitters && s.desk.submitters[i].Ready?
    case Check(i) => i in s.desk.submitters && s.desk.submitters[i].Checking?
    case Offer(i) =>
      i in s.desk.submitters && |s.flow.queue| < c.capacity
      && (s.desk.submitters[i].Offering? || s.desk.submitters[i].Blocking?)
    case Refuse(i) =>
      i in s.desk.submitters && s.cancelled
      && (s.desk.submitters[i].Offering? || s.desk.submitters[i].Blocking?)
    case Full(i) =>
      i in s.desk.submitters && s.desk.submitters[i].Offering? && |s.flow.queue| >= c.capacity && !s.cancelled
    case Load(i) => i in s.desk.submitters && s.desk.submitters[i].Loading?
    case Spawn(i, w) => i in s.desk.submitters && s.desk.submitters[i].Spawning? && w !in s.crew.pcs
    case Handoff(i, w) =>
      i in s.desk.submitters && (s.desk.submitters[i].Offering? || s.desk.submitters[i].Blocking?)
      && s.flow.queue == [] && IsAt(s, w, Waiting)
    case _ => false
  }

  predicate WorkerEnabled(s: State, step: Step) {
    match step
    case Take(w) => IsAt(s, w, Waiting) && s.flow.queue != []
    case Begin(w) => w in s.crew.pcs && s.crew.pcs[w].Received?
    case Finish(w) => w in s.crew.pcs && s.crew.pcs[w].Running?
    case End(w) => w in s.crew.pcs && s.crew.pcs[w].Returning?
    case Quit(w) => IsAt(s, w, Waiting) && s.cancelled
    case Decrement(w) => IsAt(s, w, Leaving)
    case _ => false
  }

  predicate AdjustEnabled(c: Config, s: State, step: Step) {
    match step
    case Tick => s.adjuster.Resting?
    case Stop => s.adjuster.Resting? && s.cancelled
    case LoadWorkers => s.adjuster.GotLength?
    case Decide => s.adjuster.GotWorkers?
    case Grow(w) => s.adjuster.Growing? && s.adjuster.left > 0 && w !in s.crew.pcs
    case Push => s.adjuster.Shrinking? && s.adjuster.left > 0 && |s.flow.queue| < c.capacity
    case HandNil(w) => s.adjuster.Shrinking? && s.adjuster.left > 0 && s.flow.queue == [] && IsAt(s, w, Waiting)
    case GiveUp => s.adjuster.Shrinking? && s.adjuster.left > 0 && |s.flow.queue| >= c.capacity
    case Rest => (s.adjuster.Growing? || s.adjuster.Shrinking?) && s.adjuster.left == 0
    case _ => false
  }

  predicate Enabled(c: Config, s: State, step: Step) {
    step.Cancel? || SubmitEnabled(c, s, step) || WorkerEnabled(s, step) || AdjustEnabled(c, s, step)
  }

  function At(d: Desk, i: nat, pc: SubmitPc): Desk { d.(submitters := d.submitters[i := pc]) }

  /** Submit returns true. */
  function Grant(d: Desk, i: nat, t: Task): Desk { At(d, i, Ready).(granted := d.granted + {t}) }

  /** Submit returns false. */
  function Deny(d: Desk, i: nat, t: Task): Desk { At(d, i, Ready).(refused := d.refused + {t}) }

  function WorkerAt(crew: Crew, w: Worker, pc: WorkerPc): Crew { crew.(pcs := crew.pcs[w := pc]) }

  /** A new worker starts waiting. */
  function Hire(crew: Crew, w: Worker): Crew {
    WorkerAt(crew, w, Waiting).(workers := crew.workers + 1)
  }

  /** The adjuster's history notes a spawn between its load and its decision. */
  function NoteSpawn(a: AdjustPc): AdjustPc {
    if a.GotWorkers? then a.(spawned := a.spawned + 1) else a
  }

  function TaskOf(pc: SubmitPc): Task { if pc.Ready? then 0 else pc.task }

  function Accept(f: Flow, t: Task): Flow { f.(queue := f.queue + [Job(t)], accepted := f.accepted + [t]) }

  function SubmitStep(c: Config, s: State, step: Step): State
    requires SubmitEnabled(c, s, step)
  {
    var i := step.i;
    var pc := s.desk.submitters[i];
    var t := TaskOf(pc);
    match step
    case Call(_) => s.(desk := At(s.desk, i, Checking(s.desk.next)).(next := s.desk.next + 1))
    case Check(_) =>
      if s.cancelled then s.(desk := Deny(s.desk, i, t))
      else s.(desk := At(s.desk, i, Offering(t)))
    case Offer(_) => s.(flow := Accept(s.flow, t), desk := Grant(s.desk, i, t))
    case Refuse(_) => s.(desk := Deny(s.desk, i, t))
    case Full(_) => s.(desk := At(s.desk, i, Loading(t)))
    case Load(_) => s.(desk := At(s.desk, i, if s.crew.workers < c.maxWorkers then Spawning(t) else Blocking(t)))
    case Spawn(_, w) =>
      s.(crew := Hire(s.crew, w), desk := At(s.desk, i, Blocking(t)), adjuster := NoteSpawn(s.adjuster))
    case Handoff(_, w) =>
      s.(flow := Flow([], s.flow.accepted + [t], s.flow.dequeued + [t]),
         crew := WorkerAt(s.crew, w, Received(t)), desk := Grant(s.desk, i, t))
  }

  function WorkerStep(s: State, step: Step): State
    requires WorkerEnabled(s, step)
  {
    var w := step.w;
    match step
    case Take(_) =>
      var rest := s.flow.(queue := s.flow.queue[1..]);
      (match s.flow.queue[0]
       case Job(t) => s.(flow := rest.(dequeued := rest.dequeued + [t]), crew := WorkerAt(s.crew, w, Received(t)))
       case Nil => s.(flow := rest, crew := WorkerAt(s.crew, w, Leaving)))
    case Begin(_) =>
      var t := s.crew.pcs[w].task;
      s.(crew := WorkerAt(s.crew, w, Running(t)).(active := s.crew.active + 1, started := s.crew.started + [t]))
    case Finish(_) =>
      var t := s.crew.pcs[w].task;
      s.(crew := WorkerAt(s.crew, w, Returning(t)).(finished := s.crew.finished + {t}))
    case End(_) => s.(crew := WorkerAt(s.crew, w, Waiting).(active := s.crew.active - 1))
    case Quit(_) => s.(crew := WorkerAt(s.crew, w, Leaving))
    case Decrement(_) => s.(crew := WorkerAt(s.crew, w, Gone).(workers := s.crew.workers - 1))
  }

  function AdjustStep(c: Config, s: State, step: Step): State
    requires AdjustEnabled(c, s, step)
  {
    match step
    case Tick => s.(adjuster := GotLength(|s.flow.queue|))
    case LoadWorkers => s.(adjuster := GotWorkers(s.adjuster.length, s.crew.workers, Outstanding(s), 0))
    case Decide =>
      var a := s.adjuster;
      if GrowWanted(c, a.length, a.current) then s.(adjuster := Growing(Extra(c, a.current)))
      else if ShrinkWanted(c, a.length, a.current, s.crew.active) then
        s.(adjuster := Shrinking(a.current - c.minWorkers))
      else s.(adjuster := Resting)
    case Grow(w) => s.(crew := Hire(s.crew, w), adjuster := Growing(s.adjuster.left - 1))
    case Push => s.(flow := s.flow.(queue := s.flow.queue + [Nil]), adjuster := Shrinking(s.adjuster.left - 1))
    case HandNil(w) => s.(crew := WorkerAt(s.crew, w, Leaving), adjuster := Shrinking(s.adjuster.left - 1))
    case GiveUp => s.(adjuster := Resting)
    case Rest => s.(adjuster := Resting)
    case Stop => s.(adjuster := Stopped)
  }

  function Apply(c: Config, s: State, step: Step): State
    requires Enabled(c, s, step)
  {
    if step.Cancel? then s.(cancelled := true)
    else if SubmitEnabled(c, s, step) then SubmitStep(c, s, step)
    else if WorkerEnabled(s, step) then WorkerStep(s, step)
    else AdjustStep(c, s, step)
  }

  function Run(c: Config, init: State, steps: seq<Step>): Option<State> {
    if steps == [] then Some(init)
    else
      var last := |steps| - 1;
      match Run(c, init, steps[..last])
      case None => None
      case Some(s) => if Enabled(c, s, steps[last]) then Some(Apply(c, s, steps[last])) else None
  }

  // ---------------------------------------------------------------- markers

  /** The keys whose value satisfies p. */
  function Where<K, V>(m: map<K, V>, p: V -> bool): set<K> {
    set k | k in m && p(m[k])
  }

  predicate IsLeaving(pc: WorkerPc) { pc.Leaving? }

  function Nils(queue: seq<Item>): nat {
    if queue == [] then 0
    else Nils(queue[..|queue| - 1]) + (if queue[|queue| - 1].Nil? then 1 else 0)
  }

  /** Markers queued or taken by a worker that has not yet decremented the counter. */
  function Outstanding(s: State): int { Nils(s.flow.queue) + |Where(s.crew.pcs, IsLeaving)| }
}
