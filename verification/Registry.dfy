/** The device registry and the connection lifecycle of TCPServer (transport/tcp.go):
    handleConn from accept to cleanup and SetDeviceID in its three real steps, for any number
    of connections interleaving, the calls on one connection being sequential. */
module Registry {
  import opened Types

  type ConnId = nat
  type Device = string

  /** Inside SetDeviceID: the field has been swapped; then the old entry has been dealt with. */
  datatype Rename = Idle | Swapped(previous: Device) | Dropped(previous: Device)

  datatype Phase =
    | Accepted                  // about to count itself in ActiveConnections
    | Counted                   // about to count itself in TotalConnections
    | Hook(i: nat)              // about to run OnConnect hook i, or to serve after the last
    | Rejected                  // an OnConnect hook failed; about to uncount itself
    | Serving                   // in the read loop
    | Leaving(j: nat)           // about to run OnDisconnect hook j, or to clean up after the last
    | Removing                  // about to compare-and-delete its own device id
    | Closing                   // about to close and uncount itself
    | Done(accepted: bool)

  datatype Conn = Conn(
    deviceId: Device, phase: Phase, rename: Rename,
    // history
    namedByHook: bool,          // an OnConnect hook called SetDeviceID
    hooksRun: seq<nat>,         // OnDisconnect hooks run, in order
    decrements: nat)            // how often it has decremented ActiveConnections

  /** What happened to the registry: a store, or a compare-and-delete by a connection. */
  datatype Event = Stored(conn: ConnId, device: Device) | Removed(conn: ConnId, device: Device)

  datatype State = State(
    conns: map<ConnId, Conn>,
    registry: map<Device, ConnId>,
    active: int,
    total: int,
    history: seq<Event>)

  /** How many OnConnect and OnDisconnect hooks the server has. */
  datatype Hooks = Hooks(connect: nat, disconnect: nat)

  function Init(): State { State(map[], map[], 0, 0, []) }

  datatype Step =
    | Accept(conn: ConnId)
    | CountActive(conn: ConnId)
    | CountTotal(conn: ConnId)
    | HookPasses(conn: ConnId)
    | HookFails(conn: ConnId)
    | Uncount(conn: ConnId)         // the exit path of a rejected connection
    | Serve(conn: ConnId)
    | Leave(conn: ConnId)           // the read loop returns
    | RunHook(conn: ConnId)
    | ReadId(conn: ConnId)
    | Remove(conn: ConnId)
    | Finish(conn: ConnId)
    | Swap(conn: ConnId, id: Device)    // SetDeviceID(id) swaps the field
    | Drop(conn: ConnId)                // ... deletes the old entry if it is still its own
    | Store(conn: ConnId)               // ... stores the new one

  /** User code, which may call SetDeviceID, runs in hooks and in message handlers. */
  predicate InUserCode(h: Hooks, p: Phase) {
    p.Serving? || (p.Hook? && p.i < h.connect) || (p.Leaving? && p.j < h.disconnect)
  }

  predicate PhaseAllows(h: Hooks, p: Phase, step: Step) {
    match step
    case CountActive(_) => p.Accepted?
    case CountTotal(_) => p.Counted?
    case HookPasses(_) => p.Hook? && p.i < h.connect
    case HookFails(_) => p.Hook? && p.i < h.connect
    case Uncount(_) => p.Rejected?
    case Serve(_) => p == Hook(h.connect)
    case Leave(_) => p.Serving?
    case RunHook(_) => p.Leaving? && p.j < h.disconnect
    case ReadId(_) => p == Leaving(h.disconnect)
    case Remove(_) => p.Removing?
    case Finish(_) => p.Closing?
    case Swap(_, _) => InUserCode(h, p)
    case _ => true
  }

  predicate Enabled(h: Hooks, s: State, step: Step) {
    if step.Accept? then step.conn !in s.conns
    else
      && step.conn in s.conns
      && var k := s.conns[step.conn];
         && PhaseAllows(h, k.phase, step)
         && (if step.Drop? then k.rename.Swapped?
             else if step.Store? then k.rename.Dropped?
             else k.rename.Idle?)
  }

  /** The connection's own state after a step. */
  function NextConn(k: Conn, step: Step): Conn {
    match step
    case Accept(_) => Conn("", Accepted, Idle, false, [], 0)
    case CountActive(_) => k.(phase := Counted)
    case CountTotal(_) => k.(phase := Hook(0))
    case HookPasses(_) => if k.phase.Hook? then k.(phase := Hook(k.phase.i + 1)) else k
    case HookFails(_) => k.(phase := Rejected)
    case Uncount(_) => k.(phase := Done(false), decrements := k.decrements + 1)
    case Serve(_) => k.(phase := Serving)
    case Leave(_) => k.(phase := Leaving(0))
    case RunHook(_) =>
      if k.phase.Leaving? then k.(phase := Leaving(k.phase.j + 1), hooksRun := k.hooksRun + [k.phase.j]) else k
    case ReadId(_) => k.(phase := if k.deviceId != "" then Removing else Closing)
    case Remove(_) => k.(phase := Closing)
    case Finish(_) => k.(phase := Done(true), decrements := k.decrements + 1)
    case Swap(_, id) =>
      k.(deviceId := id, rename := Swapped(k.deviceId), namedByHook := k.namedByHook || k.phase.Hook?)
    case Drop(_) => if k.rename.Swapped? then k.(rename := Dropped(k.rename.previous)) else k
    case Store(_) => k.(rename := Idle)
  }

  /** CompareAndDelete: the entry goes only if it is the given connection's. */
  function CompareAndDelete(registry: map<Device, ConnId>, device: Device, c: ConnId): map<Device, ConnId> {
    if device in registry && registry[device] == c then registry - {device} else registry
  }

  /** The registry operation a step performs, if any. */
  function EventOf(k: Conn, step: Step): Option<Event> {
    match step
    case Drop(c) =>
      if k.rename.Swapped? && k.rename.previous != "" && k.rename.previous != k.deviceId then
        Some(Removed(c, k.rename.previous))
      else None
    case Store(c) => if k.deviceId != "" then Some(Stored(c, k.deviceId)) else None
    case Remove(c) => Some(Removed(c, k.deviceId))
    case _ => None
  }

  function Operate(registry: map<Device, ConnId>, e: Option<Event>): map<Device, ConnId> {
    match e
    case Some(Stored(c, d)) => registry[d := c]
    case Some(Removed(c, d)) => CompareAndDelete(registry, d, c)
    case None => registry
  }

  function Record(history: seq<Event>, e: Option<Event>): seq<Event> {
    if e.Some? then history + [e.value] else history
  }

  function Before(s: State, step: Step): Conn {
    if step.conn in s.conns then s.conns[step.conn] else Conn("", Accepted, Idle, false, [], 0)
  }

  /** What a step does to ActiveConnections. */
  function Delta(step: Step): int {
    match step case CountActive(_) => 1 case Uncount(_) => -1 case Finish(_) => -1 case _ => 0
  }

  function Apply(s: State, step: Step): State {
    var k := Before(s, step);
    State(s.conns[step.conn := NextConn(k, step)],
          Operate(s.registry, EventOf(k, step)),
          s.active + Delta(step),
          s.total + (if step.CountTotal? then 1 else 0),
          Record(s.history, EventOf(k, step)))
  }

  function Run(h: Hooks, steps: seq<Step>): Option<State> {
    if steps == [] then Some(Init())
    else
      var last := |steps| - 1;
      match Run(h, steps[..last])
      case None => None
      case Some(s) => if Enabled(h, s, steps[last]) then Some(Apply(s, steps[last])) else None
  }
}
