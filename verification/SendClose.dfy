/** The send/close protocol of HighPerfTCPConnection (transport/tcp_highperf.go): any number
    of Send calls and Close calls interleaved with the one write loop, as a transition system
    with one step per access to shared state. A Send call is given what Encode makes of its
    message: a frame, or None where encoding fails. */
module SendClose {

  import opened Types

  type Octets = seq<byte>
  type Call = nat

  const CAPACITY: nat := 100

  /** Where a Send call goes once it has released its read lock. */
  datatype Next = ToRejected | ToQueued | ToOverflow

  datatype Outcome = Rejected | EncodeFailed | Queued | Written | WriteFailed

  /** Program points of one Send call. */
  datatype SendPc =
    | FirstCheck                // about to load connected
    | Encoding                  // about to encode the message
    | Locking                   // about to take closeMu for reading
    | SecondCheck               // holds closeMu for reading, about to load connected again
    | Offering                  // holds closeMu for reading, at the channel send
    | Unlocking(next: Next)     // holds closeMu for reading, about to release it
    | WaitingMu                 // found the channel full, about to lock mu
    | Writing(done: nat)        // holds mu, `done` bytes of its frame are on the wire
    | Releasing(ok: bool)       // holds mu, the write has ended
    | Returned(outcome: Outcome)

  /** Who runs the closing sequence: a Close call, or the write loop after a failed write. */
  datatype Agent = Closer(id: nat) | Loop

  /** Program points of the closing sequence. */
  datatype ClosePc =
    | Swap                      // about to compare-and-swap connected from 1 to 0
    | LockClose                 // won; about to take closeMu for writing
    | CloseChannel              // holds closeMu for writing, about to close writeChan
    | UnlockClose               // holds closeMu for writing, about to release it
    | Cancel                    // about to cancel the context and close the socket
    | Finished

  /** Program points of the write loop; `call` is the frame it has taken off the channel. */
  datatype LoopPc =
    | Selecting
    | Taken(call: Call)         // about to lock mu
    | LoopWriting(call: Call, done: nat)
    | LoopReleasing(call: Call, ok: bool)
    | Failing(call: Call)       // write failed, in the closing sequence
    | Exited(lost: Option<Call>)

  datatype CallState = CallState(frame: Option<Octets>, pc: SendPc)

  /** The flag `connected`, who won the swap on it, the closing sequences, the writer side of
      closeMu, how often writeChan has been closed, and the connection's context. */
  datatype Gate = Gate(
    connected: bool, winner: Option<Agent>, closing: map<Agent, ClosePc>,
    writer: Option<Agent>, closes: nat, cancelled: bool)

  /** The buffered channel, and all calls whose frame was ever put on it, in order. */
  datatype Pipe = Pipe(queue: seq<Call>, sent: seq<Call>)

  datatype Holder = CallHolds(call: Call) | LoopHolds

  /** A completed write: whose frame, and whether it came through the channel. */
  datatype Entry = Entry(call: Call, queued: bool)

  /** The write mutex, the bytes on the connection, the completed writes in order, and
      whether some Write has returned an error. */
  datatype Line = Line(
    mu: Option<Holder>, wire: Octets, log: seq<Entry>, failed: bool,
    torn: nat)                  // history: bytes that failed writes have left on the wire

  datatype State = State(
    gate: Gate,
    calls: map<Call, CallState>,
    readers: set<Call>,             // calls that hold closeMu for reading
    pipe: Pipe,
    line: Line,
    loop: LoopPc,
    panicked: bool)                 // a send on, or a close of, a closed channel

  function Init(): State {
    State(Gate(true, None, map[], None, 0, false), map[], {}, Pipe([], []),
          Line(None, [], [], false, 0), Selecting, false)
  }

  // ---------------------------------------------------------------- steps

  datatype Act = Go | Chunk(n: nat) | Complete | Fail

  datatype Step =
    | Invoke(call: Call, frame: Option<Octets>)
    | Send(call: Call, act: Act)
    | InvokeClose(id: nat)
    | Close(agent: Agent)
    | Receive                       // the loop takes a frame off the channel
    | Stop                          // the loop sees the cancelled context, or the drained closed channel
    | Write(act: Act)               // the loop's locked write

  function FrameOf(calls: map<Call, CallState>, c: Call): Octets {
    if c in calls && calls[c].frame.Some? then calls[c].frame.value else []
  }

  /** What a write in progress can do next: put more bytes on the wire, end when all are
      there, or fail at any point. */
  predicate WriteAct(frame: Octets, done: nat, act: Act) {
    match act
    case Go => false
    case Chunk(n) => 0 < n && done + n <= |frame|
    case Complete => done == |frame|
    case Fail => true
  }

  function WriteLine(line: Line, frame: Octets, done: nat, act: Act, entry: Entry): Line
    requires WriteAct(frame, done, act)
  {
    match act
    case Chunk(n) => line.(wire := line.wire + frame[done..done + n])
    case Complete => line.(log := line.log + [entry])
    case Fail => line.(failed := true, torn := line.torn + done)
  }

  predicate SendEnabled(s: State, c: Call, act: Act) {
    c in s.calls &&
    match s.calls[c].pc
    case Locking => act.Go? && s.gate.writer.None?
    case WaitingMu => act.Go? && s.line.mu.None?
    case Writing(done) => WriteAct(FrameOf(s.calls, c), done, act)
    case Returned(_) => false
    case _ => act.Go?
  }

  /** The program point a Send call moves to. */
  function NextPc(s: State, c: Call, act: Act): SendPc
    requires SendEnabled(s, c, act)
  {
    match s.calls[c].pc
    case FirstCheck => if s.gate.connected then Encoding else Returned(Rejected)
    case Encoding => if s.calls[c].frame.Some? then Locking else Returned(EncodeFailed)
    case Locking => SecondCheck
    case SecondCheck => if s.gate.connected then Offering else Unlocking(ToRejected)
    case Offering => if |s.pipe.queue| < CAPACITY then Unlocking(ToQueued) else Unlocking(ToOverflow)
    case Unlocking(next) =>
      (match next
       case ToRejected => Returned(Rejected)
       case ToQueued => Returned(Queued)
       case ToOverflow => WaitingMu)
    case WaitingMu => Writing(0)
    case Writing(done) =>
      (match act
       case Chunk(n) => Writing(done + n)
       case Complete => Releasing(true)
       case _ => Releasing(false))
    case Releasing(ok) => Returned(if ok then Written else WriteFailed)
    case Returned(outcome) => Returned(outcome)
  }

  /** What a Send step does to the rest of the state. */
  function SendEffect(s: State, c: Call, act: Act): State
    requires SendEnabled(s, c, act)
  {
    match s.calls[c].pc
    case Locking => s.(readers := s.readers + {c})
    case Offering =>
      if s.gate.closes > 0 then s.(panicked := true)
      else if |s.pipe.queue| < CAPACITY then s.(pipe := Pipe(s.pipe.queue + [c], s.pipe.sent + [c]))
      else s
    case Unlocking(_) => s.(readers := s.readers - {c})
    case WaitingMu => s.(line := s.line.(mu := Some(CallHolds(c))))
    case Writing(done) => s.(line := WriteLine(s.line, FrameOf(s.calls, c), done, act, Entry(c, false)))
    case Releasing(_) => s.(line := s.line.(mu := None))
    case _ => s
  }

  function SendStep(s: State, c: Call, act: Act): State
    requires SendEnabled(s, c, act)
  {
    SendEffect(s, c, act).(calls := s.calls[c := s.calls[c].(pc := NextPc(s, c, act))])
  }

  predicate CloseEnabled(s: State, a: Agent) {
    && a in s.gate.closing
    && s.gate.closing[a] != Finished
    && (s.gate.closing[a] == LockClose ==> s.gate.writer.None? && s.readers == {})
  }

  function CloseGate(g: Gate, a: Agent): Gate
    requires a in g.closing
  {
    match g.closing[a]
    case Swap =>
      if g.connected then g.(connected := false, winner := Some(a), closing := g.closing[a := LockClose])
      else g.(closing := g.closing[a := Finished])
    case LockClose => g.(writer := Some(a), closing := g.closing[a := CloseChannel])
    case CloseChannel => g.(closes := g.closes + 1, closing := g.closing[a := UnlockClose])
    case UnlockClose => g.(writer := None, closing := g.closing[a := Cancel])
    case Cancel => g.(cancelled := true, closing := g.closing[a := Finished])
    case Finished => g
  }

  function CloseStep(s: State, a: Agent): State
    requires CloseEnabled(s, a)
  {
    s.(gate := CloseGate(s.gate, a),
       panicked := s.panicked || (s.gate.closing[a] == CloseChannel && s.gate.closes > 0))
  }

  predicate WriteEnabled(s: State, act: Act) {
    match s.loop
    case Taken(c) => act.Go? && s.line.mu.None?
    case LoopWriting(c, done) => WriteAct(FrameOf(s.calls, c), done, act)
    case LoopReleasing(c, ok) => act.Go?
    case Failing(c) => act.Go? && Loop in s.gate.closing && s.gate.closing[Loop] == Finished
    case _ => false
  }

  function WriteStep(s: State, act: Act): State
    requires WriteEnabled(s, act)
  {
    match s.loop
    case Taken(c) => s.(loop := LoopWriting(c, 0), line := s.line.(mu := Some(LoopHolds)))
    case LoopWriting(c, done) =>
      s.(loop := (match act
                  case Chunk(n) => LoopWriting(c, done + n)
                  case Complete => LoopReleasing(c, true)
                  case _ => LoopReleasing(c, false)),
         line := WriteLine(s.line, FrameOf(s.calls, c), done, act, Entry(c, true)))
    case LoopReleasing(c, ok) =>
      if ok then s.(loop := Selecting, line := s.line.(mu := None))
      else s.(loop := Failing(c), line := s.line.(mu := None),
              gate := s.gate.(closing := s.gate.closing[Loop := Swap]))
    case Failing(c) => s.(loop := Exited(Some(c)))
    case _ => s
  }

  predicate Enabled(s: State, step: Step) {
    !s.panicked &&
    match step
    case Invoke(c, frame) => c !in s.calls && (frame.Some? ==> |frame.value| > 0)
    case Send(c, act) => SendEnabled(s, c, act)
    case InvokeClose(id) => Closer(id) !in s.gate.closing
    case Close(a) => CloseEnabled(s, a)
    case Receive => s.loop.Selecting? && s.pipe.queue != []
    case Stop => s.loop.Selecting? && (s.gate.cancelled || (s.gate.closes > 0 && s.pipe.queue == []))
    case Write(act) => WriteEnabled(s, act)
  }

  function Apply(s: State, step: Step): State
    requires Enabled(s, step)
  {
    match step
    case Invoke(c, frame) => s.(calls := s.calls[c := CallState(frame, FirstCheck)])
    case Send(c, act) => SendStep(s, c, act)
    case InvokeClose(id) => s.(gate := s.gate.(closing := s.gate.closing[Closer(id) := Swap]))
    case Close(a) => CloseStep(s, a)
    case Receive => s.(loop := Taken(s.pipe.queue[0]), pipe := s.pipe.(queue := s.pipe.queue[1..]))
    case Stop => s.(loop := Exited(None))
    case Write(act) => WriteStep(s, act)
  }

  /** The state that a sequence of steps reaches, if each is enabled when it is taken. */
  function Run(steps: seq<Step>): Option<State> {
    if steps == [] then Some(Init())
    else
      var last := |steps| - 1;
      match Run(steps[..last])
      case None => None
      case Some(s) => if Enabled(s, steps[last]) then Some(Apply(s, steps[last])) else None
  }
}
