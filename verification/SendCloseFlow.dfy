/** Where every frame is, in every run of the send/close protocol: conservation, order, at
    most one transmission, and what the wire holds: whole frames, and what failed writes tore. */
module SendCloseFlow {
  import opened Types
  import opened SendClose
  import opened SendCloseSafety

  /** The calls of the channel writes, and of the overflow writes, in a log. */
  function QueuedCalls(log: seq<Entry>): seq<Call> {
    if log == [] then []
    else
      var last := |log| - 1;
      QueuedCalls(log[..last]) + (if log[last].queued then [log[last].call] else [])
  }

  function DirectCalls(log: seq<Entry>): seq<Call> {
    if log == [] then []
    else
      var last := |log| - 1;
      DirectCalls(log[..last]) + (if log[last].queued then [] else [log[last].call])
  }

  /** The frame the loop has taken and not yet written whole. */
  function Hand(loop: LoopPc): seq<Call> {
    match loop
    case Selecting => []
    case Taken(c) => [c]
    case LoopWriting(c, _) => [c]
    case LoopReleasing(c, ok) => if ok then [] else [c]
    case Failing(c) => [c]
    case Exited(lost) => if lost.Some? then [lost.value] else []
  }

  /** Everything put on the channel is, in order, written, in hand, or still queued. */
  predicate FlowInv(pipe: Pipe, log: seq<Entry>, loop: LoopPc) {
    && |pipe.queue| <= CAPACITY
    && pipe.sent == QueuedCalls(log) + Hand(loop) + pipe.queue
  }

  predicate WasQueued(pc: SendPc) { pc == Unlocking(ToQueued) || pc == Returned(Queued) }

  predicate WasWritten(pc: SendPc) { pc == Releasing(true) || pc == Returned(Written) }

  /** A call puts its frame on the channel once or writes it once, never both. */
  ghost predicate OnceInv(calls: map<Call, CallState>, sent: seq<Call>, direct: seq<Call>) {
    && Distinct(sent) && Distinct(direct)
    && (forall c :: c in sent <==> c in calls && WasQueued(calls[c].pc))
    && (forall c :: c in direct <==> c in calls && WasWritten(calls[c].pc))
  }

  predicate HasFrame(pc: SendPc) {
    !pc.FirstCheck? && !pc.Encoding? && pc != Returned(Rejected) && pc != Returned(EncodeFailed)
  }

  /** Encoded calls have a frame, and no write runs past its end. */
  ghost predicate FrameInv(calls: map<Call, CallState>, loop: LoopPc) {
    && (forall c :: c in calls && HasFrame(calls[c].pc) ==> calls[c].frame.Some?)
    && (forall c :: c in calls && calls[c].pc.Writing? ==> calls[c].pc.done <= |FrameOf(calls, c)|)
    && (loop.LoopWriting? ==> loop.done <= |FrameOf(calls, loop.call)|)
  }

  ghost predicate MuInv(mu: Option<Holder>, calls: map<Call, CallState>, loop: LoopPc) {
    && (forall c :: mu == Some(CallHolds(c)) <==> c in calls && (calls[c].pc.Writing? || calls[c].pc.Releasing?))
    && (mu == Some(LoopHolds) <==> loop.LoopWriting? || loop.LoopReleasing?)
  }

  function Prefix(frame: Octets, done: nat): Octets {
    if done <= |frame| then frame[..done] else frame
  }

  /** What the write in progress has put on the wire. */
  function Partial(mu: Option<Holder>, calls: map<Call, CallState>, loop: LoopPc): Octets {
    match mu
    case None => []
    case Some(CallHolds(c)) =>
      if c in calls && calls[c].pc.Writing? then Prefix(FrameOf(calls, c), calls[c].pc.done) else []
    case Some(LoopHolds) =>
      if loop.LoopWriting? then Prefix(FrameOf(calls, loop.call), loop.done) else []
  }

  function Bytes(calls: map<Call, CallState>, log: seq<Entry>): Octets {
    if log == [] then []
    else Bytes(calls, log[..|log| - 1]) + FrameOf(calls, log[|log| - 1].call)
  }

  /** Unless a failed write has left bytes behind, the wire holds `whole` and then `part`; the
      bytes left behind come on top. */
  predicate WireIs(line: Line, whole: Octets, part: Octets) {
    && (line.torn == 0 ==> line.wire == whole + part)
    && |line.wire| == |whole| + |part| + line.torn
  }

  /** The wire against the logged frames and the part of the frame being written. */
  predicate WireInv(line: Line, calls: map<Call, CallState>, loop: LoopPc) {
    WireIs(line, Bytes(calls, line.log), Partial(line.mu, calls, loop))
  }

  ghost predicate FlowsInv(s: State) {
    && FlowInv(s.pipe, s.line.log, s.loop)
    && OnceInv(s.calls, s.pipe.sent, DirectCalls(s.line.log))
    && FrameInv(s.calls, s.loop)
    && MuInv(s.line.mu, s.calls, s.loop)
    && WireInv(s.line, s.calls, s.loop)
  }

  // ---------------------------------------------------------------- component lemmas

  lemma LogGrows(log: seq<Entry>, e: Entry, calls: map<Call, CallState>)
    ensures QueuedCalls(log + [e]) == QueuedCalls(log) + (if e.queued then [e.call] else [])
    ensures DirectCalls(log + [e]) == DirectCalls(log) + (if e.queued then [] else [e.call])
    ensures Bytes(calls, log + [e]) == Bytes(calls, log) + FrameOf(calls, e.call)
  {
    assert (log + [e])[..|log|] == log;
  }

  lemma {:induction false} LogMembers(log: seq<Entry>)
    ensures forall e :: e in log ==> if e.queued then e.call in QueuedCalls(log) else e.call in DirectCalls(log)
  {
    if log != [] {
      LogMembers(log[..|log| - 1]);
      assert log == log[..|log| - 1] + [log[|log| - 1]];
    }
  }

  lemma {:induction false} BytesSame(calls: map<Call, CallState>, calls': map<Call, CallState>, log: seq<Entry>)
    requires forall e :: e in log ==> FrameOf(calls, e.call) == FrameOf(calls', e.call)
    ensures Bytes(calls, log) == Bytes(calls', log)
  {
    if log != [] {
      BytesSame(calls, calls', log[..|log| - 1]);
      assert log[|log| - 1] in log;
    }
  }

  lemma DistinctGrows(s: seq<Call>, c: Call)
    requires Distinct(s) && c !in s
    ensures Distinct(s + [c])
  {
  }

  /** A call moves; it joins `sent` or `direct` exactly when its new point says so. */
  lemma OnceMoves(calls: map<Call, CallState>, sent: seq<Call>, direct: seq<Call>, c: Call, cs: CallState)
    requires OnceInv(calls, sent, direct)
    requires c in calls && WasQueued(calls[c].pc) ==> WasQueued(cs.pc)
    requires c in calls && WasWritten(calls[c].pc) ==> WasWritten(cs.pc)
    ensures var sent' := if WasQueued(cs.pc) && c !in sent then sent + [c] else sent;
            var direct' := if WasWritten(cs.pc) && c !in direct then direct + [c] else direct;
            OnceInv(calls[c := cs], sent', direct')
  {
    if c !in sent { DistinctGrows(sent, c); }
    if c !in direct { DistinctGrows(direct, c); }
  }

  /** Moving a call that does not hold mu leaves the wire equation alone. */
  lemma WireMoves(line: Line, calls: map<Call, CallState>, loop: LoopPc, c: Call, cs: CallState)
    requires WireInv(line, calls, loop) && MuInv(line.mu, calls, loop)
    requires c in calls ==> cs.frame == calls[c].frame
    requires c !in calls ==> forall e :: e in line.log ==> e.call in calls
    requires c !in calls && loop.LoopWriting? ==> loop.call in calls
    requires c in calls ==> !calls[c].pc.Writing? && !calls[c].pc.Releasing?
    ensures WireInv(line, calls[c := cs], loop)
  {
    var calls' := calls[c := cs];
    BytesSame(calls, calls', line.log);
  }

  lemma FrameMoves(calls: map<Call, CallState>, loop: LoopPc, c: Call, cs: CallState)
    requires FrameInv(calls, loop)
    requires c in calls ==> cs.frame == calls[c].frame
    requires c !in calls && loop.LoopWriting? ==> loop.call in calls
    requires HasFrame(cs.pc) ==> cs.frame.Some?
    requires cs.pc.Writing? ==> cs.frame.Some? && cs.pc.done <= |cs.frame.value|
    ensures FrameInv(calls[c := cs], loop)
  {
  }

  predicate AtMu(pc: SendPc) { pc.Writing? || pc.Releasing? }

  lemma MuMoves(mu: Option<Holder>, calls: map<Call, CallState>, loop: LoopPc, c: Call, cs: CallState)
    requires MuInv(mu, calls, loop)
    requires c in calls && AtMu(calls[c].pc) ==> mu == Some(CallHolds(c))
    requires !(c in calls && AtMu(calls[c].pc)) && AtMu(cs.pc) ==> mu == None
    ensures var mu' := if AtMu(cs.pc) then Some(CallHolds(c))
                       else if c in calls && AtMu(calls[c].pc) then None else mu;
            MuInv(mu', calls[c := cs], loop)
  {
  }

  /** Calls named in the log or in the loop's hand exist. */
  lemma Known(s: State)
    requires FlowsInv(s)
    ensures forall e :: e in s.line.log ==> e.call in s.calls
    ensures forall c :: c in Hand(s.loop) ==> c in s.calls
    ensures s.loop.LoopWriting? ==> s.loop.call in s.calls
  {
    LogMembers(s.line.log);
    forall c | c in Hand(s.loop) || c in QueuedCalls(s.line.log)
      ensures c in s.calls
    {
      assert c in s.pipe.sent;
    }
    forall e | e in s.line.log
      ensures e.call in s.calls
    {
      assert e.queued || e.call in DirectCalls(s.line.log);
    }
    assert s.loop.LoopWriting? ==> s.loop.call in Hand(s.loop);
  }

  // ---------------------------------------------------------------- steps of a Send call

  /** Steps that touch neither the channel nor the wire. */
  predicate Quiet(s: State, c: Call)
    requires c in s.calls
  {
    !AtMu(s.calls[c].pc) && !s.calls[c].pc.WaitingMu? && !s.calls[c].pc.Offering?
  }

  lemma QuietShape(s: State, c: Call, act: Act)
    requires SendEnabled(s, c, act) && Quiet(s, c)
    ensures var s', pc, pc' := SendEffect(s, c, act), s.calls[c].pc, NextPc(s, c, act);
            && s'.pipe == s.pipe && s'.line == s.line && s'.loop == s.loop
            && !AtMu(pc') && (WasQueued(pc) <==> WasQueued(pc')) && !WasWritten(pc) && !WasWritten(pc')
            && (HasFrame(pc') ==> HasFrame(pc) || s.calls[c].frame.Some?)
  {
  }

  lemma FlowQuiet(s: State, c: Call, act: Act)
    requires FlowsInv(s) && SendEnabled(s, c, act) && Quiet(s, c)
    ensures FlowsInv(SendStep(s, c, act))
  {
    var cs := s.calls[c].(pc := NextPc(s, c, act));
    var direct := DirectCalls(s.line.log);
    QuietShape(s, c, act);
    assert HasFrame(s.calls[c].pc) ==> s.calls[c].frame.Some?;
    assert WasQueued(cs.pc) ==> c in s.pipe.sent;
    OnceMoves(s.calls, s.pipe.sent, direct, c, cs);
    FrameMoves(s.calls, s.loop, c, cs);
    MuMoves(s.line.mu, s.calls, s.loop, c, cs);
    WireMoves(s.line, s.calls, s.loop, c, cs);
  }

  lemma FlowOffer(s: State, c: Call, act: Act)
    requires FlowsInv(s) && SendEnabled(s, c, act) && s.calls[c].pc.Offering? && s.gate.closes == 0
    ensures FlowsInv(SendStep(s, c, act))
  {
    var cs := s.calls[c].(pc := NextPc(s, c, act));
    var direct := DirectCalls(s.line.log);
    assert s.calls[c].frame.Some?;
    assert c !in s.pipe.sent && c !in direct;
    OnceMoves(s.calls, s.pipe.sent, direct, c, cs);
    FrameMoves(s.calls, s.loop, c, cs);
    MuMoves(s.line.mu, s.calls, s.loop, c, cs);
    WireMoves(s.line, s.calls, s.loop, c, cs);
    assert QueuedCalls(s.line.log) + Hand(s.loop) + (s.pipe.queue + [c])
        == QueuedCalls(s.line.log) + Hand(s.loop) + s.pipe.queue + [c];
  }

  lemma FlowLock(s: State, c: Call, act: Act)
    requires FlowsInv(s) && SendEnabled(s, c, act) && s.calls[c].pc.WaitingMu?
    ensures FlowsInv(SendStep(s, c, act))
  {
    var cs := s.calls[c].(pc := NextPc(s, c, act));
    assert s.calls[c].frame.Some?;
    assert c !in s.pipe.sent && c !in DirectCalls(s.line.log);
    OnceMoves(s.calls, s.pipe.sent, DirectCalls(s.line.log), c, cs);
    FrameMoves(s.calls, s.loop, c, cs);
    MuMoves(s.line.mu, s.calls, s.loop, c, cs);
    WireMoves(s.line, s.calls, s.loop, c, cs);
  }

  lemma UnlockShape(s: State, c: Call, act: Act)
    requires SendEnabled(s, c, act) && s.calls[c].pc.Releasing?
    ensures var pc := NextPc(s, c, act);
            && !AtMu(pc) && HasFrame(pc) && !WasQueued(pc) && (WasWritten(pc) <==> WasWritten(s.calls[c].pc))
            && SendStep(s, c, act) ==
                 s.(calls := s.calls[c := s.calls[c].(pc := pc)], line := s.line.(mu := None))
  {
  }

  lemma FlowUnlock(s: State, c: Call, act: Act)
    requires FlowsInv(s) && SendEnabled(s, c, act) && s.calls[c].pc.Releasing?
    ensures FlowsInv(SendStep(s, c, act))
  {
    UnlockShape(s, c, act);
    hide SendStep, SendEffect, NextPc;
    var cs := s.calls[c].(pc := NextPc(s, c, act));
    assert s.calls[c].frame.Some?;
    assert WasWritten(cs.pc) ==> c in DirectCalls(s.line.log);
    assert c !in s.pipe.sent && s.line.mu == Some(CallHolds(c));
    hide OnceInv, MuInv, FrameInv;
    OnceMoves(s.calls, s.pipe.sent, DirectCalls(s.line.log), c, cs);
    FrameMoves(s.calls, s.loop, c, cs);
    MuMoves(s.line.mu, s.calls, s.loop, c, cs);
    BytesSame(s.calls, s.calls[c := cs], s.line.log);
  }

  /** A write in progress, whoever holds mu, keeps account of the wire. */
  lemma WireActs(line: Line, whole: Octets, frame: Octets, done: nat, act: Act, entry: Entry)
    requires WriteAct(frame, done, act) && done <= |frame|
    requires WireIs(line, whole, Prefix(frame, done))
    ensures var line' := WriteLine(line, frame, done, act, entry);
            && line'.mu == line.mu
            && line'.log == (if act.Complete? then line.log + [entry] else line.log)
            && WireIs(line', if act.Complete? then whole + frame else whole,
                      if act.Chunk? then Prefix(frame, done + act.n) else [])
  {
    match act
    case Chunk(n) =>
      assert frame[..done] + frame[done..done + n] == frame[..done + n];
      assert whole + frame[..done] + frame[done..done + n] == whole + (frame[..done] + frame[done..done + n]);
    case Complete =>
      assert frame[..done] == frame;
      assert whole + frame + [] == whole + frame;
    case Fail =>
  }

  /** Where a write of a call goes next. */
  function AfterWrite(done: nat, act: Act): SendPc {
    match act
    case Chunk(n) => Writing(done + n)
    case _ => Releasing(act.Complete?)
  }

  lemma PartialOf(mu: Option<Holder>, calls: map<Call, CallState>, loop: LoopPc, c: Call)
    requires mu == Some(CallHolds(c)) && c in calls
    ensures Partial(mu, calls, loop)
         == if calls[c].pc.Writing? then Prefix(FrameOf(calls, c), calls[c].pc.done) else []
  {
  }

  /** What the write of call c is measured against, before and after a step of it. */
  lemma WritingParts(mu: Option<Holder>, calls: map<Call, CallState>, loop: LoopPc, log: seq<Entry>, c: Call, act: Act)
    requires c in calls && calls[c].pc.Writing? && mu == Some(CallHolds(c))
    ensures var done, frame := calls[c].pc.done, FrameOf(calls, c);
            var calls' := calls[c := calls[c].(pc := AfterWrite(done, act))];
            && Bytes(calls', log) == Bytes(calls, log)
            && Bytes(calls', log + [Entry(c, false)]) == Bytes(calls, log) + frame
            && Partial(mu, calls, loop) == Prefix(frame, done)
            && Partial(mu, calls', loop) == if act.Chunk? then Prefix(frame, done + act.n) else []
  {
    var calls' := calls[c := calls[c].(pc := AfterWrite(calls[c].pc.done, act))];
    assert forall d :: FrameOf(calls', d) == FrameOf(calls, d);
    PartialOf(mu, calls, loop, c);
    PartialOf(mu, calls', loop, c);
    hide FrameOf, Prefix, Partial;
    BytesSame(calls, calls', log);
    LogGrows(log, Entry(c, false), calls');
  }

  lemma WritingWire(line: Line, calls: map<Call, CallState>, loop: LoopPc, c: Call, act: Act)
    requires c in calls && calls[c].pc.Writing? && line.mu == Some(CallHolds(c))
    requires WireInv(line, calls, loop) && WriteAct(FrameOf(calls, c), calls[c].pc.done, act)
    requires calls[c].pc.done <= |FrameOf(calls, c)|
    ensures var done := calls[c].pc.done;
            var line' := WriteLine(line, FrameOf(calls, c), done, act, Entry(c, false));
            && line'.mu == line.mu
            && line'.log == (if act.Complete? then line.log + [Entry(c, false)] else line.log)
            && WireInv(line', calls[c := calls[c].(pc := AfterWrite(done, act))], loop)
  {
    hide FrameOf, WriteLine, WriteAct, WireIs, Bytes, Prefix, Partial, AfterWrite;
    WritingParts(line.mu, calls, loop, line.log, c, act);
    WireActs(line, Bytes(calls, line.log), FrameOf(calls, c), calls[c].pc.done, act, Entry(c, false));
  }

  lemma WritingShape(s: State, c: Call, act: Act)
    requires SendEnabled(s, c, act) && s.calls[c].pc.Writing?
    ensures var pc, pc' := s.calls[c].pc, NextPc(s, c, act);
            && pc' == AfterWrite(pc.done, act) && WriteAct(FrameOf(s.calls, c), pc.done, act)
            && AtMu(pc') && !WasQueued(pc') && (WasWritten(pc') <==> act.Complete?)
            && (pc'.Writing? && pc.done <= |FrameOf(s.calls, c)| ==> pc'.done <= |FrameOf(s.calls, c)|)
            && SendStep(s, c, act) ==
                 s.(calls := s.calls[c := s.calls[c].(pc := pc')],
                    line := WriteLine(s.line, FrameOf(s.calls, c), pc.done, act, Entry(c, false)))
  {
  }

  lemma WritingCalls(s: State, c: Call, pc: SendPc, complete: bool)
    requires OnceInv(s.calls, s.pipe.sent, DirectCalls(s.line.log))
    requires FrameInv(s.calls, s.loop) && MuInv(s.line.mu, s.calls, s.loop)
    requires c in s.calls && s.calls[c].pc.Writing?
    requires AtMu(pc) && !WasQueued(pc) && (WasWritten(pc) <==> complete)
    requires pc.Writing? ==> pc.done <= |FrameOf(s.calls, c)|
    ensures var calls', direct := s.calls[c := s.calls[c].(pc := pc)], DirectCalls(s.line.log);
            && OnceInv(calls', s.pipe.sent, if complete then direct + [c] else direct)
            && FrameInv(calls', s.loop) && MuInv(s.line.mu, calls', s.loop)
    ensures s.line.mu == Some(CallHolds(c)) && s.calls[c].pc.done <= |FrameOf(s.calls, c)|
  {
    var cs, direct := s.calls[c].(pc := pc), DirectCalls(s.line.log);
    assert s.calls[c].frame.Some?;
    assert c !in s.pipe.sent && c !in direct && s.line.mu == Some(CallHolds(c));
    hide OnceInv, FrameInv, MuInv;
    OnceMoves(s.calls, s.pipe.sent, direct, c, cs);
    FrameMoves(s.calls, s.loop, c, cs);
    MuMoves(s.line.mu, s.calls, s.loop, c, cs);
  }

  lemma FlowWriting(s: State, c: Call, act: Act)
    requires FlowsInv(s) && SendEnabled(s, c, act) && s.calls[c].pc.Writing?
    ensures FlowsInv(SendStep(s, c, act))
  {
    hide OnceInv, FrameInv, MuInv, WireInv, WriteLine, NextPc, SendStep, SendEffect, FrameOf;
    var pc := NextPc(s, c, act);
    WritingShape(s, c, act);
    WritingBound(s.calls, s.loop, c);
    WritingCalls(s, c, pc, act.Complete?);
    WritingWire(s.line, s.calls, s.loop, c, act);
    LogGrows(s.line.log, Entry(c, false), s.calls);
    assert QueuedCalls(s.line.log) + [] == QueuedCalls(s.line.log);
  }

  lemma WritingBound(calls: map<Call, CallState>, loop: LoopPc, c: Call)
    requires FrameInv(calls, loop) && c in calls && calls[c].pc.Writing?
    ensures calls[c].pc.done <= |FrameOf(calls, c)|
  {
  }

  lemma FlowSend(s: State, c: Call, act: Act)
    requires SafeInv(s) && FlowsInv(s) && SendEnabled(s, c, act)
    ensures FlowsInv(SendStep(s, c, act))
  {
    assert s.calls[c].pc.Offering? ==> s.gate.closes == 0;
    hide FlowsInv, SafeInv, SendStep;
    if Quiet(s, c) {
      FlowQuiet(s, c, act);
    } else if s.calls[c].pc.Offering? {
      FlowOffer(s, c, act);
    } else if s.calls[c].pc.WaitingMu? {
      FlowLock(s, c, act);
    } else if s.calls[c].pc.Writing? {
      FlowWriting(s, c, act);
    } else {
      FlowUnlock(s, c, act);
    }
  }

  // ---------------------------------------------------------------- other steps

  lemma FlowInvoke(s: State, c: Call, frame: Option<Octets>)
    requires FlowsInv(s) && Enabled(s, Invoke(c, frame))
    ensures FlowsInv(Apply(s, Invoke(c, frame)))
  {
    var cs := CallState(frame, FirstCheck);
    Known(s);
    assert c !in s.pipe.sent && c !in DirectCalls(s.line.log);
    OnceMoves(s.calls, s.pipe.sent, DirectCalls(s.line.log), c, cs);
    FrameMoves(s.calls, s.loop, c, cs);
    MuMoves(s.line.mu, s.calls, s.loop, c, cs);
    WireMoves(s.line, s.calls, s.loop, c, cs);
  }

  /** MuInv and FrameInv when only the loop moves. */
  lemma LoopMoves(mu: Option<Holder>, calls: map<Call, CallState>, loop: LoopPc, loop': LoopPc)
    requires MuInv(mu, calls, loop) && FrameInv(calls, loop)
    requires var holds, holds' := loop.LoopWriting? || loop.LoopReleasing?, loop'.LoopWriting? || loop'.LoopReleasing?;
             !holds && holds' ==> mu == None
    requires loop'.LoopWriting? ==> loop'.done <= |FrameOf(calls, loop'.call)|
    ensures var holds, holds' := loop.LoopWriting? || loop.LoopReleasing?, loop'.LoopWriting? || loop'.LoopReleasing?;
            && MuInv(if holds' then Some(LoopHolds) else if holds then None else mu, calls, loop')
            && FrameInv(calls, loop')
  {
  }

  lemma LoopFree(mu: Option<Holder>, calls: map<Call, CallState>, loop: LoopPc)
    requires MuInv(mu, calls, loop)
    ensures mu == Some(LoopHolds) <==> loop.LoopWriting? || loop.LoopReleasing?
  {
  }

  lemma FlowReceive(s: State)
    requires FlowsInv(s) && Enabled(s, Receive)
    ensures FlowsInv(Apply(s, Receive))
  {
    hide OnceInv, MuInv, FrameInv, Bytes;
    LoopMoves(s.line.mu, s.calls, s.loop, Taken(s.pipe.queue[0]));
    assert s.pipe.queue == [s.pipe.queue[0]] + s.pipe.queue[1..];
    LoopFree(s.line.mu, s.calls, s.loop);
  }

  lemma FlowStop(s: State)
    requires FlowsInv(s) && Enabled(s, Stop)
    ensures FlowsInv(Apply(s, Stop))
  {
    hide OnceInv, MuInv, FrameInv, Bytes;
    LoopMoves(s.line.mu, s.calls, s.loop, Exited(None));
    LoopFree(s.line.mu, s.calls, s.loop);
  }

  lemma FlowLoopLock(s: State, act: Act)
    requires FlowsInv(s) && WriteEnabled(s, act) && s.loop.Taken?
    ensures FlowsInv(WriteStep(s, act))
  {
    hide OnceInv, MuInv, FrameInv, Bytes;
    assert Prefix(FrameOf(s.calls, s.loop.call), 0) == [];
    LoopMoves(s.line.mu, s.calls, s.loop, LoopWriting(s.loop.call, 0));
  }

  lemma FlowLoopRelease(s: State, act: Act)
    requires FlowsInv(s) && WriteEnabled(s, act) && (s.loop.LoopReleasing? || s.loop.Failing?)
    ensures FlowsInv(WriteStep(s, act))
  {
    hide OnceInv, MuInv, FrameInv, Bytes;
    LoopFree(s.line.mu, s.calls, s.loop);
    LoopMoves(s.line.mu, s.calls, s.loop, WriteStep(s, act).loop);
  }

  lemma LoopWire(line: Line, calls: map<Call, CallState>, c: Call, done: nat, act: Act, loop': LoopPc)
    requires WriteAct(FrameOf(calls, c), done, act) && done <= |FrameOf(calls, c)|
    requires line.mu == Some(LoopHolds) && WireInv(line, calls, LoopWriting(c, done))
    requires loop' == match act case Chunk(n) => LoopWriting(c, done + n)
                                case Complete => LoopReleasing(c, true)
                                case _ => LoopReleasing(c, false)
    ensures var line' := WriteLine(line, FrameOf(calls, c), done, act, Entry(c, true));
            && WireInv(line', calls, loop')
            && line'.mu == line.mu
            && line'.log == (if act.Complete? then line.log + [Entry(c, true)] else line.log)
  {
    hide FrameOf, WriteLine, WireIs, Bytes, Prefix;
    WireActs(line, Bytes(calls, line.log), FrameOf(calls, c), done, act, Entry(c, true));
    LogGrows(line.log, Entry(c, true), calls);
  }

  lemma LoopFlow(pipe: Pipe, log: seq<Entry>, c: Call, done: nat, complete: bool, loop': LoopPc)
    requires FlowInv(pipe, log, LoopWriting(c, done))
    requires Hand(loop') == if complete then [] else [c]
    ensures FlowInv(pipe, if complete then log + [Entry(c, true)] else log, loop')
    ensures DirectCalls(if complete then log + [Entry(c, true)] else log) == DirectCalls(log)
  {
    if complete {
      LogGrows(log, Entry(c, true), map[]);
      hide QueuedCalls, DirectCalls, Bytes;
      assert QueuedCalls(log) + [c] + [] == QueuedCalls(log) + [c];
      assert DirectCalls(log) + [] == DirectCalls(log);
    }
  }

  lemma LoopShape(s: State, act: Act)
    requires WriteEnabled(s, act) && s.loop.LoopWriting?
    ensures var c, done, s' := s.loop.call, s.loop.done, WriteStep(s, act);
            && s' == s.(loop := s'.loop, line := WriteLine(s.line, FrameOf(s.calls, c), done, act, Entry(c, true)))
            && s'.loop == (match act case Chunk(n) => LoopWriting(c, done + n)
                                     case Complete => LoopReleasing(c, true)
                                     case _ => LoopReleasing(c, false))
            && (s'.loop.LoopWriting? && done <= |FrameOf(s.calls, c)| ==> s'.loop.done <= |FrameOf(s.calls, c)|)
            && Hand(s'.loop) == (if act.Complete? then [] else [c])
  {
  }

  lemma FlowLoopWriting(s: State, act: Act)
    requires FlowsInv(s) && WriteEnabled(s, act) && s.loop.LoopWriting?
    ensures FlowsInv(WriteStep(s, act))
  {
    var c, loop' := s.loop.call, WriteStep(s, act).loop;
    LoopFree(s.line.mu, s.calls, s.loop);
    assert s.loop.done <= |FrameOf(s.calls, c)|;
    LoopShape(s, act);
    hide OnceInv, MuInv, FrameInv, WireInv, FlowInv, FrameOf, WriteStep, WriteLine, Hand, DirectCalls;
    LoopMoves(s.line.mu, s.calls, s.loop, loop');
    LoopWire(s.line, s.calls, c, s.loop.done, act, loop');
    LoopFlow(s.pipe, s.line.log, c, s.loop.done, act.Complete?, loop');
  }

  /** Every step keeps the flow invariant. */
  lemma FlowStep(s: State, step: Step)
    requires SafeInv(s) && FlowsInv(s) && Enabled(s, step)
    ensures FlowsInv(Apply(s, step))
  {
    match step
    case Invoke(c, frame) => FlowInvoke(s, c, frame);
    case Send(c, act) => FlowSend(s, c, act);
    case InvokeClose(id) =>
    case Close(a) =>
    case Receive => FlowReceive(s);
    case Stop => FlowStop(s);
    case Write(act) =>
      if s.loop.Taken? {
        FlowLoopLock(s, act);
      } else if s.loop.LoopWriting? {
        FlowLoopWriting(s, act);
      } else {
        FlowLoopRelease(s, act);
      }
  }
}
