/** What Send, Close and the write loop do when nobody interferes: each of them carried through
    from any reachable state in which nobody holds a lock, with the state it ends in. */
module SendCloseAlone {
  import opened Types
  import opened SendClose
  import opened SendCloseTheorems
  import opened SendCloseRuns

  /** Nobody holds closeMu or mu. */
  predicate Unlocked(s: State) { s.readers == {} && s.gate.writer.None? && s.line.mu.None? }

  lemma Goes(steps: seq<Step>, s: State, step: Step, s': State) returns (steps': seq<Step>)
    requires Run(steps) == Some(s) && Moves(s, step, s')
    ensures steps' == steps + [step] && Run(steps') == Some(s')
  {
    hide Enabled, Apply;
    steps' := steps + [step];
    assert steps'[..|steps|] == steps;
  }

  // ---------------------------------------------------------------- sending

  /** The state s with a call c that carries a frame, or none, at pc. */
  function Called(s: State, c: Call, frame: Option<Octets>, pc: SendPc): State {
    s.(calls := s.calls[c := CallState(frame, pc)])
  }

  lemma Begins(s: State, c: Call, frame: Option<Octets>)
    requires !s.panicked && c !in s.calls && (frame.Some? ==> frame.value != [])
    ensures Moves(s, Invoke(c, frame), Called(s, c, frame, FirstCheck))
    ensures Moves(Called(s, c, frame, FirstCheck), Step.Send(c, Go),
                  Called(s, c, frame, if s.gate.connected then Encoding else Returned(Rejected)))
    ensures frame.None? ==>
              Moves(Called(s, c, frame, Encoding), Step.Send(c, Go), Called(s, c, frame, Returned(EncodeFailed)))
  {
    hide CloseStep, WriteStep, CloseEnabled, WriteEnabled;
  }

  /** The state after a Send that nobody interfered with. */
  function AfterSend(s: State, c: Call, frame: Option<Octets>): State {
    if !s.gate.connected then Called(s, c, frame, Returned(Rejected))
    else match frame
         case None => Called(s, c, None, Returned(EncodeFailed))
         case Some(f) =>
           if |s.pipe.queue| < 100 then
             Called(s, c, frame, Returned(Queued)).(pipe := Pipe(s.pipe.queue + [c], s.pipe.sent + [c]))
           else
             Called(s, c, frame, Returned(Written)).(
             line := s.line.(wire := s.line.wire + f, log := s.line.log + [Entry(c, false)]))
  }

  /** A Send on an open connection puts its frame at the end of the channel if fewer than 100
      are queued, and otherwise writes it itself; it is rejected on a closed connection, and
      without an encoding it returns the error. Nothing else changes. */
  lemma SendAlone(steps: seq<Step>, s: State, c: Call, frame: Option<Octets>) returns (steps': seq<Step>)
    requires Run(steps) == Some(s) && Unlocked(s) && c !in s.calls && (frame.Some? ==> frame.value != [])
    ensures steps <= steps' && Run(steps') == Some(AfterSend(s, c, frame))
  {
    ClosedOnce(steps, s);
    Begins(s, c, frame);
    hide Moves, Run;
    steps' := Goes(steps, s, Invoke(c, frame), Called(s, c, frame, FirstCheck));
    if !s.gate.connected || frame.None? {
      var pc := if s.gate.connected then Encoding else Returned(Rejected);
      steps' := Goes(steps', Called(s, c, frame, FirstCheck), Step.Send(c, Go), Called(s, c, frame, pc));
      if s.gate.connected {
        steps' := Goes(steps', Called(s, c, frame, Encoding), Step.Send(c, Go),
                       Called(s, c, frame, Returned(EncodeFailed)));
      }
    } else if |s.pipe.queue| < 100 {
      steps' := OffersAlone(s, c, frame.value, steps);
      steps' := QueuesAlone(s, c, frame.value, steps');
    } else {
      steps' := OffersAlone(s, c, frame.value, steps);
      steps' := WritesAlone(s, c, frame.value, steps');
    }
  }

  lemma OffersAlone(s: State, c: Call, f: Octets, steps: seq<Step>) returns (steps': seq<Step>)
    requires Run(steps) == Some(s) && Calm(s) && c !in s.calls && f != []
    ensures steps <= steps' && Run(steps') == Some(Reading(With(s, c, f, Offering), c))
  {
    Opening(s, c, f);
    hide Run, Moves, Calm;
    steps' := Goes(steps, s, Invoke(c, Some(f)), With(s, c, f, FirstCheck));
    steps' := Goes(steps', With(s, c, f, FirstCheck), Step.Send(c, Go), With(s, c, f, Encoding));
    steps' := Goes(steps', With(s, c, f, Encoding), Step.Send(c, Go), With(s, c, f, Locking));
    steps' := Goes(steps', With(s, c, f, Locking), Step.Send(c, Go), Reading(With(s, c, f, SecondCheck), c));
    steps' := Goes(steps', Reading(With(s, c, f, SecondCheck), c), Step.Send(c, Go),
                   Reading(With(s, c, f, Offering), c));
  }

  lemma QueuesAlone(s: State, c: Call, f: Octets, steps: seq<Step>) returns (steps': seq<Step>)
    requires Run(steps) == Some(Reading(With(s, c, f, Offering), c))
    requires Calm(s) && c !in s.calls && |s.pipe.queue| < 100
    ensures steps <= steps' && Run(steps') == Some(With(Piped(s, c), c, f, Returned(Queued)))
  {
    Queueing(s, c, f);
    hide Run, Moves, Calm;
    var t := Piped(s, c);
    steps' := Goes(steps, Reading(With(s, c, f, Offering), c), Step.Send(c, Go),
                   Reading(With(t, c, f, Unlocking(ToQueued)), c));
    steps' := Goes(steps', Reading(With(t, c, f, Unlocking(ToQueued)), c), Step.Send(c, Go),
                   With(t, c, f, Returned(Queued)));
  }

  /** The line while call c, or afterwards nobody, holds it, with more bytes and entries. */
  function Longer(line: Line, mu: Option<Holder>, more: Octets, entries: seq<Entry>): Line {
    line.(mu := mu, wire := line.wire + more, log := line.log + entries)
  }

  lemma Writes(s: State, c: Call, f: Octets)
    requires !s.panicked && c !in s.calls && f != [] && s.line.mu.None?
    ensures var held := Some(CallHolds(c));
            && Moves(Wired(With(s, c, f, Writing(0)), s.line.(mu := held)), Step.Send(c, Chunk(|f|)),
                     Wired(With(s, c, f, Writing(|f|)), Longer(s.line, held, f, [])))
            && Moves(Wired(With(s, c, f, Writing(|f|)), Longer(s.line, held, f, [])), Step.Send(c, Complete),
                     Wired(With(s, c, f, Releasing(true)), Longer(s.line, held, f, [Entry(c, false)])))
            && Moves(Wired(With(s, c, f, Releasing(true)), Longer(s.line, held, f, [Entry(c, false)])),
                     Step.Send(c, Go),
                     Wired(With(s, c, f, Returned(Written)), Longer(s.line, None, f, [Entry(c, false)])))
  {
    hide CloseStep, WriteStep, CloseEnabled, WriteEnabled;
    assert f[0..0 + |f|] == f && s.line.log + [] == s.line.log;
  }

  lemma WritesAlone(s: State, c: Call, f: Octets, steps: seq<Step>) returns (steps': seq<Step>)
    requires Run(steps) == Some(Reading(With(s, c, f, Offering), c))
    requires Calm(s) && c !in s.calls && |s.pipe.queue| >= 100 && f != []
    ensures steps <= steps'
    ensures Run(steps') == Some(Wired(With(s, c, f, Returned(Written)), Longer(s.line, None, f, [Entry(c, false)])))
  {
    Overflowing(s, c, f);
    Writes(s, c, f);
    hide Run, Moves, Calm;
    var held := Some(CallHolds(c));
    steps' := Goes(steps, Reading(With(s, c, f, Offering), c), Step.Send(c, Go),
                   Reading(With(s, c, f, Unlocking(ToOverflow)), c));
    steps' := Goes(steps', Reading(With(s, c, f, Unlocking(ToOverflow)), c), Step.Send(c, Go),
                   With(s, c, f, WaitingMu));
    steps' := Goes(steps', With(s, c, f, WaitingMu), Step.Send(c, Go),
                   Wired(With(s, c, f, Writing(0)), s.line.(mu := held)));
    steps' := Goes(steps', Wired(With(s, c, f, Writing(0)), s.line.(mu := held)), Step.Send(c, Chunk(|f|)),
                   Wired(With(s, c, f, Writing(|f|)), Longer(s.line, held, f, [])));
    steps' := Goes(steps', Wired(With(s, c, f, Writing(|f|)), Longer(s.line, held, f, [])), Step.Send(c, Complete),
                   Wired(With(s, c, f, Releasing(true)), Longer(s.line, held, f, [Entry(c, false)])));
    steps' := Goes(steps', Wired(With(s, c, f, Releasing(true)), Longer(s.line, held, f, [Entry(c, false)])),
                   Step.Send(c, Go),
                   Wired(With(s, c, f, Returned(Written)), Longer(s.line, None, f, [Entry(c, false)])));
  }

  // ---------------------------------------------------------------- closing

  function Gated(s: State, g: Gate): State { s.(gate := g) }

  /** The gate of s after a step of the closing sequence of its winner a. */
  function Closes(g: Gate, a: Agent, pc: ClosePc, writer: Option<Agent>, closes: nat, cancelled: bool): Gate {
    Gate(false, Some(a), g.closing[a := pc], writer, closes, cancelled)
  }

  lemma ClosingMoves(s: State, a: Agent)
    requires Calm(s) && a in s.gate.closing && s.gate.closing[a] == Swap && !s.gate.cancelled
    ensures var g, w := s.gate, Some(a);
            && Moves(s, Close(a), Gated(s, Closes(g, a, LockClose, None, 0, false)))
            && Moves(Gated(s, Closes(g, a, LockClose, None, 0, false)), Close(a),
                     Gated(s, Closes(g, a, CloseChannel, w, 0, false)))
            && Moves(Gated(s, Closes(g, a, CloseChannel, w, 0, false)), Close(a),
                     Gated(s, Closes(g, a, UnlockClose, w, 1, false)))
            && Moves(Gated(s, Closes(g, a, UnlockClose, w, 1, false)), Close(a),
                     Gated(s, Closes(g, a, Cancel, None, 1, false)))
            && Moves(Gated(s, Closes(g, a, Cancel, None, 1, false)), Close(a),
                     Gated(s, Closes(g, a, Finished, None, 1, true)))
  {
    hide SendStep, WriteStep, SendEnabled, WriteEnabled;
  }

  lemma ClosesAlone(steps: seq<Step>, s: State, a: Agent) returns (steps': seq<Step>)
    requires Run(steps) == Some(s)
    requires Calm(s) && a in s.gate.closing && s.gate.closing[a] == Swap && !s.gate.cancelled
    ensures steps <= steps' && Run(steps') == Some(Gated(s, Closes(s.gate, a, Finished, None, 1, true)))
  {
    ClosingMoves(s, a);
    hide Run, Moves, Calm, Gated;
    var g, w := s.gate, Some(a);
    steps' := Goes(steps, s, Close(a), Gated(s, Closes(g, a, LockClose, None, 0, false)));
    steps' := Goes(steps', Gated(s, Closes(g, a, LockClose, None, 0, false)), Close(a),
                   Gated(s, Closes(g, a, CloseChannel, w, 0, false)));
    steps' := Goes(steps', Gated(s, Closes(g, a, CloseChannel, w, 0, false)), Close(a),
                   Gated(s, Closes(g, a, UnlockClose, w, 1, false)));
    steps' := Goes(steps', Gated(s, Closes(g, a, UnlockClose, w, 1, false)), Close(a),
                   Gated(s, Closes(g, a, Cancel, None, 1, false)));
    steps' := Goes(steps', Gated(s, Closes(g, a, Cancel, None, 1, false)), Close(a),
                   Gated(s, Closes(g, a, Finished, None, 1, true)));
  }

  /** Close wins on an open connection: connected is 0, the channel closed and the context
      cancelled; on a closed one it changes nothing. */
  lemma CloseAlone(steps: seq<Step>, s: State, id: nat) returns (steps': seq<Step>, s': State)
    requires Run(steps) == Some(s) && Unlocked(s) && Closer(id) !in s.gate.closing
    ensures steps <= steps' && Run(steps') == Some(s')
    ensures var done := s.gate.closing[Closer(id) := Finished];
            s' == if s.gate.connected then s.(gate := Gate(false, Some(Closer(id)), done, None, 1, true))
                  else s.(gate := s.gate.(closing := done))
  {
    ClosedOnce(steps, s);
    ClosingAchieves(steps, s);
    var t := s.(gate := s.gate.(closing := s.gate.closing[Closer(id) := Swap]));
    steps' := Goes(steps, s, InvokeClose(id), t);
    if s.gate.connected {
      steps' := ClosesAlone(steps', t, Closer(id));
      s' := Gated(t, Closes(t.gate, Closer(id), Finished, None, 1, true));
    } else {
      s' := s.(gate := s.gate.(closing := s.gate.closing[Closer(id) := Finished]));
      steps' := Goes(steps', t, Close(Closer(id)), s');
    }
    assert t.gate.closing[Closer(id) := Finished] == s.gate.closing[Closer(id) := Finished];
  }

  // ---------------------------------------------------------------- the write loop

  /** The loop at some point with the first queued call taken, and the line as given. */
  function Loops(s: State, loop: LoopPc, line: Line): State
    requires s.pipe.queue != []
  {
    s.(loop := loop, line := line, pipe := s.pipe.(queue := s.pipe.queue[1..]))
  }

  lemma Takes(s: State)
    requires !s.panicked && s.loop == Selecting && s.pipe.queue != [] && s.line.mu.None?
    ensures var c := s.pipe.queue[0];
            && Moves(s, Receive, Loops(s, Taken(c), s.line))
            && Moves(Loops(s, Taken(c), s.line), Write(Go),
                     Loops(s, LoopWriting(c, 0), Longer(s.line, Some(LoopHolds), [], [])))
  {
    hide CloseStep, SendStep, CloseEnabled, SendEnabled;
    assert s.line.wire + [] == s.line.wire && s.line.log + [] == s.line.log;
  }

  lemma PutsOut(s: State, k: nat)
    requires !s.panicked && s.pipe.queue != [] && k <= |FrameOf(s.calls, s.pipe.queue[0])| && k > 0
    ensures var c, held := s.pipe.queue[0], Some(LoopHolds);
            Moves(Loops(s, LoopWriting(c, 0), Longer(s.line, held, [], [])), Write(Chunk(k)),
                  Loops(s, LoopWriting(c, k), Longer(s.line, held, FrameOf(s.calls, c)[..k], [])))
  {
    hide CloseStep, SendStep, CloseEnabled, SendEnabled;
    var f := FrameOf(s.calls, s.pipe.queue[0]);
    assert f[0..0 + k] == f[..k] && s.line.wire + [] == s.line.wire && s.line.log + [] == s.line.log;
  }

  /** The loop has taken a frame and put k bytes of it on the wire. */
  lemma PutsAlone(steps: seq<Step>, s: State, k: nat) returns (steps': seq<Step>)
    requires Run(steps) == Some(s) && !s.panicked && s.loop == Selecting && s.pipe.queue != [] && s.line.mu.None?
    requires k <= |FrameOf(s.calls, s.pipe.queue[0])|
    ensures steps <= steps'
    ensures var c := s.pipe.queue[0];
            Run(steps') == Some(Loops(s, LoopWriting(c, k),
                                      Longer(s.line, Some(LoopHolds), FrameOf(s.calls, c)[..k], [])))
  {
    var c, held := s.pipe.queue[0], Some(LoopHolds);
    Takes(s);
    if k > 0 {
      PutsOut(s, k);
    }
    hide Run, Moves, FrameOf;
    steps' := Goes(steps, s, Receive, Loops(s, Taken(c), s.line));
    steps' := Goes(steps', Loops(s, Taken(c), s.line), Write(Go),
                   Loops(s, LoopWriting(c, 0), Longer(s.line, held, [], [])));
    if k > 0 {
      steps' := Goes(steps', Loops(s, LoopWriting(c, 0), Longer(s.line, held, [], [])), Write(Chunk(k)),
                     Loops(s, LoopWriting(c, k), Longer(s.line, held, FrameOf(s.calls, c)[..k], [])));
    } else {
      assert FrameOf(s.calls, c)[..k] == [];
    }
  }

  lemma Completes(s: State)
    requires !s.panicked && s.pipe.queue != []
    ensures var c, held := s.pipe.queue[0], Some(LoopHolds);
            var f := FrameOf(s.calls, c);
            && Moves(Loops(s, LoopWriting(c, |f|), Longer(s.line, held, f, [])), Write(Complete),
                     Loops(s, LoopReleasing(c, true), Longer(s.line, held, f, [Entry(c, true)])))
            && Moves(Loops(s, LoopReleasing(c, true), Longer(s.line, held, f, [Entry(c, true)])), Write(Go),
                     Loops(s, Selecting, Longer(s.line, None, f, [Entry(c, true)])))
  {
    hide CloseStep, SendStep, CloseEnabled, SendEnabled;
    assert s.line.log + [] == s.line.log;
  }

  /** A write of the loop puts the first queued frame whole at the end of the wire. */
  lemma LoopAlone(steps: seq<Step>, s: State) returns (steps': seq<Step>, s': State)
    requires Run(steps) == Some(s) && s.loop == Selecting && s.pipe.queue != [] && s.line.mu.None?
    ensures steps <= steps' && Run(steps') == Some(s')
    ensures var c := s.pipe.queue[0];
            s' == s.(pipe := s.pipe.(queue := s.pipe.queue[1..]),
                     line := s.line.(wire := s.line.wire + FrameOf(s.calls, c), log := s.line.log + [Entry(c, true)]))
  {
    ClosedOnce(steps, s);
    var c, held := s.pipe.queue[0], Some(LoopHolds);
    var f := FrameOf(s.calls, c);
    Completes(s);
    hide Run, Moves, FrameOf;
    steps' := PutsAlone(steps, s, |f|);
    assert f[..|f|] == f;
    steps' := Goes(steps', Loops(s, LoopWriting(c, |f|), Longer(s.line, held, f, [])), Write(Complete),
                   Loops(s, LoopReleasing(c, true), Longer(s.line, held, f, [Entry(c, true)])));
    s' := Loops(s, Selecting, Longer(s.line, None, f, [Entry(c, true)]));
    steps' := Goes(steps', Loops(s, LoopReleasing(c, true), Longer(s.line, held, f, [Entry(c, true)])), Write(Go), s');
  }

  /** The line after a write that failed with k bytes of f out. */
  function Broken(line: Line, mu: Option<Holder>, f: Octets, k: nat): Line
    requires k <= |f|
  {
    Line(mu, line.wire + f[..k], line.log, true, line.torn + k)
  }

  lemma Fails(s: State, k: nat)
    requires !s.panicked && s.pipe.queue != [] && k <= |FrameOf(s.calls, s.pipe.queue[0])|
    ensures var c, held := s.pipe.queue[0], Some(LoopHolds);
            var f := FrameOf(s.calls, c);
            && Moves(Loops(s, LoopWriting(c, k), Longer(s.line, held, f[..k], [])), Write(Fail),
                     Loops(s, LoopReleasing(c, false), Broken(s.line, held, f, k)))
            && Moves(Loops(s, LoopReleasing(c, false), Broken(s.line, held, f, k)), Write(Go),
                     Loops(s, Failing(c), Broken(s.line, None, f, k)).(
                     gate := s.gate.(closing := s.gate.closing[Loop := Swap])))
  {
    hide CloseStep, SendStep, CloseEnabled, SendEnabled;
    assert s.line.log + [] == s.line.log;
  }

  lemma LeavesAfter(s: State, c: Call)
    requires !s.panicked && s.loop == Failing(c) && Loop in s.gate.closing && s.gate.closing[Loop] == Finished
    ensures Moves(s, Write(Go), s.(loop := Exited(Some(c))))
  {
    hide CloseStep, SendStep, CloseEnabled, SendEnabled;
  }

  /** A write of the loop that fails after k bytes closes the open connection and ends the loop:
      connected is 0, the channel closed, the context cancelled, whatever is still queued. */
  lemma LoopFailsAlone(steps: seq<Step>, s: State, k: nat) returns (steps': seq<Step>, s': State)
    requires Run(steps) == Some(s) && s.loop == Selecting && s.pipe.queue != [] && Unlocked(s) && s.gate.connected
    requires k <= |FrameOf(s.calls, s.pipe.queue[0])|
    ensures steps <= steps' && Run(steps') == Some(s')
    ensures var c := s.pipe.queue[0];
            s' == s.(pipe := s.pipe.(queue := s.pipe.queue[1..]), loop := Exited(Some(c)),
                     line := Line(None, s.line.wire + FrameOf(s.calls, c)[..k], s.line.log, true, s.line.torn + k),
                     gate := Gate(false, Some(Loop), s.gate.closing[Loop := Finished], None, 1, true))
  {
    ClosedOnce(steps, s);
    ClosingAchieves(steps, s);
    var c, held := s.pipe.queue[0], Some(LoopHolds);
    var f := FrameOf(s.calls, c);
    Fails(s, k);
    var failed := Loops(s, Failing(c), Broken(s.line, None, f, k)).(
                  gate := s.gate.(closing := s.gate.closing[Loop := Swap]));
    var closed := Gated(failed, Closes(failed.gate, Loop, Finished, None, 1, true));
    LeavesAfter(closed, c);
    hide Run, Moves, FrameOf;
    steps' := PutsAlone(steps, s, k);
    steps' := Goes(steps', Loops(s, LoopWriting(c, k), Longer(s.line, held, f[..k], [])), Write(Fail),
                   Loops(s, LoopReleasing(c, false), Broken(s.line, held, f, k)));
    steps' := Goes(steps', Loops(s, LoopReleasing(c, false), Broken(s.line, held, f, k)), Write(Go), failed);
    steps' := ClosesAlone(steps', failed, Loop);
    s' := closed.(loop := Exited(Some(c)));
    steps' := Goes(steps', closed, Write(Go), s');
    assert failed.gate.closing[Loop := Finished] == s.gate.closing[Loop := Finished];
  }

  /** Once the context is cancelled the loop can leave from its select, with frames queued or
      not; before that only from a closed and drained channel. */
  lemma LoopStops(steps: seq<Step>, s: State)
    requires Run(steps) == Some(s) && s.loop == Selecting
    ensures s.gate.cancelled ==> Run(steps + [Stop]) == Some(s.(loop := Exited(None)))
    ensures !s.gate.cancelled && Run(steps + [Stop]).Some? ==> s.gate.closes == 1 && s.pipe.queue == []
  {
    ClosedOnce(steps, s);
    assert (steps + [Stop])[..|steps|] == steps;
  }
}
