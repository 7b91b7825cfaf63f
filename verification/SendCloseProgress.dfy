/** What the results of Send mean, when the write loop leaves, and that nobody waits for ever on
    everybody else, in every reachable state of the send/close protocol. */
module SendCloseProgress {
  import opened Types
  import opened SendClose
  import opened SendCloseSafety
  import opened SendCloseFlow
  import opened SendCloseTheorems

  // ---------------------------------------------------------------- results

  /** What is known of a call at each program point. */
  predicate CallInv(cs: CallState, connected: bool, failed: bool) {
    && (cs.pc == Unlocking(ToRejected) || cs.pc == Returned(Rejected) ==> !connected)
    && (cs.pc == Returned(EncodeFailed) ==> cs.frame.None?)
    && (cs.frame.None? ==>
          cs.pc.FirstCheck? || cs.pc.Encoding? || cs.pc == Returned(Rejected) || cs.pc == Returned(EncodeFailed))
    && (cs.pc == Releasing(false) || cs.pc == Returned(WriteFailed) ==> failed)
  }

  ghost predicate CallsInv(calls: map<Call, CallState>, connected: bool, failed: bool) {
    forall c :: c in calls ==> CallInv(calls[c], connected, failed)
  }

  /** The write loop leaves without a frame only when the context is cancelled, or the channel
      is closed and drained; after a failed write it leaves when its closing is done. */
  predicate ExitInv(loop: LoopPc, g: Gate, queue: seq<Call>) {
    && (loop == Exited(None) ==> g.cancelled || (g.closes > 0 && queue == []))
    && (loop.Exited? && loop.lost.Some? ==> Loop in g.closing && g.closing[Loop] == Finished)
  }

  ghost predicate ResultInv(s: State) {
    CallsInv(s.calls, s.gate.connected, s.line.failed) && ExitInv(s.loop, s.gate, s.pipe.queue)
  }

  lemma CallsLater(calls: map<Call, CallState>, connected: bool, failed: bool, connected': bool, failed': bool)
    requires CallsInv(calls, connected, failed) && (connected' ==> connected) && (failed ==> failed')
    ensures CallsInv(calls, connected', failed')
  {
  }

  lemma CallStep(s: State, c: Call, act: Act)
    requires SendEnabled(s, c, act) && CallInv(s.calls[c], s.gate.connected, s.line.failed)
    ensures CallInv(s.calls[c].(pc := NextPc(s, c, act)), s.gate.connected, SendEffect(s, c, act).line.failed)
  {
  }

  lemma SendKeeps(s: State, c: Call, act: Act)
    requires SendEnabled(s, c, act) && OfferInv(s.calls, s.gate.closes)
    ensures var s' := SendEffect(s, c, act);
            && s'.gate == s.gate && s'.loop == s.loop && (s.line.failed ==> s'.line.failed)
            && (s'.pipe.queue == s.pipe.queue || s.gate.closes == 0)
  {
  }

  lemma ResultSend(s: State, c: Call, act: Act)
    requires SafeInv(s) && ResultInv(s) && SendEnabled(s, c, act)
    ensures ResultInv(SendStep(s, c, act))
  {
    CallStep(s, c, act);
    SendKeeps(s, c, act);
    GateClosed(s);
    hide SafeInv, SendEffect, NextPc, SendEnabled, CallInv;
    var failed' := SendEffect(s, c, act).line.failed;
    CallsLater(s.calls, s.gate.connected, s.line.failed, s.gate.connected, failed');
  }

  lemma GateClosed(s: State)
    requires SafeInv(s)
    ensures s.gate.cancelled ==> s.gate.closes > 0
  {
  }

  lemma CloseKeeps(g: Gate, a: Agent)
    requires a in g.closing && g.closing[a] != Finished
    ensures var g' := CloseGate(g, a);
            && (g'.connected ==> g.connected) && (g.cancelled ==> g'.cancelled) && g.closes <= g'.closes
            && (forall b :: b in g.closing && g.closing[b] == Finished ==> b in g'.closing && g'.closing[b] == Finished)
  {
  }

  lemma ResultClose(s: State, a: Agent)
    requires ResultInv(s) && CloseEnabled(s, a)
    ensures ResultInv(CloseStep(s, a))
  {
    CloseKeeps(s.gate, a);
    hide CloseGate;
    CallsLater(s.calls, s.gate.connected, s.line.failed, CloseGate(s.gate, a).connected, s.line.failed);
  }

  lemma ResultWrite(s: State, act: Act)
    requires SafeInv(s) && ResultInv(s) && WriteEnabled(s, act)
    ensures ResultInv(WriteStep(s, act))
  {
    hide CallsInv, CallInv, ReadersInv, OfferInv, GateInv;
    var s' := WriteStep(s, act);
    CallsLater(s.calls, s.gate.connected, s.line.failed, s'.gate.connected, s'.line.failed);
  }

  lemma ResultStep(s: State, step: Step)
    requires SafeInv(s) && ResultInv(s) && Enabled(s, step)
    ensures ResultInv(Apply(s, step))
  {
    hide SafeInv, SendStep, CloseStep, WriteStep, SendEnabled, CloseEnabled, WriteEnabled;
    match step
    case Send(c, act) => SendSafe(s); ResultSend(s, c, act);
    case Close(a) => ResultClose(s, a);
    case Write(act) => ResultWrite(s, act);
    case _ =>
  }

  lemma SendSafe(s: State)
    requires SafeInv(s)
    ensures OfferInv(s.calls, s.gate.closes)
  {
  }

  lemma {:induction false} RunResults(steps: seq<Step>)
    ensures Run(steps).Some? ==> ResultInv(Run(steps).value)
  {
    if steps != [] {
      hide SafeInv, ResultInv, FlowsInv, Enabled, Apply;
      var last := |steps| - 1;
      RunResults(steps[..last]);
      RunInv(steps[..last]);
      if Run(steps).Some? {
        ResultStep(Run(steps[..last]).value, steps[last]);
      }
    }
  }

  /** What a caller may conclude: a Send is rejected only if connected is 0, fails to encode only
      a message that has no encoding, and reports a failed write only if a write has failed; a
      message without an encoding is never queued or written. */
  lemma ResultsMean(steps: seq<Step>, s: State, c: Call)
    requires Run(steps) == Some(s) && c in s.calls && s.calls[c].pc.Returned?
    ensures s.calls[c].pc.outcome == Rejected ==> !s.gate.connected
    ensures s.calls[c].pc.outcome == EncodeFailed ==> s.calls[c].frame.None?
    ensures s.calls[c].pc.outcome == WriteFailed ==> s.line.failed
    ensures s.calls[c].frame.None? ==> s.calls[c].pc.outcome == Rejected || s.calls[c].pc.outcome == EncodeFailed
  {
    RunResults(steps);
  }

  /** The loop leaves queued frames behind only after a cancelled context or a failed write, and
      after a failed write only once it has closed the connection or found it closed. */
  lemma LoopLeaves(steps: seq<Step>, s: State)
    requires Run(steps) == Some(s) && s.loop.Exited?
    ensures s.loop.lost.None? && s.pipe.queue != [] ==> s.gate.cancelled
    ensures s.loop.lost.Some? ==> Loop in s.gate.closing && s.gate.closing[Loop] == Finished
  {
    RunResults(steps);
  }

  // ---------------------------------------------------------------- sends that come too late

  lemma ConnectedOff(s: State, step: Step)
    requires Enabled(s, step)
    ensures Apply(s, step).gate.connected ==> s.gate.connected
  {
    hide NextPc;
  }

  /** Not called, or not yet past its second look at connected. */
  predicate Unchecked(calls: map<Call, CallState>, c: Call) {
    c in calls ==> var pc := calls[c].pc; pc.FirstCheck? || pc.Encoding? || pc.Locking? || pc.SecondCheck?
  }

  /** Not called, about to look at connected for the first time, or rejected. */
  predicate TooLate(calls: map<Call, CallState>, c: Call) {
    c in calls ==> calls[c].pc.FirstCheck? || calls[c].pc == Returned(Rejected)
  }

  /** What can become of an unchecked call once connected is 0. */
  predicate Lost(calls: map<Call, CallState>, c: Call) {
    Unchecked(calls, c) || calls[c].pc == Unlocking(ToRejected)
    || calls[c].pc == Returned(Rejected) || calls[c].pc == Returned(EncodeFailed)
  }

  lemma LateStep(s: State, step: Step, c: Call)
    requires Enabled(s, step) && !s.gate.connected && Lost(s.calls, c)
    ensures Lost(Apply(s, step).calls, c)
    ensures TooLate(s.calls, c) ==> TooLate(Apply(s, step).calls, c)
  {
    match step
    case Send(d, act) => EffectKeepsCalls(s, d, act);
    case _ =>
  }

  lemma {:induction false} LateRun(steps: seq<Step>, more: seq<Step>, s: State, s': State, c: Call)
    requires Run(steps) == Some(s) && Run(steps + more) == Some(s')
    requires !s.gate.connected && Unchecked(s.calls, c)
    ensures !s'.gate.connected && Lost(s'.calls, c) && (TooLate(s.calls, c) ==> TooLate(s'.calls, c))
    decreases |more|
  {
    if more == [] {
      assert steps + more == steps;
    } else {
      var last := |more| - 1;
      assert (steps + more)[..|steps| + last] == steps + more[..last];
      hide Enabled, Apply, TooLate, Lost;
      var t := Run(steps + more[..last]).value;
      LateRun(steps, more[..last], s, t, c);
      LateStep(t, more[last], c);
      ConnectedOff(t, more[last]);
    }
  }

  /** A Send that begins once connected is 0 is rejected at its first check: it takes no lock,
      and its frame goes nowhere. */
  lemma LateSendRejected(steps: seq<Step>, more: seq<Step>, s: State, s': State, c: Call)
    requires Run(steps) == Some(s) && Run(steps + more) == Some(s')
    requires !s.gate.connected && c !in s.calls && c in s'.calls
    ensures s'.calls[c].pc.FirstCheck? || s'.calls[c].pc == Returned(Rejected)
  {
    LateRun(steps, more, s, s', c);
  }

  /** A Send that has begun but not looked at connected for the second time when it becomes 0
      is rejected or fails to encode: however the run goes on, its frame is neither queued nor
      written. */
  lemma UncheckedSendRejected(steps: seq<Step>, more: seq<Step>, s: State, s': State, c: Call)
    requires Run(steps) == Some(s) && Run(steps + more) == Some(s')
    requires !s.gate.connected && c in s'.calls
    requires c in s.calls ==> var pc := s.calls[c].pc; pc.FirstCheck? || pc.Encoding? || pc.Locking? || pc.SecondCheck?
    ensures s'.calls[c].pc.Returned? ==> s'.calls[c].pc.outcome == Rejected || s'.calls[c].pc.outcome == EncodeFailed
    ensures c !in s'.pipe.sent && forall e :: e in s'.line.log ==> e.call != c
  {
    LateRun(steps, more, s, s', c);
    RunInv(steps + more);
    hide SafeInv, FlowsInv, Run;
    UnloggedUnlessSent(s', c);
  }

  /** A call that has neither been queued nor written itself is not in the log. */
  lemma UnloggedUnlessSent(s: State, c: Call)
    requires FlowsInv(s) && c in s.calls && Lost(s.calls, c)
    ensures c !in s.pipe.sent && forall e :: e in s.line.log ==> e.call != c
  {
    LogMembers(s.line.log);
    assert c !in s.pipe.sent && c !in DirectCalls(s.line.log);
    forall e | e in s.line.log
      ensures e.call in s.pipe.sent || e.call in DirectCalls(s.line.log)
    {
      if e.queued {
        assert e.call in QueuedCalls(s.line.log);
      }
    }
  }

  // ---------------------------------------------------------------- no deadlock

  /** Somebody has something left to do: a Send that has not returned, a closing sequence that
      has not finished, or a write loop that holds a frame or has something to select. */
  ghost predicate Busy(s: State) {
    || (exists c :: c in s.calls && !s.calls[c].pc.Returned?)
    || (exists a :: a in s.gate.closing && s.gate.closing[a] != Finished)
    || s.loop.Taken? || s.loop.LoopWriting? || s.loop.LoopReleasing? || s.loop.Failing?
    || (s.loop.Selecting? && (s.pipe.queue != [] || s.gate.cancelled || s.gate.closes > 0))
  }

  predicate Onward(s: State, step: Step) { Enabled(s, step) && !step.Invoke? && !step.InvokeClose? }

  /** Whoever holds a lock can go on. */
  lemma HolderMoves(s: State) returns (step: Step)
    requires SafeInv(s) && FlowsInv(s)
    requires s.line.mu.Some? || s.gate.writer.Some? || s.readers != {}
    ensures Onward(s, step)
  {
    hide OnceInv, FlowInv, FrameInv, WireInv;
    if s.line.mu.Some? {
      match s.line.mu.value
      case CallHolds(c) => step := Step.Send(c, if s.calls[c].pc.Writing? then Fail else Go);
      case LoopHolds => step := Write(if s.loop.LoopWriting? then Fail else Go);
    } else if s.gate.writer.Some? {
      step := Close(s.gate.writer.value);
    } else {
      var c :| c in s.readers;
      step := Step.Send(c, Go);
    }
  }

  /** With no lock held everybody who is not done can go on. */
  lemma FreeMoves(s: State) returns (step: Step)
    requires SafeInv(s) && FlowsInv(s) && Busy(s)
    requires s.line.mu.None? && s.gate.writer.None? && s.readers == {}
    ensures Onward(s, step)
  {
    hide OnceInv, FlowInv, FrameInv, WireInv;
    if c :| c in s.calls && !s.calls[c].pc.Returned? {
      assert s.line.mu != Some(CallHolds(c));
      step := Step.Send(c, Go);
    } else if a :| a in s.gate.closing && s.gate.closing[a] != Finished {
      step := Close(a);
    } else if s.loop.Selecting? {
      step := if s.pipe.queue != [] then Receive else Stop;
    } else {
      assert s.line.mu != Some(LoopHolds);
      step := Write(Go);
    }
  }

  /** No deadlock: in every reachable state in which somebody has something left to do, somebody
      can take a step, whatever callers come or do not come. */
  lemma NoDeadlock(steps: seq<Step>, s: State) returns (step: Step)
    requires Run(steps) == Some(s) && Busy(s)
    ensures Enabled(s, step) && !step.Invoke? && !step.InvokeClose?
  {
    RunInv(steps);
    hide SafeInv, FlowsInv, Enabled, Busy;
    if s.line.mu.Some? || s.gate.writer.Some? || s.readers != {} {
      step := HolderMoves(s);
    } else {
      step := FreeMoves(s);
    }
  }
}
