/** Invariants of the send/close protocol over every run. */
module SendCloseSafety {
  import opened Types
  import opened SendClose

  // ---------------------------------------------------------------- locks and closing

  predicate HoldsRead(pc: SendPc) { pc.SecondCheck? || pc.Offering? || pc.Unlocking? }

  predicate HoldsWrite(pc: ClosePc) { pc == CloseChannel || pc == UnlockClose }

  predicate BeforeClose(pc: ClosePc) { pc == Swap || pc == LockClose || pc == CloseChannel }

  ghost predicate ReadersInv(calls: map<Call, CallState>, readers: set<Call>) {
    forall c :: c in readers <==> c in calls && HoldsRead(calls[c].pc)
  }

  /** A sender past its second check faces an open channel. */
  ghost predicate OfferInv(calls: map<Call, CallState>, closes: nat) {
    forall c :: c in calls && calls[c].pc.Offering? ==> closes == 0
  }

  /** Whoever is past its compare-and-swap without having lost it is the single winner; the
      channel is closed at most once, by the winner, after connected became 0; the writer
      side of closeMu is held around the close. */
  ghost predicate GateInv(g: Gate) {
    && (g.connected <==> g.winner.None?)
    && (g.connected ==> !g.cancelled)
    && (g.connected ==> forall a :: a in g.closing ==> g.closing[a] == Swap)
    && (forall a :: a in g.closing && g.closing[a] != Swap && g.closing[a] != Finished ==> g.winner == Some(a))
    && (g.winner.Some? ==> g.winner.value in g.closing && g.closing[g.winner.value] != Swap)
    && g.closes == (if g.winner.None? || BeforeClose(g.closing[g.winner.value]) then 0 else 1)
    && (forall a :: g.writer == Some(a) <==> a in g.closing && HoldsWrite(g.closing[a]))
    && (g.cancelled <==> g.winner.Some? && g.closing[g.winner.value] == Finished)
  }

  /** The write loop leaves only once connected is 0, and is left holding a frame only after
      a failed write. */
  predicate LoopInv(loop: LoopPc, g: Gate, failed: bool) {
    && (loop.Exited? ==> !g.connected)
    && (Loop in g.closing <==> loop.Failing? || (loop.Exited? && loop.lost.Some?))
    && (loop.Failing? || (loop.LoopReleasing? && !loop.ok) || (loop.Exited? && loop.lost.Some?) ==> failed)
  }

  ghost predicate SafeInv(s: State) {
    && !s.panicked
    && ReadersInv(s.calls, s.readers)
    && OfferInv(s.calls, s.gate.closes)
    && (s.gate.writer.Some? ==> s.readers == {})
    && GateInv(s.gate)
    && LoopInv(s.loop, s.gate, s.line.failed)
  }

  lemma CallMoves(calls: map<Call, CallState>, readers: set<Call>, closes: nat, c: Call, cs: CallState)
    requires ReadersInv(calls, readers) && OfferInv(calls, closes)
    requires cs.pc.Offering? ==> closes == 0
    ensures var readers' := if HoldsRead(cs.pc) then readers + {c} else readers - {c};
            ReadersInv(calls[c := cs], readers') && OfferInv(calls[c := cs], closes)
  {
  }

  /** What a Send step leaves alone, and what it does to the read lock. */
  lemma SendFrame(s: State, c: Call, act: Act)
    requires SendEnabled(s, c, act)
    ensures var s' := SendEffect(s, c, act);
            && s'.gate == s.gate && s'.loop == s.loop && (s.line.failed ==> s'.line.failed)
            && s'.panicked == (s.panicked || (s.calls[c].pc.Offering? && s.gate.closes > 0))
  {
  }

  lemma SendReaders(s: State, c: Call, act: Act)
    requires SendEnabled(s, c, act)
    requires c in s.readers <==> HoldsRead(s.calls[c].pc)
    ensures SendEffect(s, c, act).readers
         == if HoldsRead(NextPc(s, c, act)) then s.readers + {c} else s.readers - {c}
    ensures s.gate.writer.Some? && s.readers == {} ==> SendEffect(s, c, act).readers == {}
    ensures NextPc(s, c, act).Offering? ==> s.gate.connected
  {
  }

  lemma SafeSend(s: State, c: Call, act: Act)
    requires SafeInv(s) && SendEnabled(s, c, act)
    ensures SafeInv(SendStep(s, c, act))
  {
    assert c in s.readers <==> HoldsRead(s.calls[c].pc);
    assert s.calls[c].pc.Offering? ==> s.gate.closes == 0;
    hide ReadersInv, OfferInv, SendEffect, NextPc;
    SendFrame(s, c, act);
    SendReaders(s, c, act);
    CallMoves(s.calls, s.readers, s.gate.closes, c, s.calls[c].(pc := NextPc(s, c, act)));
  }

  lemma GateStep(g: Gate, a: Agent)
    requires GateInv(g) && a in g.closing && g.closing[a] != Finished
    requires g.closing[a] == LockClose ==> g.writer.None?
    ensures GateInv(CloseGate(g, a))
    ensures g.closing[a] == CloseChannel ==> g.closes == 0 && g.writer == Some(a)
  {
  }

  lemma SafeClose(s: State, a: Agent)
    requires SafeInv(s) && CloseEnabled(s, a)
    ensures SafeInv(CloseStep(s, a))
  {
    hide ReadersInv, OfferInv, GateInv;
    GateStep(s.gate, a);
    if s.gate.closing[a] == CloseChannel {
      NobodyOffers(s.calls, s.readers, s.gate.closes + 1);
    }
  }

  lemma NobodyOffers(calls: map<Call, CallState>, readers: set<Call>, n: nat)
    requires ReadersInv(calls, readers) && readers == {}
    ensures OfferInv(calls, n)
  {
    forall c | c in calls
      ensures !calls[c].pc.Offering?
    {
      assert c !in readers;
    }
  }

  lemma SafeInvoke(s: State, c: Call, frame: Option<Octets>)
    requires SafeInv(s) && Enabled(s, Invoke(c, frame))
    ensures SafeInv(Apply(s, Invoke(c, frame)))
  {
    assert c !in s.readers;
    assert s.readers - {c} == s.readers;
    hide ReadersInv, OfferInv, GateInv;
    CallMoves(s.calls, s.readers, s.gate.closes, c, CallState(frame, FirstCheck));
  }

  lemma JoinClosing(g: Gate, a: Agent)
    requires GateInv(g) && a !in g.closing
    ensures GateInv(g.(closing := g.closing[a := Swap]))
  {
  }

  lemma SafeWrite(s: State, act: Act)
    requires SafeInv(s) && WriteEnabled(s, act)
    ensures SafeInv(WriteStep(s, act))
  {
    hide ReadersInv, OfferInv;
    if s.loop.LoopReleasing? && !s.loop.ok {
      JoinClosing(s.gate, Loop);
    }
  }

  /** Every step keeps the safety invariant. */
  lemma SafeStep(s: State, step: Step)
    requires SafeInv(s) && Enabled(s, step)
    ensures SafeInv(Apply(s, step))
  {
    hide ReadersInv, OfferInv, SendStep, CloseStep, WriteStep, SendEnabled, CloseEnabled, WriteEnabled;
    match step
    case Invoke(c, frame) => SafeInvoke(s, c, frame);
    case Send(c, act) => SafeSend(s, c, act);
    case InvokeClose(id) => JoinClosing(s.gate, Closer(id));
    case Close(a) => SafeClose(s, a);
    case Receive =>
    case Stop =>
    case Write(act) => SafeWrite(s, act);
  }
}
