/** What the send/close protocol guarantees in every reachable state, and what a reader at
    the far end of the connection receives. */
module SendCloseTheorems {
  import opened Types
  import opened Codec
  import opened CodecTheorems
  import opened Framing
  import opened SendClose
  import opened SendCloseSafety
  import opened SendCloseFlow

  lemma {:induction false} RunInv(steps: seq<Step>)
    ensures Run(steps).Some? ==> SafeInv(Run(steps).value) && FlowsInv(Run(steps).value)
  {
    hide SafeInv, FlowsInv, Enabled, Apply;
    if steps == [] {
      InitInv();
    } else {
      var last := |steps| - 1;
      RunInv(steps[..last]);
      if Run(steps).Some? {
        var s := Run(steps[..last]).value;
        SafeStep(s, steps[last]);
        FlowStep(s, steps[last]);
      }
    }
  }

  lemma InitInv()
    ensures SafeInv(Init()) && FlowsInv(Init())
  {
  }

  /** The channel is closed at most once, only after connected became 0, and no Send ever
      sends on the closed channel: a sender past its second check holds the read lock, which
      keeps every closer out. */
  lemma ClosedOnce(steps: seq<Step>, s: State)
    requires Run(steps) == Some(s)
    ensures !s.panicked && s.gate.closes <= 1
    ensures s.gate.closes == 1 ==> !s.gate.connected
    ensures forall c :: c in s.calls && s.calls[c].pc.Offering? ==>
              s.gate.closes == 0 && c in s.readers && s.gate.writer.None?
  {
    RunInv(steps);
  }

  /** What closing achieves: the context is cancelled exactly when whoever won the swap has gone
      through its closing sequence, and then connected is 0 and the channel is closed. Once any
      Close call has finished, connected is 0. */
  lemma ClosingAchieves(steps: seq<Step>, s: State)
    requires Run(steps) == Some(s)
    ensures s.gate.connected <==> s.gate.winner.None?
    ensures s.gate.winner.Some? ==> s.gate.winner.value in s.gate.closing
    ensures s.gate.cancelled <==> s.gate.winner.Some? && s.gate.closing[s.gate.winner.value] == Finished
    ensures s.gate.cancelled ==> !s.gate.connected && s.gate.closes == 1
    ensures forall a :: a in s.gate.closing && s.gate.closing[a] == Finished ==> !s.gate.connected
  {
    RunInv(steps);
  }

  /** Every frame put on the channel is in exactly one place: written, in the loop's hand, or
      queued, in the order in which it was put there, and at most 100 are queued. While
      connected is 1 the loop is running; what it leaves behind when it has exited is lost,
      and a frame is lost out of its hand only after a failed write. */
  lemma FramesAccountedFor(steps: seq<Step>, s: State)
    requires Run(steps) == Some(s)
    ensures s.pipe.sent == QueuedCalls(s.line.log) + Hand(s.loop) + s.pipe.queue
    ensures Distinct(s.pipe.sent) && |s.pipe.queue| <= 100
    ensures forall c :: c in s.pipe.sent <==> c in s.calls && WasQueued(s.calls[c].pc)
    ensures s.gate.connected ==> !s.loop.Exited?
    ensures s.loop.Exited? && Hand(s.loop) != [] ==> s.line.failed
  {
    RunInv(steps);
  }

  /** No Send call has its frame written twice, by the loop or by itself. */
  lemma WrittenOnce(steps: seq<Step>, s: State)
    requires Run(steps) == Some(s)
    ensures forall i, j :: 0 <= i < j < |s.line.log| ==> s.line.log[i].call != s.line.log[j].call
  {
    RunInv(steps);
    var q, d := QueuedCalls(s.line.log), DirectCalls(s.line.log);
    forall i, j | 0 <= i < j < |q|
      ensures q[i] != q[j]
    {
      assert s.pipe.sent[i] == q[i] && s.pipe.sent[j] == q[j];
    }
    forall c | c in q
      ensures c !in d
    {
      assert c in s.pipe.sent;
    }
    LogDistinct(s.line.log);
  }

  lemma DistinctFront(s: seq<Call>, c: Call)
    requires Distinct(s + [c])
    ensures Distinct(s) && c !in s && c in s + [c] && forall d :: d in s ==> d in s + [c]
  {
    forall i | 0 <= i < |s|
      ensures s[i] != c && s[i] in s + [c]
    {
      assert (s + [c])[i] == s[i] && (s + [c])[|s|] == c;
    }
    assert forall i :: 0 <= i < |s| ==> (s + [c])[i] == s[i];
  }

  lemma {:induction false} LogDistinct(log: seq<Entry>)
    requires Distinct(QueuedCalls(log)) && Distinct(DirectCalls(log))
    requires forall c :: c in QueuedCalls(log) ==> c !in DirectCalls(log)
    ensures forall i, j :: 0 <= i < j < |log| ==> log[i].call != log[j].call
  {
    if log != [] {
      var last := |log| - 1;
      var init, e := log[..last], log[last];
      LastApart(init, e, log);
      LogDistinct(init);
      LogMembers(init);
      forall i | 0 <= i < last
        ensures log[i].call != e.call
      {
        assert log[i] == init[i] && init[i] in init;
      }
    }
  }

  /** The call of the last entry is none of the earlier ones. */
  lemma LastApart(init: seq<Entry>, e: Entry, log: seq<Entry>)
    requires log == init + [e] && Distinct(QueuedCalls(log)) && Distinct(DirectCalls(log))
    requires forall c :: c in QueuedCalls(log) ==> c !in DirectCalls(log)
    ensures Distinct(QueuedCalls(init)) && Distinct(DirectCalls(init))
    ensures forall c :: c in QueuedCalls(init) ==> c !in DirectCalls(init)
    ensures e.call !in QueuedCalls(init) && e.call !in DirectCalls(init)
  {
    LogGrows(init, e, map[]);
    var q, d := QueuedCalls(init), DirectCalls(init);
    hide QueuedCalls, DirectCalls, Bytes, Distinct;
    if e.queued {
      DistinctFront(q, e.call);
      assert d + [] == d;
    } else {
      DistinctFront(d, e.call);
      assert q + [] == q;
    }
  }

  /** What the result of a Send call says about its frame. */
  lemma SendOutcomes(steps: seq<Step>, s: State, c: Call)
    requires Run(steps) == Some(s) && c in s.calls && s.calls[c].pc.Returned?
    ensures var outcome := s.calls[c].pc.outcome;
            && (outcome == Queued <==> c in s.pipe.sent)
            && (outcome == Written <==> Entry(c, false) in s.line.log)
            && (outcome != Queued && outcome != Written ==> forall e :: e in s.line.log ==> e.call != c)
  {
    RunInv(steps);
    LogMembers(s.line.log);
    DirectLogged(s.line.log, c);
    forall e | e in s.line.log && e.call == c
      ensures if e.queued then c in s.pipe.sent else c in DirectCalls(s.line.log)
    {
      if e.queued {
        assert c in QueuedCalls(s.line.log);
      }
    }
  }

  lemma {:induction false} DirectLogged(log: seq<Entry>, c: Call)
    ensures c in DirectCalls(log) ==> Entry(c, false) in log
  {
    if log != [] {
      DirectLogged(log[..|log| - 1], c);
    }
  }

  // ---------------------------------------------------------------- the far end

  function FrameFor(m: Message): Option<Octets> {
    match Encode(m)
    case Ok(f) => Some(f)
    case Err(_) => None
  }

  /** Every Send call of the run carries the encoding of its message. */
  ghost predicate Carries(steps: seq<Step>, msgs: map<Call, Message>) {
    forall i :: 0 <= i < |steps| && steps[i].Invoke? ==>
      steps[i].call in msgs && steps[i].frame == FrameFor(msgs[steps[i].call])
  }

  ghost predicate Carried(calls: map<Call, CallState>, msgs: map<Call, Message>) {
    forall c :: c in calls ==> c in msgs && calls[c].frame == FrameFor(msgs[c])
  }

  lemma {:induction false} RunCarries(steps: seq<Step>, msgs: map<Call, Message>)
    requires Carries(steps, msgs)
    ensures Run(steps).Some? ==> Carried(Run(steps).value.calls, msgs)
  {
    if steps != [] {
      var last := |steps| - 1;
      assert Carries(steps[..last], msgs);
      RunCarries(steps[..last], msgs);
      if Run(steps).Some? {
        FramesKept(Run(steps[..last]).value, steps[last]);
      }
    }
  }

  lemma FramesKept(s: State, step: Step)
    requires Enabled(s, step)
    ensures var calls' := Apply(s, step).calls;
            forall c :: c in calls' ==>
              if c in s.calls then calls'[c].frame == s.calls[c].frame
              else step == Invoke(c, calls'[c].frame)
  {
    match step
    case Send(c, act) => EffectKeepsCalls(s, c, act);
    case Write(act) =>
    case _ =>
  }

  lemma EffectKeepsCalls(s: State, c: Call, act: Act)
    requires SendEnabled(s, c, act)
    ensures SendStep(s, c, act).calls == s.calls[c := s.calls[c].(pc := NextPc(s, c, act))]
  {
  }

  /** The messages of the completed writes, in wire order. */
  function LoggedMessages(log: seq<Entry>, msgs: map<Call, Message>): seq<Message>
    requires forall e :: e in log ==> e.call in msgs
  {
    seq(|log|, i requires 0 <= i < |log| => msgs[(assert log[i] in log; log[i]).call])
  }

  lemma {:induction false} StreamGrows(ms: seq<Message>, m: Message)
    requires AllEncodable(ms) && Encodable(m)
    ensures Stream(ms + [m]) == Stream(ms) + Frame(m)
  {
    hide Frame;
    if ms == [] {
      assert ms + [m] == [m] && Stream([m]) == Frame(m) + Stream([]);
    } else {
      assert (ms + [m])[1..] == ms[1..] + [m];
      StreamGrows(ms[1..], m);
      assert Frame(ms[0]) + (Stream(ms[1..]) + Frame(m)) == Stream(ms) + Frame(m);
    }
  }

  lemma {:induction false} BytesAreStream(calls: map<Call, CallState>, log: seq<Entry>, msgs: map<Call, Message>)
    requires Carried(calls, msgs)
    requires forall e :: e in log ==> e.call in calls && calls[e.call].frame.Some?
    ensures AllEncodable(LoggedMessages(log, msgs))
    ensures Bytes(calls, log) == Stream(LoggedMessages(log, msgs))
  {
    hide FrameFor, Frame, Encodable;
    if log != [] {
      var init, e := log[..|log| - 1], log[|log| - 1];
      assert e in log;
      BytesAreStream(calls, init, msgs);
      FrameForIs(msgs[e.call]);
      assert LoggedMessages(log, msgs) == LoggedMessages(init, msgs) + [msgs[e.call]];
      StreamGrows(LoggedMessages(init, msgs), msgs[e.call]);
    }
  }

  lemma FrameForIs(m: Message)
    ensures FrameFor(m).Some? <==> Encodable(m)
    ensures Encodable(m) ==> FrameFor(m).value == Frame(m) && |Frame(m)| >= 2
  {
    if Encodable(m) {
      EncodeIsFrame(m);
    }
  }

  /** The call whose frame is being written and how much of it is on the wire. */
  function InProgress(s: State): Option<(Call, nat)> {
    match s.line.mu
    case Some(CallHolds(c)) =>
      if c in s.calls && s.calls[c].pc.Writing? then Some((c, s.calls[c].pc.done)) else None
    case Some(LoopHolds) => if s.loop.LoopWriting? then Some((s.loop.call, s.loop.done)) else None
    case None => None
  }

  lemma LoggedHaveFrames(s: State)
    requires FlowsInv(s)
    ensures forall e :: e in s.line.log ==> e.call in s.calls && s.calls[e.call].frame.Some?
    ensures InProgress(s).Some? ==>
              var (c, done) := InProgress(s).value;
              && c in s.calls && s.calls[c].frame.Some? && done <= |s.calls[c].frame.value|
              && Partial(s.line.mu, s.calls, s.loop) == s.calls[c].frame.value[..done]
    ensures InProgress(s).None? ==> Partial(s.line.mu, s.calls, s.loop) == []
  {
    Known(s);
    LogMembers(s.line.log);
    forall e | e in s.line.log
      ensures s.calls[e.call].frame.Some?
    {
      if e.queued {
        assert e.call in s.pipe.sent;
      } else {
        assert e.call in DirectCalls(s.line.log);
      }
      assert HasFrame(s.calls[e.call].pc);
    }
    if s.loop.LoopWriting? {
      var c := s.loop.call;
      assert c in Hand(s.loop) && c in s.pipe.sent && HasFrame(s.calls[c].pc);
    }
  }

  /** The part of the frame in progress that is on the wire. */
  function Unfinished(s: State, msgs: map<Call, Message>): Octets {
    match InProgress(s)
    case None => []
    case Some((c, done)) =>
      if c in msgs && Encodable(msgs[c]) && done <= |Frame(msgs[c])| then Frame(msgs[c])[..done] else []
  }

  /** In every reachable state: the wire holds exactly the whole frames of the completed
      writes, in order, and then a prefix of the frame in progress, if and only if no failed
      write has left a byte behind. */
  lemma WireHolds(steps: seq<Step>, s: State, msgs: map<Call, Message>)
    requires Run(steps) == Some(s) && Carries(steps, msgs)
    ensures forall e :: e in s.line.log ==> e.call in msgs
    ensures AllEncodable(LoggedMessages(s.line.log, msgs))
    ensures InProgress(s).Some? ==>
              var (c, done) := InProgress(s).value;
              c in msgs && Encodable(msgs[c]) && done <= |Frame(msgs[c])|
    ensures s.line.wire == Stream(LoggedMessages(s.line.log, msgs)) + Unfinished(s, msgs) <==> s.line.torn == 0
  {
    RunInv(steps);
    RunCarries(steps, msgs);
    LoggedHaveFrames(s);
    WireAccount(s);
    hide SafeInv, FlowsInv, Carries, Run;
    BytesAreStream(s.calls, s.line.log, msgs);
    if InProgress(s).Some? {
      FrameForIs(msgs[InProgress(s).value.0]);
    }
    assert Partial(s.line.mu, s.calls, s.loop) == Unfinished(s, msgs);
  }

  lemma WireAccount(s: State)
    requires FlowsInv(s)
    ensures var whole, part := Bytes(s.calls, s.line.log), Partial(s.line.mu, s.calls, s.loop);
            && (s.line.torn == 0 ==> s.line.wire == whole + part)
            && |s.line.wire| == |whole| + |part| + s.line.torn
  {
  }

  /** While no failed write has left a byte behind - writes may have failed - a reader at the
      far end is delivered exactly the messages of the completed writes, whole and in wire
      order, and then finds the end of the stream; the frame in progress adds its message just
      when its last byte has arrived. */
  lemma WireDelivers(steps: seq<Step>, s: State, msgs: map<Call, Message>, maxPacketSize: int)
    requires Run(steps) == Some(s) && Carries(steps, msgs)
    requires s.line.torn == 0 && (maxPacketSize <= 0 || maxPacketSize >= 2090)
    ensures forall e :: e in s.line.log ==> e.call in msgs
    ensures var ms := LoggedMessages(s.line.log, msgs);
            var d := ReadAll(s.line.wire, maxPacketSize);
            && AllEncodable(ms)
            && d.error == EndOfStream
            && (InProgress(s).None? ==> d.messages == NormalForms(ms) && d.rest == [])
            && (InProgress(s).Some? ==>
                  var (c, done) := InProgress(s).value;
                  && c in msgs && Encodable(msgs[c])
                  && d.messages == NormalForms(ms) + (if done == |Frame(msgs[c])| then [Normalised(msgs[c])] else []))
  {
    WireHolds(steps, s, msgs);
    ReadStream(LoggedMessages(s.line.log, msgs), Unfinished(s, msgs), maxPacketSize);
    if InProgress(s).Some? {
      var (c, done) := InProgress(s).value;
      ReadPrefix(msgs[c], done, maxPacketSize);
    }
  }

  /** The bytes a step leaves on the wire by failing a write that has begun. */
  function LeftBehind(s: State, step: Step): nat {
    match step
    case Send(c, act) =>
      if act.Fail? && c in s.calls && s.calls[c].pc.Writing? then s.calls[c].pc.done else 0
    case Write(act) => if act.Fail? && s.loop.LoopWriting? then s.loop.done else 0
    case _ => 0
  }

  /** Every write that failed in the run had put no byte on the wire. */
  ghost predicate FailsClean(steps: seq<Step>) {
    steps == [] ||
    (var last := |steps| - 1;
     FailsClean(steps[..last]) &&
     (Run(steps[..last]).Some? ==> LeftBehind(Run(steps[..last]).value, steps[last]) == 0))
  }

  lemma TornStep(s: State, step: Step)
    requires Enabled(s, step)
    ensures Apply(s, step).line.torn == s.line.torn + LeftBehind(s, step)
  {
  }

  /** Nothing has been torn exactly if every failing write failed before its first byte. */
  lemma {:induction false} NothingTorn(steps: seq<Step>)
    requires Run(steps).Some?
    ensures Run(steps).value.line.torn == 0 <==> FailsClean(steps)
  {
    hide Enabled, Apply, LeftBehind;
    if steps != [] {
      NothingTorn(steps[..|steps| - 1]);
      TornStep(Run(steps[..|steps| - 1]).value, steps[|steps| - 1]);
    }
  }

  lemma ReadPrefix(m: Message, k: nat, maxPacketSize: int)
    requires Encodable(m) && (maxPacketSize <= 0 || maxPacketSize >= 2090) && k <= |Frame(m)|
    ensures var d := ReadAll(Frame(m)[..k], maxPacketSize);
            && d.error == EndOfStream
            && d.messages == if k == |Frame(m)| then [Normalised(m)] else []
  {
    if k < |Frame(m)| {
      ReadPartial(m, k, maxPacketSize);
    } else {
      assert Frame(m)[..k] == Frame(m) + [];
      ReadAllFrame(m, [], Frame(m)[..k], maxPacketSize);
    }
  }
}
