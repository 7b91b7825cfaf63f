/** Runs in which an overflow write tears its frame and the connection goes on: what is
    written whole afterwards does not reach the far end. */
module SendCloseRuns {
  import opened Types
  import opened Wire
  import opened Codec
  import opened CodecTheorems
  import opened Framing
  import opened TornFrames
  import opened SendClose
  import opened SendCloseTheorems

  predicate Moves(s: State, step: Step, s': State) { Enabled(s, step) && Apply(s, step) == s' }

  /** A run to s in which calls 0 to 100 may have been made, each with frame f. */
  ghost predicate Reaches(steps: seq<Step>, f: Octets, s: State) {
    && Run(steps) == Some(s)
    && forall i :: 0 <= i < |steps| && steps[i].Invoke? ==> steps[i].call <= 100 && steps[i].frame == Some(f)
  }

  lemma Reach(steps: seq<Step>, f: Octets, s: State, step: Step, s': State)
    requires Reaches(steps, f, s) && Moves(s, step, s')
    requires step.Invoke? ==> step.call <= 100 && step.frame == Some(f)
    ensures Reaches(steps + [step], f, s')
  {
    hide Enabled, Apply;
    assert (steps + [step])[..|steps|] == steps;
  }

  /** The state s with call c at pc. */
  function With(s: State, c: Call, f: Octets, pc: SendPc): State {
    s.(calls := s.calls[c := CallState(Some(f), pc)])
  }

  function Reading(s: State, c: Call): State { s.(readers := s.readers + {c}) }

  /** An open connection on which nobody is sending. */
  predicate Calm(s: State) {
    && !s.panicked && s.gate.connected && s.gate.closes == 0 && s.gate.writer.None?
    && s.readers == {} && s.line.mu.None?
  }

  lemma Opening(s: State, c: Call, f: Octets)
    requires Calm(s) && c !in s.calls && f != []
    ensures Moves(s, Invoke(c, Some(f)), With(s, c, f, FirstCheck))
    ensures Moves(With(s, c, f, FirstCheck), Step.Send(c, Go), With(s, c, f, Encoding))
    ensures Moves(With(s, c, f, Encoding), Step.Send(c, Go), With(s, c, f, Locking))
    ensures Moves(With(s, c, f, Locking), Step.Send(c, Go), Reading(With(s, c, f, SecondCheck), c))
    ensures Moves(Reading(With(s, c, f, SecondCheck), c), Step.Send(c, Go), Reading(With(s, c, f, Offering), c))
  {
    hide CloseStep, WriteStep, CloseEnabled, WriteEnabled;
  }

  lemma Offers(s: State, c: Call, f: Octets, steps: seq<Step>) returns (steps': seq<Step>)
    requires Calm(s) && c !in s.calls && f != [] && c <= 100 && Reaches(steps, f, s)
    ensures Reaches(steps', f, Reading(With(s, c, f, Offering), c))
  {
    Opening(s, c, f);
    hide Reaches, Moves, Calm;
    Reach(steps, f, s, Invoke(c, Some(f)), With(s, c, f, FirstCheck));
    var a := steps + [Invoke(c, Some(f))];
    Reach(a, f, With(s, c, f, FirstCheck), Step.Send(c, Go), With(s, c, f, Encoding));
    Reach(a + [Step.Send(c, Go)], f, With(s, c, f, Encoding), Step.Send(c, Go), With(s, c, f, Locking));
    var b := a + [Step.Send(c, Go)] + [Step.Send(c, Go)];
    Reach(b, f, With(s, c, f, Locking), Step.Send(c, Go), Reading(With(s, c, f, SecondCheck), c));
    Reach(b + [Step.Send(c, Go)], f, Reading(With(s, c, f, SecondCheck), c), Step.Send(c, Go),
          Reading(With(s, c, f, Offering), c));
    steps' := b + [Step.Send(c, Go)] + [Step.Send(c, Go)];
  }

  /** The state s with the frame of c on the channel. */
  function Piped(s: State, c: Call): State { s.(pipe := Pipe(s.pipe.queue + [c], s.pipe.sent + [c])) }

  lemma Queueing(s: State, c: Call, f: Octets)
    requires Calm(s) && c !in s.calls && |s.pipe.queue| < CAPACITY
    ensures var t := Piped(s, c);
            && Moves(Reading(With(s, c, f, Offering), c), Step.Send(c, Go),
                     Reading(With(t, c, f, Unlocking(ToQueued)), c))
            && Moves(Reading(With(t, c, f, Unlocking(ToQueued)), c), Step.Send(c, Go),
                     With(t, c, f, Returned(Queued)))
  {
    hide CloseStep, WriteStep, CloseEnabled, WriteEnabled;
    assert {} + {c} - {c} == {};
  }

  lemma QueueNext(s: State, c: Call, f: Octets, steps: seq<Step>) returns (steps': seq<Step>)
    requires Calm(s) && c !in s.calls && |s.pipe.queue| < CAPACITY && f != [] && c <= 100 && Reaches(steps, f, s)
    ensures Reaches(steps', f, With(Piped(s, c), c, f, Returned(Queued)))
  {
    var offered := Offers(s, c, f, steps);
    Queueing(s, c, f);
    hide Reaches, Moves, Calm;
    var t := Piped(s, c);
    Reach(offered, f, Reading(With(s, c, f, Offering), c), Step.Send(c, Go),
          Reading(With(t, c, f, Unlocking(ToQueued)), c));
    Reach(offered + [Step.Send(c, Go)], f, Reading(With(t, c, f, Unlocking(ToQueued)), c), Step.Send(c, Go),
          With(t, c, f, Returned(Queued)));
    steps' := offered + [Step.Send(c, Go)] + [Step.Send(c, Go)];
  }

  /** Calls 0 to n - 1 have returned, their frames f are queued, and nothing is written. */
  ghost predicate Holding(s: State, f: Octets, n: nat) {
    && Calm(s) && |s.pipe.queue| == n && (n > 0 ==> s.pipe.queue[0] == 0)
    && s.loop == Selecting && s.line == Line(None, [], [], false, 0)
    && (forall c: Call :: c < n <==> c in s.calls)
    && (forall c: Call :: c in s.calls ==> s.calls[c].frame == Some(f))
  }

  lemma HoldsOneMore(s: State, f: Octets, n: nat)
    requires Holding(s, f, n) && n < 100
    ensures Holding(With(Piped(s, n), n, f, Returned(Queued)), f, n + 1)
  {
    var t := With(Piped(s, n), n, f, Returned(Queued));
    forall c: Call
      ensures c < n + 1 <==> c in t.calls
    {
      assert c in t.calls <==> c == n || c in s.calls;
    }
  }

  lemma {:induction false} Queues(f: Octets, n: nat) returns (steps: seq<Step>, s: State)
    requires n <= 100 && f != []
    ensures Reaches(steps, f, s) && Holding(s, f, n)
  {
    if n == 0 {
      steps, s := [], Init();
    } else {
      var before, t := Queues(f, n - 1);
      assert n - 1 !in t.calls;
      steps := QueueNext(t, n - 1, f, before);
      HoldsOneMore(t, f, n - 1);
      s := With(Piped(t, n - 1), n - 1, f, Returned(Queued));
    }
  }

  // ---------------------------------------------------------------- the torn write

  function Wired(s: State, line: Line): State { s.(line := line) }

  lemma Overflowing(s: State, c: Call, f: Octets)
    requires Calm(s) && c !in s.calls && |s.pipe.queue| >= CAPACITY
    ensures Moves(Reading(With(s, c, f, Offering), c), Step.Send(c, Go),
                  Reading(With(s, c, f, Unlocking(ToOverflow)), c))
    ensures Moves(Reading(With(s, c, f, Unlocking(ToOverflow)), c), Step.Send(c, Go), With(s, c, f, WaitingMu))
    ensures Moves(With(s, c, f, WaitingMu), Step.Send(c, Go),
                  Wired(With(s, c, f, Writing(0)), s.line.(mu := Some(CallHolds(c)))))
  {
    hide CloseStep, WriteStep, CloseEnabled, WriteEnabled;
    assert {} + {c} - {c} == {};
  }

  lemma Tearing(s: State, c: Call, f: Octets, k: nat)
    requires Calm(s) && c !in s.calls && 0 < k <= |f| && s.line == Line(None, [], [], false, 0)
    ensures var held := Some(CallHolds(c));
            && Moves(Wired(With(s, c, f, Writing(0)), Line(held, [], [], false, 0)), Step.Send(c, Chunk(k)),
                     Wired(With(s, c, f, Writing(k)), Line(held, f[..k], [], false, 0)))
            && Moves(Wired(With(s, c, f, Writing(k)), Line(held, f[..k], [], false, 0)), Step.Send(c, Fail),
                     Wired(With(s, c, f, Releasing(false)), Line(held, f[..k], [], true, k)))
            && Moves(Wired(With(s, c, f, Releasing(false)), Line(held, f[..k], [], true, k)), Step.Send(c, Go),
                     Wired(With(s, c, f, Returned(WriteFailed)), Line(None, f[..k], [], true, k)))
  {
    hide CloseStep, WriteStep, CloseEnabled, WriteEnabled;
    assert [] + f[0..k] == f[..k];
  }

  lemma Overflows(s: State, c: Call, f: Octets, steps: seq<Step>) returns (steps': seq<Step>)
    requires Calm(s) && c !in s.calls && f != [] && c <= 100 && Reaches(steps, f, s)
    requires |s.pipe.queue| >= CAPACITY
    ensures Reaches(steps', f, Wired(With(s, c, f, Writing(0)), s.line.(mu := Some(CallHolds(c)))))
  {
    var a := Offers(s, c, f, steps);
    Overflowing(s, c, f);
    hide Reaches, Moves, Calm;
    Reach(a, f, Reading(With(s, c, f, Offering), c), Step.Send(c, Go),
          Reading(With(s, c, f, Unlocking(ToOverflow)), c));
    Reach(a + [Step.Send(c, Go)], f, Reading(With(s, c, f, Unlocking(ToOverflow)), c), Step.Send(c, Go),
          With(s, c, f, WaitingMu));
    var b := a + [Step.Send(c, Go)] + [Step.Send(c, Go)];
    Reach(b, f, With(s, c, f, WaitingMu), Step.Send(c, Go),
          Wired(With(s, c, f, Writing(0)), s.line.(mu := Some(CallHolds(c)))));
    steps' := b + [Step.Send(c, Go)];
  }

  lemma Tears(s: State, c: Call, f: Octets, k: nat, steps: seq<Step>) returns (steps': seq<Step>)
    requires Calm(s) && c !in s.calls && 0 < k <= |f| && c <= 100 && Reaches(steps, f, s)
    requires |s.pipe.queue| >= CAPACITY && s.line == Line(None, [], [], false, 0)
    ensures Reaches(steps', f, Wired(With(s, c, f, Returned(WriteFailed)), Line(None, f[..k], [], true, k)))
  {
    var a := Overflows(s, c, f, steps);
    Tearing(s, c, f, k);
    hide Reaches, Moves, Calm;
    var held := Some(CallHolds(c));
    Reach(a, f, Wired(With(s, c, f, Writing(0)), Line(held, [], [], false, 0)), Step.Send(c, Chunk(k)),
          Wired(With(s, c, f, Writing(k)), Line(held, f[..k], [], false, 0)));
    Reach(a + [Step.Send(c, Chunk(k))], f, Wired(With(s, c, f, Writing(k)), Line(held, f[..k], [], false, 0)),
          Step.Send(c, Fail), Wired(With(s, c, f, Releasing(false)), Line(held, f[..k], [], true, k)));
    var b := a + [Step.Send(c, Chunk(k))] + [Step.Send(c, Fail)];
    Reach(b, f, Wired(With(s, c, f, Releasing(false)), Line(held, f[..k], [], true, k)), Step.Send(c, Go),
          Wired(With(s, c, f, Returned(WriteFailed)), Line(None, f[..k], [], true, k)));
    steps' := b + [Step.Send(c, Go)];
  }

  // ---------------------------------------------------------------- the write after it

  /** The loop has taken call 0 off the channel. */
  function Looping(s: State, loop: LoopPc, line: Line): State
    requires s.pipe.queue != []
  {
    s.(loop := loop, line := line, pipe := s.pipe.(queue := s.pipe.queue[1..]))
  }

  lemma LoopWrites(s: State, f: Octets, w: Octets, k: nat)
    requires !s.panicked && s.loop == Selecting && s.pipe.queue != [] && s.pipe.queue[0] == 0
    requires f != [] && 0 in s.calls && s.calls[0].frame == Some(f) && s.line == Line(None, w, [], true, k)
    ensures var held := Some(LoopHolds);
            && Moves(s, Receive, Looping(s, Taken(0), s.line))
            && Moves(Looping(s, Taken(0), s.line), Write(Go),
                     Looping(s, LoopWriting(0, 0), Line(held, w, [], true, k)))
            && Moves(Looping(s, LoopWriting(0, 0), Line(held, w, [], true, k)), Write(Chunk(|f|)),
                     Looping(s, LoopWriting(0, |f|), Line(held, w + f, [], true, k)))
            && Moves(Looping(s, LoopWriting(0, |f|), Line(held, w + f, [], true, k)), Write(Complete),
                     Looping(s, LoopReleasing(0, true), Line(held, w + f, [Entry(0, true)], true, k)))
  {
    hide CloseStep, SendStep, CloseEnabled, SendEnabled;
    assert f[0..0 + |f|] == f;
    assert [] + [Entry(0, true)] == [Entry(0, true)];
  }

  lemma WritesNext(s: State, f: Octets, w: Octets, k: nat, steps: seq<Step>) returns (steps': seq<Step>)
    requires !s.panicked && s.loop == Selecting && s.pipe.queue != [] && s.pipe.queue[0] == 0
    requires f != [] && 0 in s.calls && s.calls[0].frame == Some(f) && s.line == Line(None, w, [], true, k)
    requires Reaches(steps, f, s)
    ensures Reaches(steps', f,
                    Looping(s, LoopReleasing(0, true), Line(Some(LoopHolds), w + f, [Entry(0, true)], true, k)))
  {
    LoopWrites(s, f, w, k);
    hide Reaches, Moves;
    var held := Some(LoopHolds);
    Reach(steps, f, s, Receive, Looping(s, Taken(0), s.line));
    Reach(steps + [Receive], f, Looping(s, Taken(0), s.line), Write(Go),
          Looping(s, LoopWriting(0, 0), Line(held, w, [], true, k)));
    var a := steps + [Receive] + [Write(Go)];
    Reach(a, f, Looping(s, LoopWriting(0, 0), Line(held, w, [], true, k)), Write(Chunk(|f|)),
          Looping(s, LoopWriting(0, |f|), Line(held, w + f, [], true, k)));
    Reach(a + [Write(Chunk(|f|))], f, Looping(s, LoopWriting(0, |f|), Line(held, w + f, [], true, k)),
          Write(Complete), Looping(s, LoopReleasing(0, true), Line(held, w + f, [Entry(0, true)], true, k)));
    steps' := a + [Write(Chunk(|f|))] + [Write(Complete)];
  }

  /** For every message and every place at which its frame can tear: the channel is full, an
      overflow write fails after k bytes, the connection stays connected, the loop then writes
      a queued frame whole - and the far end is delivered nothing and stops with an error. */
  lemma TornFrameLosesLater(m: Message, k: nat, maxPacketSize: int)
    returns (steps: seq<Step>, s: State, msgs: map<Call, Message>)
    requires Encodable(m) && 0 < k < |Frame(m)| - 1 && (maxPacketSize <= 0 || maxPacketSize >= 2090)
    ensures Run(steps) == Some(s) && Carries(steps, msgs)
    ensures s.gate.connected && 100 in s.calls && s.calls[100].pc == Returned(WriteFailed)
    ensures s.line.torn == k && s.line.log == [Entry(0, true)] && 0 in msgs && msgs[0] == m
    ensures var d := ReadAll(s.line.wire, maxPacketSize);
            d.messages == [] && d.error.Malformed?
  {
    var f := Frame(m);
    FrameForIs(m);
    var filled, full := Queues(f, 100);
    var torn := Tears(full, 100, f, k, filled);
    var t := Wired(With(full, 100, f, Returned(WriteFailed)), Line(None, f[..k], [], true, k));
    steps := WritesNext(t, f, f[..k], k, torn);
    s := Looping(t, LoopReleasing(0, true), Line(Some(LoopHolds), f[..k] + f, [Entry(0, true)], true, k));
    msgs := Everyone(101, m);
    EveryoneSends(101, m);
    FrameOpens(m);
    assert f[..k] + f == f[..k] + [FLAG] + f[1..];
    TornStops(m, k, f[1..], maxPacketSize);
  }

  /** Calls 0 to n - 1 all send m. */
  function Everyone(n: nat, m: Message): map<Call, Message> {
    if n == 0 then map[] else Everyone(n - 1, m)[n - 1 := m]
  }

  lemma {:induction false} EveryoneSends(n: nat, m: Message)
    ensures forall c: Call :: c < n ==> c in Everyone(n, m) && Everyone(n, m)[c] == m
  {
    if n > 0 {
      EveryoneSends(n - 1, m);
    }
  }

  lemma FrameOpens(m: Message)
    requires Encodable(m)
    ensures |Frame(m)| >= 2 && Frame(m) == [FLAG] + Frame(m)[1..]
  {
    EncodeIsFrame(m);
  }
}
