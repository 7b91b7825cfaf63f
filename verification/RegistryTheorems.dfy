/** The registry entry of a device is its latest owner's, the connection counter is exact,
    and cleanup leaves nothing behind, in every run of the server. */
module RegistryTheorems {
  import opened Types
  import opened Registry

  // ---------------------------------------------------------------- ownership

  /** Connection c stored k, nobody has stored k since, and c has not removed it since. */
  ghost predicate Owns(history: seq<Event>, k: Device, c: ConnId) {
    exists i :: 0 <= i < |history| && OwnsSince(history, k, c, i)
  }

  ghost predicate OwnsSince(history: seq<Event>, k: Device, c: ConnId, i: nat)
    requires i < |history|
  {
    && history[i] == Stored(c, k)
    && forall j :: i < j < |history| ==>
         history[j] != Removed(c, k) && !(history[j].Stored? && history[j].device == k)
  }

  lemma OwnsAfter(history: seq<Event>, e: Event, k: Device, c: ConnId)
    ensures Owns(history + [e], k, c) <==>
            e == Stored(c, k)
            || (Owns(history, k, c) && e != Removed(c, k) && !(e.Stored? && e.device == k))
  {
    var h, n := history + [e], |history|;
    if e == Stored(c, k) {
      assert OwnsSince(h, k, c, n);
    }
    if Owns(history, k, c) && e != Removed(c, k) && !(e.Stored? && e.device == k) {
      var i :| 0 <= i < n && OwnsSince(history, k, c, i);
      assert OwnsSince(h, k, c, i);
    }
    if Owns(h, k, c) && e != Stored(c, k) {
      var i :| 0 <= i < |h| && OwnsSince(h, k, c, i);
      assert h[i] != e;
      assert i < n && h[n] == e;
      assert OwnsSince(history, k, c, i) by {
        assert forall j :: i < j < n ==> history[j] == h[j];
      }
    }
  }

  ghost predicate RegistryInv(registry: map<Device, ConnId>, history: seq<Event>) {
    forall k, c :: (k in registry && registry[k] == c) <==> Owns(history, k, c)
  }

  lemma RegistryStep(registry: map<Device, ConnId>, history: seq<Event>, e: Option<Event>)
    requires RegistryInv(registry, history)
    ensures RegistryInv(Operate(registry, e), Record(history, e))
  {
    if e.Some? {
      var registry', h := Operate(registry, e), Record(history, e);
      forall k, c
        ensures (k in registry' && registry'[k] == c) <==> Owns(h, k, c)
      {
        OwnsAfter(history, e.value, k, c);
      }
    }
  }

  // ---------------------------------------------------------------- entries

  /** The device ids under which a connection may still be registered. */
  predicate MayHold(k: Conn, device: Device) {
    match k.rename
    case Idle => device == k.deviceId && !k.phase.Closing? && k.phase != Done(true)
    case Swapped(previous) => device == previous
    case Dropped(previous) => device == previous && previous == k.deviceId
  }

  ghost predicate EntriesInv(conns: map<ConnId, Conn>, registry: map<Device, ConnId>) {
    && "" !in registry
    && forall d :: d in registry ==> registry[d] in conns && MayHold(conns[registry[d]], d)
  }

  /** What is known of each connection by itself. */
  predicate ConnInv(h: Hooks, k: Conn) {
    && (k.rename.Idle? || InUserCode(h, k.phase))
    && (k.phase.Hook? ==> k.phase.i <= h.connect)
    && (k.phase.Leaving? ==> k.phase.j <= h.disconnect)
    && k.hooksRun == (match k.phase
                      case Leaving(j) => UpTo(j)
                      case Removing => UpTo(h.disconnect)
                      case Closing => UpTo(h.disconnect)
                      case Done(accepted) => if accepted then UpTo(h.disconnect) else []
                      case _ => [])
    && k.decrements == (if k.phase.Done? then 1 else 0)
    && (k.phase.Accepted? || k.phase.Counted? ==> k.deviceId == "")
    && (k.phase.Hook? || k.phase.Rejected? || k.phase == Done(false) ==> !k.namedByHook ==> k.deviceId == "")
  }

  function UpTo(n: nat): seq<nat> { seq(n, i => i) }

  ghost predicate ConnsInv(h: Hooks, conns: map<ConnId, Conn>) {
    forall c :: c in conns ==> ConnInv(h, conns[c])
  }

  lemma ConnStep(h: Hooks, s: State, step: Step)
    requires Enabled(h, s, step)
    requires !step.Accept? ==> ConnInv(h, Before(s, step))
    ensures ConnInv(h, NextConn(Before(s, step), step))
  {
    var k := Before(s, step);
    if step.RunHook? {
      assert UpTo(k.phase.j) + [k.phase.j] == UpTo(k.phase.j + 1);
    }
  }

  lemma EntriesStep(h: Hooks, s: State, step: Step)
    requires EntriesInv(s.conns, s.registry) && Enabled(h, s, step)
    requires !step.Accept? ==> ConnInv(h, Before(s, step))
    ensures EntriesInv(Apply(s, step).conns, Apply(s, step).registry)
  {
    var c, k := step.conn, Before(s, step);
    var s' := Apply(s, step);
    forall d | d in s'.registry
      ensures d != "" && s'.registry[d] in s'.conns && MayHold(s'.conns[s'.registry[d]], d)
    {
      if s'.registry[d] == c && !step.Store? {
        assert d in s.registry && s.registry[d] == c;
        OwnEntry(h, s, step, d);
      }
    }
  }

  /** A connection's own entry survives its step only where it may hold it afterwards. */
  lemma OwnEntry(h: Hooks, s: State, step: Step, d: Device)
    requires Enabled(h, s, step) && !step.Store? && !step.Accept?
    requires ConnInv(h, Before(s, step)) && MayHold(Before(s, step), d) && d != ""
    requires d in s.registry && s.registry[d] == step.conn
    ensures d in Operate(s.registry, EventOf(Before(s, step), step)) ==> MayHold(NextConn(Before(s, step), step), d)
  {
  }

  /** c stored k and has not removed it since, whoever else may have stored it. */
  ghost predicate Kept(history: seq<Event>, k: Device, c: ConnId) {
    exists i :: 0 <= i < |history| && KeptSince(history, k, c, i)
  }

  ghost predicate KeptSince(history: seq<Event>, k: Device, c: ConnId, i: nat)
    requires i < |history|
  {
    history[i] == Stored(c, k) && forall j :: i < j < |history| ==> history[j] != Removed(c, k)
  }

  /** A connection that carries an id, is not mid-rename and has not cleaned up has stored its
      id and not removed it since. */
  ghost predicate KeptInv(conns: map<ConnId, Conn>, history: seq<Event>) {
    forall c :: c in conns && Carries(conns[c]) ==> Kept(history, conns[c].deviceId, c)
  }

  predicate Carries(k: Conn) {
    k.rename.Idle? && k.deviceId != "" && !k.phase.Closing? && k.phase != Done(true)
  }

  lemma KeptAfter(history: seq<Event>, e: Event, k: Device, c: ConnId)
    requires e == Stored(c, k) || (Kept(history, k, c) && e != Removed(c, k))
    ensures Kept(history + [e], k, c)
  {
    var h := history + [e];
    if e == Stored(c, k) {
      assert KeptSince(h, k, c, |history|);
    } else {
      var i :| 0 <= i < |history| && KeptSince(history, k, c, i);
      assert KeptSince(h, k, c, i);
    }
  }

  /** What a step leaves a connection carrying, it carried before or has just stored. */
  lemma CarriesAfter(h: Hooks, s: State, step: Step)
    requires Enabled(h, s, step)
    requires Carries(NextConn(Before(s, step), step))
    ensures var k, k' := Before(s, step), NextConn(Before(s, step), step);
            var e := EventOf(k, step);
            || e == Some(Stored(step.conn, k'.deviceId))
            || (step.conn in s.conns && Carries(k) && k.deviceId == k'.deviceId && e == None)
  {
  }

  lemma KeptStep(h: Hooks, s: State, step: Step)
    requires KeptInv(s.conns, s.history) && Enabled(h, s, step)
    ensures KeptInv(Apply(s, step).conns, Apply(s, step).history)
  {
    var e := EventOf(Before(s, step), step);
    var s' := Apply(s, step);
    assert e.Some? ==> e.value.conn == step.conn;
    forall c | c in s'.conns && Carries(s'.conns[c])
      ensures Kept(s'.history, s'.conns[c].deviceId, c)
    {
      if c == step.conn {
        CarriesAfter(h, s, step);
      }
      if e.Some? {
        KeptAfter(s.history, e.value, s'.conns[c].deviceId, c);
      }
    }
  }

  // ---------------------------------------------------------------- counters

  predicate Counts(p: Phase) { !p.Accepted? && !p.Done? }

  /** Connections counted in and not yet finished, all counted in, and all finished. */
  ghost function InFlight(conns: map<ConnId, Conn>): set<ConnId> {
    set c | c in conns && Counts(conns[c].phase)
  }

  ghost function CountedIn(conns: map<ConnId, Conn>): set<ConnId> {
    set c | c in conns && !conns[c].phase.Accepted?
  }

  ghost function Finished(conns: map<ConnId, Conn>): set<ConnId> {
    set c | c in conns && conns[c].phase.Done?
  }

  ghost function Totalled(conns: map<ConnId, Conn>): set<ConnId> {
    set c | c in conns && !conns[c].phase.Accepted? && !conns[c].phase.Counted?
  }

  ghost predicate CountersInv(s: State) {
    s.active == |InFlight(s.conns)| && s.total == |Totalled(s.conns)|
  }

  lemma SetStep(a: set<ConnId>, b: set<ConnId>, c: ConnId, inside: bool)
    requires b == if inside then a + {c} else a - {c}
    ensures |b| == |a| + (if inside then 1 else 0) - (if c in a then 1 else 0)
  {
    if inside {
      assert c !in a ==> |a + {c}| == |a| + 1;
      assert c in a ==> a + {c} == a;
    } else {
      assert c !in a ==> a - {c} == a;
    }
  }

  lemma PhaseDelta(h: Hooks, s: State, step: Step)
    requires Enabled(h, s, step)
    ensures var p, p' := Before(s, step).phase, NextConn(Before(s, step), step).phase;
            && (if Counts(p') then 1 else 0) - (if Counts(p) then 1 else 0) == Delta(step)
            && (if p'.Accepted? || p'.Counted? then 0 else 1) - (if p.Accepted? || p.Counted? then 0 else 1)
                 == (if step.CountTotal? then 1 else 0)
            && (step.conn !in s.conns ==> p.Accepted?)
  {
  }

  lemma CountersStep(h: Hooks, s: State, step: Step)
    requires CountersInv(s) && Enabled(h, s, step)
    ensures CountersInv(Apply(s, step))
  {
    PhaseDelta(h, s, step);
    var c, k' := step.conn, NextConn(Before(s, step), step);
    var conns' := s.conns[c := k'];
    hide Enabled, NextConn, EventOf, Operate, Record;
    SetsStep(s.conns, c, k');
    assert c in InFlight(s.conns) <==> Counts(Before(s, step).phase);
    assert c in Totalled(s.conns) <==> !(Before(s, step).phase.Accepted? || Before(s, step).phase.Counted?);
    hide InFlight, Totalled, Counts;
    assert Apply(s, step).conns == conns' && Apply(s, step).active == s.active + Delta(step);
  }

  lemma SetsStep(conns: map<ConnId, Conn>, c: ConnId, k': Conn)
    ensures var n := if Counts(k'.phase) then 1 else 0;
            |InFlight(conns[c := k'])| == |InFlight(conns)| + n - (if c in InFlight(conns) then 1 else 0)
    ensures var n := if k'.phase.Accepted? || k'.phase.Counted? then 0 else 1;
            |Totalled(conns[c := k'])| == |Totalled(conns)| + n - (if c in Totalled(conns) then 1 else 0)
  {
    InFlightStep(conns, c, k');
    TotalledStep(conns, c, k');
    hide InFlight, Totalled;
    SetStep(InFlight(conns), InFlight(conns[c := k']), c, Counts(k'.phase));
    SetStep(Totalled(conns), Totalled(conns[c := k']), c, !k'.phase.Accepted? && !k'.phase.Counted?);
  }

  lemma InFlightStep(conns: map<ConnId, Conn>, c: ConnId, k': Conn)
    ensures InFlight(conns[c := k']) == if Counts(k'.phase) then InFlight(conns) + {c} else InFlight(conns) - {c}
  {
  }

  lemma TotalledStep(conns: map<ConnId, Conn>, c: ConnId, k': Conn)
    ensures Totalled(conns[c := k'])
         == if !k'.phase.Accepted? && !k'.phase.Counted? then Totalled(conns) + {c} else Totalled(conns) - {c}
  {
  }

  // ---------------------------------------------------------------- every run

  ghost predicate Inv(h: Hooks, s: State) {
    && RegistryInv(s.registry, s.history)
    && EntriesInv(s.conns, s.registry)
    && ConnsInv(h, s.conns)
    && KeptInv(s.conns, s.history)
    && CountersInv(s)
  }

  lemma {:induction false} RunInv(h: Hooks, steps: seq<Step>)
    ensures Run(h, steps).Some? ==> Inv(h, Run(h, steps).value)
  {
    if steps == [] {
      assert forall k, c :: !Owns([], k, c);
    } else {
      RunInv(h, steps[..|steps| - 1]);
      if Run(h, steps).Some? {
        InvStep(h, Run(h, steps[..|steps| - 1]).value, steps[|steps| - 1]);
      }
    }
  }

  lemma InvStep(h: Hooks, s: State, step: Step)
    requires Inv(h, s) && Enabled(h, s, step)
    ensures Inv(h, Apply(s, step))
  {
    assert !step.Accept? ==> ConnInv(h, Before(s, step));
    ConnStep(h, s, step);
    EntriesStep(h, s, step);
    KeptStep(h, s, step);
    CountersStep(h, s, step);
    hide ConnInv, EntriesInv, KeptInv, CountersInv, RegistryInv, Enabled, NextConn, EventOf, Operate, Record;
    RegistryStep(s.registry, s.history, EventOf(Before(s, step), step));
  }

  /** The entry for a device is the connection that most recently stored it, unless that same
      connection has since removed it. */
  lemma EntryIsLatestOwner(h: Hooks, steps: seq<Step>, s: State, k: Device, c: ConnId)
    requires Run(h, steps) == Some(s)
    ensures (k in s.registry && s.registry[k] == c) <==> Owns(s.history, k, c)
  {
    RunInv(h, steps);
  }

  /** An entry whose connection is not inside SetDeviceID is under its own device id; one
      inside SetDeviceID can only still be under the previous id. No one is under two. */
  lemma EntryNamesConnection(h: Hooks, steps: seq<Step>, s: State, k: Device)
    requires Run(h, steps) == Some(s) && k in s.registry
    ensures k != "" && s.registry[k] in s.conns
    ensures var conn := s.conns[s.registry[k]];
            k == if conn.rename.Idle? then conn.deviceId else conn.rename.previous
    ensures forall k' :: k' in s.registry && s.registry[k'] == s.registry[k] ==> k' == k
  {
    RunInv(h, steps);
  }

  /** Only the store of a new id ever displaces another connection's entry: cleanup and the
      delete inside SetDeviceID leave every entry of every other connection in place. */
  lemma StepSparesOthers(h: Hooks, s: State, step: Step, k: Device, c: ConnId)
    requires Enabled(h, s, step) && k in s.registry && s.registry[k] == c
    ensures var s' := Apply(s, step);
            && s.history <= s'.history
            && ((k in s'.registry && s'.registry[k] == c) || Displaced(s'.history[|s.history|..], k, c))
  {
    var e := EventOf(Before(s, step), step);
    if e.Some? {
      assert (s.history + [e.value])[|s.history|..] == [e.value];
      assert [e.value][0] == e.value;
    }
  }

  /** Some connection has stored k, or c has removed its own entry for k. */
  predicate Displaced(events: seq<Event>, k: Device, c: ConnId) {
    exists i :: 0 <= i < |events| && ((events[i].Stored? && events[i].device == k) || events[i] == Removed(c, k))
  }

  lemma DisplacedLater(events: seq<Event>, more: seq<Event>, k: Device, c: ConnId)
    requires Displaced(events, k, c) || Displaced(more, k, c)
    ensures Displaced(events + more, k, c)
  {
    if Displaced(events, k, c) {
      var i :| 0 <= i < |events| && ((events[i].Stored? && events[i].device == k) || events[i] == Removed(c, k));
      assert (events + more)[i] == events[i];
    } else {
      var i :| 0 <= i < |more| && ((more[i].Stored? && more[i].device == k) || more[i] == Removed(c, k));
      assert (events + more)[|events| + i] == more[i];
    }
  }

  /** Once c has the entry for k it keeps it, whatever other connections do - stale ones
      cleaning up under the same id included - until somebody stores k or c removes it. */
  lemma {:induction false} CleanupSparesOthers(h: Hooks, steps: seq<Step>, more: seq<Step>, s: State, s': State,
                                               k: Device, c: ConnId)
    requires Run(h, steps) == Some(s) && Run(h, steps + more) == Some(s')
    requires k in s.registry && s.registry[k] == c
    ensures s.history <= s'.history
    ensures (k in s'.registry && s'.registry[k] == c) || Displaced(s'.history[|s.history|..], k, c)
    decreases |more|
  {
    if more == [] {
      assert steps + more == steps;
    } else {
      var last := |more| - 1;
      assert (steps + more)[..|steps| + last] == steps + more[..last];
      hide Enabled, Apply, Displaced;
      var t := Run(h, steps + more[..last]).value;
      CleanupSparesOthers(h, steps, more[..last], s, t, k, c);
      HistoryGrows(h, t, more[last]);
      var old', new' := t.history[|s.history|..], s'.history[|t.history|..];
      assert s'.history[|s.history|..] == old' + new';
      if k in t.registry && t.registry[k] == c {
        StepSparesOthers(h, t, more[last], k, c);
      }
      if Displaced(old', k, c) || Displaced(new', k, c) {
        DisplacedLater(old', new', k, c);
      }
    }
  }

  lemma HistoryGrows(h: Hooks, s: State, step: Step)
    requires Enabled(h, s, step)
    ensures s.history <= Apply(s, step).history
  {
  }

  /** ActiveConnections is exactly the connections counted in minus those finished, so it is
      never negative, and each connection has decremented it once just when it is done. */
  lemma ActiveIsExact(h: Hooks, steps: seq<Step>, s: State)
    requires Run(h, steps) == Some(s)
    ensures s.active == |CountedIn(s.conns)| - |Finished(s.conns)| && s.active >= 0
    ensures s.total == |Totalled(s.conns)|
    ensures forall c :: c in s.conns ==> s.conns[c].decrements == if s.conns[c].phase.Done? then 1 else 0
  {
    RunInv(h, steps);
    assert CountedIn(s.conns) == InFlight(s.conns) + Finished(s.conns);
    assert InFlight(s.conns) !! Finished(s.conns);
    forall c | c in s.conns
      ensures s.conns[c].decrements == if s.conns[c].phase.Done? then 1 else 0
    {
      assert ConnInv(h, s.conns[c]);
    }
  }

  /** A finished connection has run every OnDisconnect hook once, in order, if it had passed
      every OnConnect hook, and none of them otherwise. */
  lemma DisconnectHooksOnce(h: Hooks, steps: seq<Step>, s: State, c: ConnId)
    requires Run(h, steps) == Some(s) && c in s.conns && s.conns[c].phase.Done?
    ensures s.conns[c].hooksRun == if s.conns[c].phase.accepted then UpTo(h.disconnect) else []
  {
    RunInv(h, steps);
    assert ConnInv(h, s.conns[c]);
  }

  /** c made the last store of k. */
  ghost predicate StoredLast(history: seq<Event>, k: Device, c: ConnId) {
    exists i :: 0 <= i < |history| && history[i] == Stored(c, k) && NotStoredAfter(history, k, i)
  }

  ghost predicate NotStoredAfter(history: seq<Event>, k: Device, i: nat) {
    forall j :: i < j < |history| ==> !(history[j].Stored? && history[j].device == k)
  }

  /** The last to store an id, if it has kept it, owns it. */
  lemma KeptLast(history: seq<Event>, k: Device, c: ConnId)
    requires StoredLast(history, k, c) && Kept(history, k, c)
    ensures Owns(history, k, c)
  {
    var i :| 0 <= i < |history| && history[i] == Stored(c, k) && NotStoredAfter(history, k, i);
    var j :| 0 <= j < |history| && KeptSince(history, k, c, j);
    assert j <= i;
    assert OwnsSince(history, k, c, i);
  }

  lemma OwnerStoredLast(history: seq<Event>, k: Device, c: ConnId)
    requires Owns(history, k, c)
    ensures StoredLast(history, k, c)
  {
    var i :| 0 <= i < |history| && OwnsSince(history, k, c, i);
    assert NotStoredAfter(history, k, i);
  }

  /** A rejected connection that still carries the id k and was the last to store it. */
  ghost predicate Leaked(s: State, k: Device, c: ConnId) {
    && c in s.conns && s.conns[c].phase == Done(false)
    && s.conns[c].deviceId == k && k != ""
    && StoredLast(s.history, k, c)
  }

  /** Once every connection has finished, the counter is back to zero and the registry holds
      exactly the ids last stored by a rejected connection that still carries them. It is empty
      if and only if there is no such id; where no OnConnect hook sets ids there is none. */
  lemma AllFinished(h: Hooks, steps: seq<Step>, s: State)
    requires Run(h, steps) == Some(s)
    requires forall c :: c in s.conns ==> s.conns[c].phase.Done?
    ensures s.active == 0
    ensures forall k, c :: (k in s.registry && s.registry[k] == c) <==> Leaked(s, k, c)
    ensures s.registry == map[] <==> forall k, c :: !Leaked(s, k, c)
    ensures forall k, c :: Leaked(s, k, c) ==> s.conns[c].namedByHook
    ensures (forall c :: c in s.conns ==> !s.conns[c].namedByHook) ==> s.registry == map[]
  {
    RunInv(h, steps);
    assert InFlight(s.conns) == {};
    forall k, c
      ensures (k in s.registry && s.registry[k] == c) <==> Leaked(s, k, c)
      ensures Leaked(s, k, c) ==> s.conns[c].namedByHook
    {
      LeakedIs(h, s, k, c);
    }
    hide Leaked, Inv;
    if s.registry != map[] {
      var k :| k in s.registry;
      assert Leaked(s, k, s.registry[k]) && s.conns[s.registry[k]].namedByHook;
    }
  }

  lemma LeakedIs(h: Hooks, s: State, k: Device, c: ConnId)
    requires Inv(h, s) && forall c :: c in s.conns ==> s.conns[c].phase.Done?
    ensures (k in s.registry && s.registry[k] == c) <==> Leaked(s, k, c)
    ensures Leaked(s, k, c) ==> s.conns[c].namedByHook
  {
    hide CountersInv;
    if c in s.conns {
      assert ConnInv(h, s.conns[c]);
    }
    if k in s.registry && s.registry[k] == c {
      OwnerStoredLast(s.history, k, c);
      assert MayHold(s.conns[c], k);
    }
    if Leaked(s, k, c) {
      assert Carries(s.conns[c]);
      KeptLast(s.history, k, c);
    }
  }

  // ---------------------------------------------------------------- a run that leaves an entry

  /** One OnConnect hook, no OnDisconnect hook. */
  const ONE_HOOK: Hooks := Hooks(1, 0)

  /** Connection 0 alone. */
  function Sole(k: Conn, registry: map<Device, ConnId>, active: int, total: int, history: seq<Event>): State {
    State(map[0 := k], registry, active, total, history)
  }

  predicate Moves(s: State, step: Step, s': State) { Enabled(ONE_HOOK, s, step) && Apply(s, step) == s' }

  lemma Reach(steps: seq<Step>, s: State, step: Step, s': State)
    requires Run(ONE_HOOK, steps) == Some(s) && Moves(s, step, s')
    ensures Run(ONE_HOOK, steps + [step]) == Some(s')
  {
    hide Enabled, Apply;
    assert (steps + [step])[..|steps|] == steps;
  }

  lemma SoleMoves(k: Conn, registry: map<Device, ConnId>, active: int, total: int, history: seq<Event>, step: Step)
    requires step.conn == 0 && Enabled(ONE_HOOK, Sole(k, registry, active, total, history), step)
    ensures Moves(Sole(k, registry, active, total, history), step,
                  Sole(NextConn(k, step), Operate(registry, EventOf(k, step)), active + Delta(step),
                       total + (if step.CountTotal? then 1 else 0), Record(history, EventOf(k, step))))
  {
    assert map[0 := k][0 := NextConn(k, step)] == map[0 := NextConn(k, step)];
  }

  /** Connection 0 in each state of the run. */
  const NEW: Conn := Conn("", Accepted, Idle, false, [], 0)
  const HOOKED: Conn := Conn("", Hook(0), Idle, false, [], 0)
  const NAMED: Conn := Conn("d", Hook(0), Idle, true, [], 0)

  lemma Arrives()
    ensures Moves(Init(), Accept(0), Sole(NEW, map[], 0, 0, []))
    ensures Moves(Sole(NEW, map[], 0, 0, []), CountActive(0), Sole(NEW.(phase := Counted), map[], 1, 0, []))
    ensures Moves(Sole(NEW.(phase := Counted), map[], 1, 0, []), CountTotal(0), Sole(HOOKED, map[], 1, 1, []))
  {
    SoleMoves(NEW, map[], 0, 0, [], CountActive(0));
    SoleMoves(NEW.(phase := Counted), map[], 1, 0, [], CountTotal(0));
  }

  lemma IsNamed()
    ensures var swapped, dropped := NAMED.(rename := Swapped("")), NAMED.(rename := Dropped(""));
            && Moves(Sole(HOOKED, map[], 1, 1, []), Swap(0, "d"), Sole(swapped, map[], 1, 1, []))
            && Moves(Sole(swapped, map[], 1, 1, []), Drop(0), Sole(dropped, map[], 1, 1, []))
            && Moves(Sole(dropped, map[], 1, 1, []), Store(0), Sole(NAMED, map["d" := 0], 1, 1, [Stored(0, "d")]))
  {
    SoleMoves(HOOKED, map[], 1, 1, [], Swap(0, "d"));
    SoleMoves(NAMED.(rename := Swapped("")), map[], 1, 1, [], Drop(0));
    SoleMoves(NAMED.(rename := Dropped("")), map[], 1, 1, [], Store(0));
    assert [] + [Stored(0, "d")] == [Stored(0, "d")];
  }

  lemma IsRejected()
    ensures var r, e := map["d" := 0], [Stored(0, "d")];
            && Moves(Sole(NAMED, r, 1, 1, e), HookFails(0), Sole(NAMED.(phase := Rejected), r, 1, 1, e))
            && Moves(Sole(NAMED.(phase := Rejected), r, 1, 1, e), Uncount(0),
                     Sole(NAMED.(phase := Done(false), decrements := 1), r, 0, 1, e))
  {
    SoleMoves(NAMED, map["d" := 0], 1, 1, [Stored(0, "d")], HookFails(0));
    SoleMoves(NAMED.(phase := Rejected), map["d" := 0], 1, 1, [Stored(0, "d")], Uncount(0));
  }

  lemma NoSteps()
    ensures Run(ONE_HOOK, []) == Some(Init())
  {
  }

  lemma ReachesHook() returns (steps: seq<Step>)
    ensures Run(ONE_HOOK, steps) == Some(Sole(HOOKED, map[], 1, 1, []))
  {
    NoSteps();
    Arrives();
    hide Run, Moves, Init, Sole;
    Reach([], Init(), Accept(0), Sole(NEW, map[], 0, 0, []));
    var a := [] + [Accept(0)];
    Reach(a, Sole(NEW, map[], 0, 0, []), CountActive(0), Sole(NEW.(phase := Counted), map[], 1, 0, []));
    Reach(a + [CountActive(0)], Sole(NEW.(phase := Counted), map[], 1, 0, []), CountTotal(0),
          Sole(HOOKED, map[], 1, 1, []));
    steps := a + [CountActive(0)] + [CountTotal(0)];
  }

  lemma ReachesNamed() returns (steps: seq<Step>)
    ensures Run(ONE_HOOK, steps) == Some(Sole(NAMED, map["d" := 0], 1, 1, [Stored(0, "d")]))
  {
    var b := ReachesHook();
    IsNamed();
    hide Run, Moves, Sole;
    Reach(b, Sole(HOOKED, map[], 1, 1, []), Swap(0, "d"), Sole(NAMED.(rename := Swapped("")), map[], 1, 1, []));
    Reach(b + [Swap(0, "d")], Sole(NAMED.(rename := Swapped("")), map[], 1, 1, []), Drop(0),
          Sole(NAMED.(rename := Dropped("")), map[], 1, 1, []));
    Reach(b + [Swap(0, "d")] + [Drop(0)], Sole(NAMED.(rename := Dropped("")), map[], 1, 1, []), Store(0),
          Sole(NAMED, map["d" := 0], 1, 1, [Stored(0, "d")]));
    steps := b + [Swap(0, "d")] + [Drop(0)] + [Store(0)];
  }

  /** All connections have finished, and yet the registry is not empty. */
  ghost predicate Leaks(s: State) {
    && (forall c :: c in s.conns ==> s.conns[c].phase.Done?)
    && s.registry != map[]
  }

  /** With a hook that names the connection and then rejects it, the entry outlives it. */
  lemma RejectedEntryRemains() returns (h: Hooks, steps: seq<Step>, s: State)
    ensures Run(h, steps) == Some(s) && Leaks(s)
  {
    var named := ReachesNamed();
    IsRejected();
    hide Run, Moves;
    var r, e := map["d" := 0], [Stored(0, "d")];
    h, s := ONE_HOOK, Sole(NAMED.(phase := Done(false), decrements := 1), r, 0, 1, e);
    Reach(named, Sole(NAMED, r, 1, 1, e), HookFails(0), Sole(NAMED.(phase := Rejected), r, 1, 1, e));
    Reach(named + [HookFails(0)], Sole(NAMED.(phase := Rejected), r, 1, 1, e), Uncount(0), s);
    steps := named + [HookFails(0)] + [Uncount(0)];
    assert "d" in s.registry;
  }
}
