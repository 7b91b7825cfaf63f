/** What one connection does: SetDeviceID step by step, which hooks decide whether it is served,
    and that it can always finish by itself. */
module RegistryPaths {
  import opened Types
  import opened Registry
  import opened RegistryTheorems

  // ---------------------------------------------------------------- SetDeviceID

  /** The registry without the entry of d, if that entry is c's. */
  function Without(registry: map<Device, ConnId>, d: Device, c: ConnId): map<Device, ConnId> {
    map k | k in registry && !(k == d && registry[k] == c) :: registry[k]
  }

  /** Each of the three steps of SetDeviceID, whatever the others have done in between: swapping
      the field leaves the registry alone, the second step removes the old entry if there was
      an old id, it differs from the new one and the entry is still the connection's own, and
      the third stores the new id if there is one. */
  lemma RenameSteps(h: Hooks, s: State, c: ConnId, d: Device)
    requires c in s.conns
    ensures Enabled(h, s, Swap(c, d)) ==>
              Apply(s, Swap(c, d)).registry == s.registry && Apply(s, Swap(c, d)).conns[c].deviceId == d
              && Apply(s, Swap(c, d)).conns[c].rename == Swapped(s.conns[c].deviceId)
    ensures Enabled(h, s, Drop(c)) ==>
              s.conns[c].rename.Swapped? &&
              var previous := s.conns[c].rename.previous;
              Apply(s, Drop(c)).registry
                == if previous != "" && previous != s.conns[c].deviceId then Without(s.registry, previous, c)
                   else s.registry
    ensures Enabled(h, s, Store(c)) ==>
              Apply(s, Store(c)).registry
                == if s.conns[c].deviceId != "" then s.registry[s.conns[c].deviceId := c] else s.registry
  {
    if Enabled(h, s, Drop(c)) {
      var previous := s.conns[c].rename.previous;
      assert CompareAndDelete(s.registry, previous, c) == Without(s.registry, previous, c);
    }
  }

  /** User code - a hook or a message handler - may set the id at any time, and nothing stops
      the call half way; setting the id a connection already has and holds leaves the registry
      unchanged at every moment. */
  lemma RenameRuns(h: Hooks, s: State, c: ConnId, d: Device)
    requires c in s.conns && s.conns[c].rename.Idle?
    requires s.conns[c].phase.Serving? || (s.conns[c].phase.Hook? && s.conns[c].phase.i < h.connect)
             || (s.conns[c].phase.Leaving? && s.conns[c].phase.j < h.disconnect)
    ensures Enabled(h, s, Swap(c, d))
    ensures var s1 := Apply(s, Swap(c, d));
            Enabled(h, s1, Drop(c)) && Enabled(h, Apply(s1, Drop(c)), Store(c))
    ensures var s1 := Apply(s, Swap(c, d));
            var s2 := Apply(s1, Drop(c));
            && Apply(s2, Store(c)).conns[c].deviceId == d && Apply(s2, Store(c)).conns[c].rename.Idle?
            && (s.conns[c].deviceId == d && d in s.registry && s.registry[d] == c ==>
                  s1.registry == s.registry && s2.registry == s.registry && Apply(s2, Store(c)).registry == s.registry)
  {
    var s1 := Apply(s, Swap(c, d));
    var s2 := Apply(s1, Drop(c));
    if s.conns[c].deviceId == d && d in s.registry && s.registry[d] == c {
      assert s.registry[d := c] == s.registry;
    }
  }

  // ---------------------------------------------------------------- hooks

  /** OnConnect hooks that connection c has passed in the run. */
  function Passed(steps: seq<Step>, c: ConnId): nat {
    if steps == [] then 0
    else Passed(steps[..|steps| - 1], c) + if steps[|steps| - 1] == HookPasses(c) then 1 else 0
  }

  /** Past the OnConnect hooks, and not by failing one. */
  predicate Admitted(p: Phase) {
    p.Serving? || p.Leaving? || p.Removing? || p.Closing? || p == Done(true)
  }

  /** How far a connection is says which hooks it has passed and whether it has failed one. */
  predicate HooksInv(h: Hooks, p: Phase, passed: nat, failed: bool) {
    && (p.Accepted? || p.Counted? ==> passed == 0 && !failed)
    && (p.Hook? ==> passed == p.i && p.i <= h.connect && !failed)
    && (Admitted(p) ==> passed == h.connect && !failed)
    && (p.Rejected? || p == Done(false) ==> passed < h.connect && failed)
  }

  lemma HooksStep(h: Hooks, s: State, step: Step, passed: nat, failed: bool)
    requires Enabled(h, s, step)
    requires if step.conn in s.conns then HooksInv(h, s.conns[step.conn].phase, passed, failed)
             else passed == 0 && !failed
    ensures HooksInv(h, Apply(s, step).conns[step.conn].phase,
                     passed + (if step.HookPasses? then 1 else 0), failed || step.HookFails?)
  {
  }

  lemma {:induction false} RunHooks(h: Hooks, steps: seq<Step>, c: ConnId)
    requires Run(h, steps).Some?
    ensures var s := Run(h, steps).value;
            if c in s.conns then HooksInv(h, s.conns[c].phase, Passed(steps, c), HookFails(c) in steps)
            else Passed(steps, c) == 0 && HookFails(c) !in steps
  {
    if steps != [] {
      var last := |steps| - 1;
      var step := steps[last];
      RunHooks(h, steps[..last], c);
      assert steps == steps[..last] + [step];
      if step.conn == c {
        HooksStep(h, Run(h, steps[..last]).value, step, Passed(steps[..last], c), HookFails(c) in steps[..last]);
      }
      hide HooksInv, Enabled, NextConn, EventOf, Operate;
    }
  }

  /** A connection is served if and only if it has passed every OnConnect hook and failed none;
      one that has failed a hook is rejected and runs no OnDisconnect hook. */
  lemma HooksDecide(h: Hooks, steps: seq<Step>, s: State, c: ConnId)
    requires Run(h, steps) == Some(s) && c in s.conns
    ensures Admitted(s.conns[c].phase) ==> Passed(steps, c) == h.connect && HookFails(c) !in steps
    ensures HookFails(c) in steps <==> s.conns[c].phase.Rejected? || s.conns[c].phase == Done(false)
    ensures HookFails(c) in steps ==> s.conns[c].hooksRun == []
    ensures s.conns[c].phase.Done? ==> (s.conns[c].phase.accepted <==> Passed(steps, c) == h.connect)
  {
    RunHooks(h, steps, c);
    RunInv(h, steps);
    assert ConnInv(h, s.conns[c]);
  }

  // ---------------------------------------------------------------- finishing

  function Ahead(h: Hooks, p: Phase): nat
    requires p.Hook? ==> p.i <= h.connect
    requires p.Leaving? ==> p.j <= h.disconnect
  {
    match p
    case Accepted => h.connect + h.disconnect + 7
    case Counted => h.connect + h.disconnect + 6
    case Hook(i) => h.connect - i + h.disconnect + 5
    case Serving => h.disconnect + 4
    case Leaving(j) => h.disconnect - j + 3
    case Removing => 2
    case Closing => 1
    case Rejected => 1
    case Done(_) => 0
  }

  function Unsettled(r: Rename): nat {
    match r case Swapped(_) => 2 case Dropped(_) => 1 case Idle => 0
  }

  lemma NextOfOwn(h: Hooks, s: State, c: ConnId) returns (step: Step)
    requires c in s.conns && ConnInv(h, s.conns[c]) && !s.conns[c].phase.Done?
    ensures Enabled(h, s, step) && step.conn == c && c in Apply(s, step).conns
    ensures var k, k' := s.conns[c], Apply(s, step).conns[c];
            && ConnInv(h, k')
            && (Ahead(h, k'.phase) < Ahead(h, k.phase)
                || (Ahead(h, k'.phase) == Ahead(h, k.phase) && Unsettled(k'.rename) < Unsettled(k.rename)))
  {
    var k := s.conns[c];
    step :=
      if k.rename.Swapped? then Drop(c)
      else if k.rename.Dropped? then Store(c)
      else match k.phase
           case Accepted => CountActive(c)
           case Counted => CountTotal(c)
           case Hook(i) => if i < h.connect then HookPasses(c) else Serve(c)
           case Serving => Leave(c)
           case Leaving(j) => if j < h.disconnect then RunHook(c) else ReadId(c)
           case Removing => Remove(c)
           case Closing => Finish(c)
           case _ => Uncount(c);
    ConnStep(h, s, step);
  }

  lemma RunLonger(h: Hooks, steps: seq<Step>, s: State, step: Step)
    requires Run(h, steps) == Some(s) && Enabled(h, s, step)
    ensures Run(h, steps + [step]) == Some(Apply(s, step))
  {
    assert (steps + [step])[..|steps|] == steps;
  }

  lemma {:induction false} Finishes(h: Hooks, steps: seq<Step>, s: State, c: ConnId)
    returns (more: seq<Step>, s': State)
    requires Run(h, steps) == Some(s) && c in s.conns && ConnInv(h, s.conns[c])
    ensures Run(h, steps + more) == Some(s') && forall step :: step in more ==> step.conn == c
    ensures c in s'.conns && s'.conns[c].phase.Done?
    decreases Ahead(h, s.conns[c].phase), Unsettled(s.conns[c].rename)
  {
    if s.conns[c].phase.Done? {
      more, s' := [], s;
      Regroup(steps, [], []);
    } else {
      var step := NextOfOwn(h, s, c);
      RunLonger(h, steps, s, step);
      hide Enabled, Run, ConnInv, Ahead, Apply, Unsettled;
      var rest;
      rest, s' := Finishes(h, steps + [step], Apply(s, step), c);
      more := [step] + rest;
      Regroup(steps, [step], rest);
    }
  }

  /** No connection ever waits for another: from every reachable state any connection can be
      brought to its end, and uncounted, by steps of its own. */
  lemma FinishesAlone(h: Hooks, steps: seq<Step>, s: State, c: ConnId) returns (more: seq<Step>, s': State)
    requires Run(h, steps) == Some(s) && c in s.conns
    ensures Run(h, steps + more) == Some(s') && forall step :: step in more ==> step.conn == c
    ensures c in s'.conns && s'.conns[c].phase.Done? && s'.conns[c].decrements == 1
  {
    RunInv(h, steps);
    hide ConnInv, Run, Enabled, Apply;
    more, s' := Finishes(h, steps, s, c);
    ActiveIsExact(h, steps + more, s');
  }

  /** The cleanup after the last OnDisconnect hook, whatever id the hooks have left: the entry of
      that id goes if there is an id and the entry is still the connection's own, no other entry
      is touched, and the connection is uncounted. */
  lemma CleanupAlone(h: Hooks, steps: seq<Step>, s: State, c: ConnId) returns (steps': seq<Step>, s': State)
    requires Run(h, steps) == Some(s)
    requires c in s.conns && s.conns[c].rename.Idle? && s.conns[c].phase == Leaving(h.disconnect)
    ensures steps <= steps' && Run(h, steps') == Some(s')
    ensures var k := s.conns[c];
            && s'.conns == s.conns[c := k.(phase := Done(true), decrements := k.decrements + 1)]
            && s'.active == s.active - 1
            && (if k.deviceId == "" then s'.registry == s.registry && s'.history == s.history
                else s'.registry == Without(s.registry, k.deviceId, c)
                     && s'.history == s.history + [Removed(c, k.deviceId)])
  {
    var k := s.conns[c];
    RunLonger(h, steps, s, ReadId(c));
    steps', s' := steps + [ReadId(c)], Apply(s, ReadId(c));
    if k.deviceId != "" {
      RunLonger(h, steps', s', Remove(c));
      steps', s' := steps' + [Remove(c)], Apply(s', Remove(c));
      assert CompareAndDelete(s.registry, k.deviceId, c) == Without(s.registry, k.deviceId, c);
    }
    RunLonger(h, steps', s', Finish(c));
    steps', s' := steps' + [Finish(c)], Apply(s', Finish(c));
  }
}
