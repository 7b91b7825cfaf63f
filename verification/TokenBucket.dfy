/** The token bucket of middleware/ratelimit.go, and the window rule that it keeps with one
    number: over every window the requests admitted fit into the burst and what has been
    earned since the window began. Times and tokens are reals. */
module TokenBuckets {

  /** rate tokens a second, at most burst, full at start. */
  datatype Limits = Limits(rate: int, burst: int, start: real)

  datatype Call = Call(time: real, admitted: bool)

  function Earned(rate: int, seconds: real): real { rate as real * seconds }

  /** Requests admitted at time s or later. */
  function Admitted(calls: seq<Call>, s: real): nat {
    if calls == [] then 0
    else
      var last := |calls| - 1;
      Admitted(calls[..last], s) + if calls[last].admitted && calls[last].time >= s then 1 else 0
  }

  /** What the window from s to now has left. */
  function Room(l: Limits, calls: seq<Call>, s: real, now: real): real {
    l.burst as real + Earned(l.rate, now - s) - Admitted(calls, s) as real
  }

  /** One more request now fits into every window that begins at the creation of the bucket,
      at an earlier call, or now. */
  predicate WindowsAllow(l: Limits, calls: seq<Call>, now: real) {
    && Room(l, calls, l.start, now) >= 1.0
    && Room(l, calls, now, now) >= 1.0
    && forall i :: 0 <= i < |calls| ==> Room(l, calls, calls[i].time, now) >= 1.0
  }

  function LastTime(l: Limits, calls: seq<Call>): real {
    if calls == [] then l.start else calls[|calls| - 1].time
  }

  predicate Ordered(l: Limits, calls: seq<Call>) {
    && (forall i :: 0 <= i < |calls| ==> l.start <= calls[i].time)
    && (forall i, j :: 0 <= i <= j < |calls| ==> calls[i].time <= calls[j].time)
  }

  /** The number in the bucket is the least room that any of these windows has left. */
  ghost predicate Level(l: Limits, calls: seq<Call>, tokens: real) {
    var now := LastTime(l, calls);
    && Ordered(l, calls)
    && tokens <= Room(l, calls, l.start, now)
    && (forall i :: 0 <= i < |calls| ==> tokens <= Room(l, calls, calls[i].time, now))
    && (tokens == Room(l, calls, l.start, now)
        || exists i :: 0 <= i < |calls| && tokens == Room(l, calls, calls[i].time, now))
  }

  function Refilled(l: Limits, tokens: real, seconds: real): real {
    var more := tokens + Earned(l.rate, seconds);
    if more > l.burst as real then l.burst as real else more
  }

  lemma EarnedAdds(rate: int, a: real, b: real)
    ensures Earned(rate, a + b) == Earned(rate, a) + Earned(rate, b)
  {
  }

  lemma EarnedGrows(rate: int, a: real, b: real)
    requires rate >= 0 && a <= b
    ensures Earned(rate, a) <= Earned(rate, b)
  {
    EarnedAdds(rate, a, b - a);
    assert Earned(rate, b - a) >= 0.0;
  }

  lemma RoomLater(l: Limits, calls: seq<Call>, s: real, now: real, later: real)
    ensures Room(l, calls, s, later) == Room(l, calls, s, now) + Earned(l.rate, later - now)
  {
    EarnedAdds(l.rate, now - s, later - now);
    assert now - s + (later - now) == later - s;
  }

  lemma {:induction false} NoneAfter(calls: seq<Call>, s: real)
    requires forall i :: 0 <= i < |calls| ==> calls[i].time < s
    ensures Admitted(calls, s) == 0
  {
    if calls != [] {
      NoneAfter(calls[..|calls| - 1], s);
    }
  }

  lemma AdmittedNext(calls: seq<Call>, call: Call, s: real)
    ensures Admitted(calls + [call], s) == Admitted(calls, s) + if call.admitted && call.time >= s then 1 else 0
  {
    assert (calls + [call])[..|calls|] == calls;
  }

  /** Refilling the bucket gives the least room over all windows as seen now, the one that
      begins now included. */
  lemma RefillIsLeast(l: Limits, calls: seq<Call>, tokens: real, now: real)
    requires Level(l, calls, tokens) && now >= LastTime(l, calls)
    ensures var v := Refilled(l, tokens, now - LastTime(l, calls));
            && v <= Room(l, calls, l.start, now)
            && v <= Room(l, calls, now, now)
            && (forall i :: 0 <= i < |calls| ==> v <= Room(l, calls, calls[i].time, now))
            && (v == Room(l, calls, l.start, now)
                || v == Room(l, calls, now, now)
                || exists i :: 0 <= i < |calls| && v == Room(l, calls, calls[i].time, now))
  {
    hide Earned, Admitted;
    var last := LastTime(l, calls);
    RoomLater(l, calls, l.start, last, now);
    forall i | 0 <= i < |calls|
      ensures Room(l, calls, calls[i].time, now) == Room(l, calls, calls[i].time, last) + Earned(l.rate, now - last)
    {
      RoomLater(l, calls, calls[i].time, last, now);
    }
    RoomNow(l, calls, now);
  }

  /** A window that begins now has the whole burst left, unless calls were made at this very
      time. */
  lemma RoomNow(l: Limits, calls: seq<Call>, now: real)
    requires Ordered(l, calls) && now >= LastTime(l, calls)
    ensures Room(l, calls, now, now) <= l.burst as real
    ensures now > LastTime(l, calls) || calls == [] ==> Room(l, calls, now, now) == l.burst as real
  {
    assert Earned(l.rate, now - now) == 0.0;
    if now > LastTime(l, calls) || calls == [] {
      NoneAfter(calls, now);
    }
  }

  lemma RoomNext(l: Limits, calls: seq<Call>, call: Call, s: real)
    requires s <= call.time
    ensures Room(l, calls + [call], s, call.time)
         == Room(l, calls, s, call.time) - if call.admitted then 1.0 else 0.0
  {
    hide Earned;
    AdmittedNext(calls, call, s);
  }

  /** An admitted request takes one from the room of every window. */
  lemma LevelNext(l: Limits, calls: seq<Call>, v: real, call: Call)
    requires Ordered(l, calls) && call.time >= LastTime(l, calls)
    requires v <= Room(l, calls, l.start, call.time) && v <= Room(l, calls, call.time, call.time)
    requires forall i :: 0 <= i < |calls| ==> v <= Room(l, calls, calls[i].time, call.time)
    requires v == Room(l, calls, l.start, call.time) || v == Room(l, calls, call.time, call.time)
             || exists i :: 0 <= i < |calls| && v == Room(l, calls, calls[i].time, call.time)
    ensures Level(l, calls + [call], if call.admitted then v - 1.0 else v)
  {
    hide Room;
    var calls' := calls + [call];
    var tokens := if call.admitted then v - 1.0 else v;
    RoomNext(l, calls, call, l.start);
    RoomNext(l, calls, call, call.time);
    forall i | 0 <= i < |calls|
      ensures Room(l, calls', calls[i].time, call.time)
           == Room(l, calls, calls[i].time, call.time) - if call.admitted then 1.0 else 0.0
    {
      RoomNext(l, calls, call, calls[i].time);
    }
    assert calls'[|calls|].time == call.time && LastTime(l, calls') == call.time;
    if exists i :: 0 <= i < |calls| && v == Room(l, calls, calls[i].time, call.time) {
      var i :| 0 <= i < |calls| && v == Room(l, calls, calls[i].time, call.time);
      assert tokens == Room(l, calls', calls'[i].time, call.time);
    }
  }

  /** The test on the bucket decides exactly the window rule, and keeps the bucket exact. */
  lemma BucketDecides(l: Limits, calls: seq<Call>, tokens: real, now: real)
    requires Level(l, calls, tokens) && now >= LastTime(l, calls)
    ensures var v := Refilled(l, tokens, now - LastTime(l, calls));
            && (v >= 1.0 <==> WindowsAllow(l, calls, now))
            && Level(l, calls + [Call(now, v >= 1.0)], if v >= 1.0 then v - 1.0 else v)
  {
    hide Room, Refilled;
    var v := Refilled(l, tokens, now - LastTime(l, calls));
    RefillIsLeast(l, calls, tokens, now);
    LevelNext(l, calls, v, Call(now, v >= 1.0));
  }

  // ---------------------------------------------------------------- the rule in plain numbers

  /** The admitted calls from s on. */
  function Since(calls: seq<Call>, s: real): set<int> {
    set i | 0 <= i < |calls| && calls[i].admitted && calls[i].time >= s
  }

  lemma {:induction false} AdmittedCounts(calls: seq<Call>, s: real)
    ensures Admitted(calls, s) == |Since(calls, s)|
  {
    if calls != [] {
      var last := |calls| - 1;
      AdmittedCounts(calls[..last], s);
      var more := if calls[last].admitted && calls[last].time >= s then {last} else {};
      assert Since(calls, s) == Since(calls[..last], s) + more;
    }
  }

  /** A request at `now` fits exactly if, from the creation of the bucket, from now and from
      every earlier call, the admitted requests and this one are at most burst + rate * the time
      passed since. */
  lemma WindowsInNumbers(l: Limits, calls: seq<Call>, now: real)
    ensures WindowsAllow(l, calls, now) <==>
            && |Since(calls, l.start)| as real + 1.0 <= l.burst as real + l.rate as real * (now - l.start)
            && |Since(calls, now)| as real + 1.0 <= l.burst as real
            && forall i :: 0 <= i < |calls| ==>
                 |Since(calls, calls[i].time)| as real + 1.0 <= l.burst as real + l.rate as real * (now - calls[i].time)
  {
    RoomInNumbers(l, calls, l.start, now);
    RoomInNumbers(l, calls, now, now);
    assert l.rate as real * (now - now) == 0.0;
    forall i | 0 <= i < |calls|
      ensures Room(l, calls, calls[i].time, now)
           == l.burst as real + l.rate as real * (now - calls[i].time) - |Since(calls, calls[i].time)| as real
    {
      RoomInNumbers(l, calls, calls[i].time, now);
    }
    hide Room, Since;
  }

  lemma RoomInNumbers(l: Limits, calls: seq<Call>, s: real, now: real)
    ensures Room(l, calls, s, now) == l.burst as real + l.rate as real * (now - s) - |Since(calls, s)| as real
  {
    AdmittedCounts(calls, s);
  }

  // ---------------------------------------------------------------- what the rule means

  /** Every request was admitted exactly if the windows allowed it. */
  predicate Decided(l: Limits, calls: seq<Call>) {
    Ordered(l, calls)
    && forall i :: 0 <= i < |calls| ==> (calls[i].admitted <==> WindowsAllow(l, calls[..i], calls[i].time))
  }

  /** Every admitted request was allowed by the windows, but others may have been turned away. */
  predicate Lawful(l: Limits, calls: seq<Call>) {
    Ordered(l, calls)
    && forall i :: 0 <= i < |calls| && calls[i].admitted ==> WindowsAllow(l, calls[..i], calls[i].time)
  }

  function Total(calls: seq<Call>): nat {
    if calls == [] then 0
    else Total(calls[..|calls| - 1]) + if calls[|calls| - 1].admitted then 1 else 0
  }

  /** Requests admitted from s to e. */
  function Between(calls: seq<Call>, s: real, e: real): nat {
    if calls == [] then 0
    else
      var last := calls[|calls| - 1];
      Between(calls[..|calls| - 1], s, e) + if last.admitted && s <= last.time <= e then 1 else 0
  }

  lemma {:induction false} BetweenIsAdmitted(calls: seq<Call>, s: real, e: real)
    requires forall i :: 0 <= i < |calls| ==> calls[i].time <= e
    ensures Between(calls, s, e) == Admitted(calls, s)
  {
    if calls != [] {
      BetweenIsAdmitted(calls[..|calls| - 1], s, e);
    }
  }

  lemma LawfulPrefix(l: Limits, calls: seq<Call>, n: nat)
    requires Lawful(l, calls) && n <= |calls|
    ensures Lawful(l, calls[..n])
  {
    forall i | 0 <= i < n
      ensures calls[..n][..i] == calls[..i]
    {
    }
  }

  /** A window with nothing earlier in it begins, in effect, at its first admitted request. */
  lemma {:induction false} FirstAdmitted(calls: seq<Call>, s: real) returns (t: real)
    requires Admitted(calls, s) > 0
    requires forall i, j :: 0 <= i <= j < |calls| ==> calls[i].time <= calls[j].time
    ensures exists i :: 0 <= i < |calls| && calls[i].time == t
    ensures t >= s && Admitted(calls, t) == Admitted(calls, s)
  {
    var last := |calls| - 1;
    if Admitted(calls[..last], s) > 0 {
      t := FirstAdmitted(calls[..last], s);
      var i :| 0 <= i < last && calls[..last][i].time == t;
      assert calls[i].time == t;
    } else {
      t := calls[last].time;
      NoneSince(calls[..last], s, t);
    }
  }

  lemma {:induction false} NoneSince(calls: seq<Call>, s: real, t: real)
    requires Admitted(calls, s) == 0 && s <= t
    ensures Admitted(calls, t) == 0
  {
    if calls != [] {
      NoneSince(calls[..|calls| - 1], s, t);
    }
  }

  /** A window whose last call was admitted. */
  lemma WindowFull(l: Limits, calls: seq<Call>, s: real, e: real)
    requires l.rate >= 0 && Lawful(l, calls) && calls != []
    requires calls[|calls| - 1].admitted && s <= calls[|calls| - 1].time <= e
    ensures Between(calls, s, e) as real <= l.burst as real + Earned(l.rate, e - s)
  {
    var last := |calls| - 1;
    var call := calls[last];
    BetweenIsAdmitted(calls, s, e);
    var t := FirstAdmitted(calls, s);
    RoomAt(l, calls, t);
    hide Earned, Lawful, Between, WindowsAllow;
    assert calls == calls[..last] + [call];
    AdmittedNext(calls[..last], call, t);
    EarnedGrows(l.rate, call.time - t, e - s);
  }

  lemma {:induction false} WindowEnds(l: Limits, calls: seq<Call>, s: real, e: real)
    requires l.rate >= 0 && l.burst >= 0 && Lawful(l, calls) && s <= e
    ensures Between(calls, s, e) as real <= l.burst as real + Earned(l.rate, e - s)
  {
    assert Earned(l.rate, 0.0) == 0.0;
    hide Earned, Lawful;
    EarnedGrows(l.rate, 0.0, e - s);
    if calls != [] {
      var last := |calls| - 1;
      LawfulPrefix(l, calls, last);
      if calls[last].admitted && s <= calls[last].time <= e {
        WindowFull(l, calls, s, e);
      } else {
        WindowEnds(l, calls[..last], s, e);
      }
    }
  }

  lemma RoomAt(l: Limits, calls: seq<Call>, t: real)
    requires Lawful(l, calls) && calls != [] && calls[|calls| - 1].admitted
    requires exists i :: 0 <= i < |calls| && calls[i].time == t
    ensures Room(l, calls[..|calls| - 1], t, calls[|calls| - 1].time) >= 1.0
  {
    var last := |calls| - 1;
    var i :| 0 <= i < |calls| && calls[i].time == t;
    hide Room;
    assert WindowsAllow(l, calls[..last], calls[last].time);
    if i < last {
      assert calls[..last][i].time == t;
    }
  }

  lemma {:induction false} BetweenCounts(calls: seq<Call>, s: real, e: real)
    ensures Between(calls, s, e) == |set i | 0 <= i < |calls| && calls[i].admitted && s <= calls[i].time <= e|
  {
    if calls != [] {
      var last := |calls| - 1;
      BetweenCounts(calls[..last], s, e);
      var more := if calls[last].admitted && s <= calls[last].time <= e then {last} else {};
      var front := calls[..last];
      assert (set i | 0 <= i < |calls| && calls[i].admitted && s <= calls[i].time <= e)
          == (set i | 0 <= i < |front| && front[i].admitted && s <= front[i].time <= e) + more;
    }
  }

  lemma EarnedIs(rate: int, seconds: real)
    ensures Earned(rate, seconds) == rate as real * seconds
  {
  }

  /** In any window of time, wherever it begins and ends, the requests admitted are at most the
      burst and what is earned over the length of the window. */
  lemma AnyWindow(l: Limits, calls: seq<Call>, s: real, e: real)
    requires l.rate >= 0 && l.burst >= 0 && s <= e
    requires Decided(l, calls)
    ensures |set i | 0 <= i < |calls| && calls[i].admitted && s <= calls[i].time <= e| as real
         <= l.burst as real + l.rate as real * (e - s)
  {
    hide WindowsAllow, Between, Earned;
    BetweenCounts(calls, s, e);
    EarnedIs(l.rate, e - s);
    WindowEnds(l, calls, s, e);
  }

  predicate SameTimes(a: seq<Call>, b: seq<Call>) {
    |a| == |b| && forall i :: 0 <= i < |a| ==> a[i].time == b[i].time
  }

  /** The calls made before s, of which there are m, and those from s on. */
  lemma {:induction false} SplitAt(a: seq<Call>, b: seq<Call>, s: real) returns (m: nat)
    requires SameTimes(a, b)
    requires forall i, j :: 0 <= i <= j < |a| ==> a[i].time <= a[j].time
    ensures m <= |a|
    ensures Total(a) == Total(a[..m]) + Admitted(a, s) && Total(b) == Total(b[..m]) + Admitted(b, s)
  {
    var last := |a| - 1;
    if a == [] || a[last].time < s {
      m := |a|;
      NoneAfter(a, s);
      NoneAfter(b, s);
      assert a[..m] == a && b[..m] == b;
    } else {
      m := SplitAt(a[..last], b[..last], s);
      assert a[..last][..m] == a[..m] && b[..last][..m] == b[..m];
    }
  }

  /** The rule is greedy and best: no other way of admitting that keeps every window admits
      more of the same requests, at any point of the run. */
  lemma {:induction false} GreedyIsBest(l: Limits, calls: seq<Call>, other: seq<Call>)
    requires Decided(l, calls) && Lawful(l, other) && SameTimes(calls, other)
    ensures Total(other) <= Total(calls)
    decreases |calls|
  {
    hide WindowsAllow;
    if calls != [] {
      var last := |calls| - 1;
      var now := calls[last].time;
      DecidedPrefix(l, calls, last);
      LawfulPrefix(l, other, last);
      GreedyIsBest(l, calls[..last], other[..last]);
      if !calls[last].admitted && other[last].admitted {
        assert !WindowsAllow(l, calls[..last], now) && WindowsAllow(l, other[..last], now);
        hide Decided, Lawful;
        var s := FullWindow(l, calls[..last], other[..last], now);
        FewerRoom(l, calls[..last], other[..last], s, now);
        var m := SplitAt(calls[..last], other[..last], s);
        DecidedPrefix(l, calls[..last], m);
        LawfulPrefix(l, other[..last], m);
        GreedyIsBest(l, calls[..last][..m], other[..last][..m]);
      }
    }
  }

  lemma DecidedPrefix(l: Limits, calls: seq<Call>, n: nat)
    requires Decided(l, calls) && n <= |calls|
    ensures Decided(l, calls[..n])
  {
    forall i | 0 <= i < n
      ensures calls[..n][..i] == calls[..i]
    {
    }
  }

  /** The window for which the rule turns the request away. */
  lemma FullWindow(l: Limits, calls: seq<Call>, other: seq<Call>, now: real) returns (s: real)
    requires !WindowsAllow(l, calls, now) && WindowsAllow(l, other, now) && SameTimes(calls, other)
    ensures Room(l, calls, s, now) < 1.0 <= Room(l, other, s, now)
  {
    hide Room;
    if Room(l, calls, l.start, now) < 1.0 {
      s := l.start;
    } else if Room(l, calls, now, now) < 1.0 {
      s := now;
    } else {
      var i :| 0 <= i < |calls| && Room(l, calls, calls[i].time, now) < 1.0;
      s := calls[i].time;
      assert other[i].time == s;
    }
  }

  lemma FewerRoom(l: Limits, calls: seq<Call>, other: seq<Call>, s: real, now: real)
    requires Room(l, calls, s, now) < Room(l, other, s, now)
    ensures Admitted(other, s) + 1 <= Admitted(calls, s)
  {
    hide Earned, Admitted;
  }

  /** Where tokens are not taken away over time, the window from the creation of the bucket
      adds nothing to those from the calls: the rule is the one over call times alone. */
  lemma CreationImplied(l: Limits, calls: seq<Call>, now: real)
    requires l.rate >= 0 && Ordered(l, calls) && now >= LastTime(l, calls)
    ensures WindowsAllow(l, calls, now) <==>
              Room(l, calls, now, now) >= 1.0
              && forall i :: 0 <= i < |calls| ==> Room(l, calls, calls[i].time, now) >= 1.0
  {
    var first := if calls == [] then now else calls[0].time;
    AllSince(calls, l.start, first);
    hide Admitted;
    EarnedGrows(l.rate, now - first, now - l.start);
    hide Earned;
    assert Room(l, calls, l.start, now) >= Room(l, calls, first, now);
    assert calls != [] ==> calls[0].time == first;
  }

  lemma {:induction false} AllSince(calls: seq<Call>, s: real, t: real)
    requires forall i :: 0 <= i < |calls| ==> s <= calls[i].time && t <= calls[i].time
    ensures Admitted(calls, s) == Admitted(calls, t)
  {
    if calls != [] {
      AllSince(calls[..|calls| - 1], s, t);
    }
  }

  lemma DecidedNext(l: Limits, calls: seq<Call>, call: Call)
    requires Decided(l, calls) && call.time >= LastTime(l, calls)
    requires call.admitted <==> WindowsAllow(l, calls, call.time)
    ensures Decided(l, calls + [call])
  {
    hide WindowsAllow;
    var calls' := calls + [call];
    assert calls'[..|calls|] == calls;
    assert Ordered(l, calls');
    hide Ordered;
    forall i | 0 <= i < |calls|
      ensures calls'[i].admitted <==> WindowsAllow(l, calls'[..i], calls'[i].time)
    {
      assert calls'[..i] == calls[..i];
    }
  }

  class TokenBucket {
    const rate: int
    const burst: int
    var tokens: real
    var lastTime: real
    ghost const start: real
    ghost var calls: seq<Call>

    ghost function Rule(): Limits { Limits(rate, burst, start) }

    ghost predicate Valid()
      reads this
    {
      && lastTime == LastTime(Rule(), calls)
      && Level(Rule(), calls, tokens)
      && Decided(Rule(), calls)
    }

    constructor (rate: int, burst: int, now: real)
      ensures Valid() && calls == [] && Rule() == Limits(rate, burst, now)
    {
      this.rate := rate;
      this.burst := burst;
      tokens := burst as real;
      lastTime := now;
      start := now;
      calls := [];
    }

    /** Admits exactly the requests that the window rule allows. */
    method Allow(now: real) returns (ok: bool)
      requires Valid() && now >= lastTime
      modifies this
      ensures Valid() && lastTime == now
      ensures Decided(Rule(), calls)
      ensures ok <==> WindowsAllow(Rule(), old(calls), now)
      ensures ok <==>
              && |Since(old(calls), start)| as real + 1.0 <= burst as real + rate as real * (now - start)
              && |Since(old(calls), now)| as real + 1.0 <= burst as real
              && forall i :: 0 <= i < |old(calls)| ==>
                   var s := old(calls)[i].time;
                   |Since(old(calls), s)| as real + 1.0 <= burst as real + rate as real * (now - s)
      ensures calls == old(calls) + [Call(now, ok)]
    {
      hide Level, WindowsAllow, Admitted, Decided, Since;
      BucketDecides(Rule(), calls, tokens, now);
      WindowsInNumbers(Rule(), calls, now);
      ghost var call := Call(now, WindowsAllow(Rule(), calls, now));
      DecidedNext(Rule(), calls, call);
      assert (calls + [call])[|calls|] == call;
      var elapsed := now - lastTime;
      ghost var v := Refilled(Rule(), tokens, elapsed);
      assert Earned(rate, elapsed) == elapsed * rate as real;
      lastTime := now;
      tokens := tokens + elapsed * rate as real;
      if tokens > burst as real {
        tokens := burst as real;
      }
      assert tokens == v;
      if tokens < 1.0 {
        ok := false;
      } else {
        tokens := tokens - 1.0;
        ok := true;
      }
      assert call == Call(now, v >= 1.0) && ok == call.admitted;
      calls := calls + [call];
    }
  }
}
