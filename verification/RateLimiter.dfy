// core/learning_os/rate_limiter.py and core/learning_os/proposal_emitter.py: a sliding-window limiter
// that keeps only a pruned list of times, and the emitter that sits behind it.

module RateLimiter {
  import opened Basics

  datatype Policy = Policy(period: int, limit: int)

  datatype Call = Call(key: string, now: real)

  type Events = map<string, seq<real>>

  function Times(events: Events, key: string): seq<real> {
    if key in events then events[key] else []
  }

  // [t for t in ts if t >= cutoff]
  function Since(ts: seq<real>, cutoff: real): seq<real> {
    if ts == [] then []
    else Since(ts[..|ts| - 1], cutoff) + (if ts[|ts| - 1] >= cutoff then [ts[|ts| - 1]] else [])
  }

  function Cutoff(now: real, p: Policy): real {
    now - p.period as real
  }

  function Kept(events: Events, call: Call, p: Policy): seq<real> {
    Since(Times(events, call.key), Cutoff(call.now, p))
  }

  predicate Allowed(events: Events, call: Call, p: Policy) {
    |Kept(events, call, p)| < p.limit
  }

  function Recorded(events: Events, call: Call, p: Policy): Events {
    events[call.key := Kept(events, call, p) + (if Allowed(events, call, p) then [call.now] else [])]
  }

  class Limiter {
    const p: Policy
    var events: Events

    constructor (period: int, limit: int)
      ensures p == Policy(period, limit) && events == map[]
    {
      p, events := Policy(period, limit), map[];
    }

    // check_and_record
    method CheckAndRecord(key: string, now: real) returns (allowed: bool)
      modifies this`events
      ensures events == Recorded(old(events), Call(key, now), p)
      ensures allowed == Allowed(old(events), Call(key, now), p)
    {
      if key !in events {
        events := events[key := []];
      }
      var ts, cutoff := events[key], now - p.period as real;
      var kept := [];
      for i := 0 to |ts|
        invariant kept == Since(ts[..i], cutoff)
      {
        assert ts[..i + 1][..i] == ts[..i];
        if ts[i] >= cutoff { kept := kept + [ts[i]]; }
      }
      assert ts[..|ts|] == ts;
      events := events[key := kept];
      assert kept == kept + [];
      if |kept| >= p.limit {
        return false;
      }
      events := events[key := kept + [now]];
      return true;
    }
  }

  // ----- the full history -----

  // The limiter after a history of calls.
  function After(calls: seq<Call>, p: Policy): Events {
    if calls == [] then map[] else Recorded(After(calls[..|calls| - 1], p), calls[|calls| - 1], p)
  }

  predicate AcceptedAt(calls: seq<Call>, i: nat, p: Policy)
    requires i < |calls|
  {
    Allowed(After(calls[..i], p), calls[i], p)
  }

  // The accepted calls of a key with a time in a closed interval, over the whole history.
  function AcceptedIn(calls: seq<Call>, key: string, lo: real, hi: real, p: Policy): set<nat> {
    set i: nat | i < |calls| && calls[i].key == key && lo <= calls[i].now <= hi && AcceptedAt(calls, i, p)
  }

  // The clock never goes back between two calls of a key.
  ghost predicate Forward(calls: seq<Call>, key: string) {
    forall i, j | 0 <= i < j < |calls| && calls[i].key == key && calls[j].key == key :: calls[i].now <= calls[j].now
  }

  lemma {:induction false} AcceptedEarlier(calls: seq<Call>, call: Call, i: nat, p: Policy)
    requires i < |calls|
    ensures AcceptedAt(calls + [call], i, p) <==> AcceptedAt(calls, i, p)
  {
    assert (calls + [call])[..i] == calls[..i];
  }

  lemma {:induction false} AcceptedNow(calls: seq<Call>, call: Call, p: Policy)
    ensures AcceptedAt(calls + [call], |calls|, p) <==> Allowed(After(calls, p), call, p)
  {
    assert (calls + [call])[..|calls|] == calls;
  }

  ghost predicate Counted(calls: seq<Call>, i: nat, key: string, lo: real, hi: real, p: Policy) {
    i < |calls| && calls[i].key == key && lo <= calls[i].now <= hi && AcceptedAt(calls, i, p)
  }

  lemma CountedStep(calls: seq<Call>, call: Call, i: nat, key: string, lo: real, hi: real, p: Policy)
    ensures Counted(calls + [call], i, key, lo, hi, p)
            <==> Counted(calls, i, key, lo, hi, p)
                 || (i == |calls| && call.key == key && lo <= call.now <= hi && Allowed(After(calls, p), call, p))
  {
    if i < |calls| {
      AcceptedEarlier(calls, call, i, p);
    } else if i == |calls| {
      AcceptedNow(calls, call, p);
    }
  }

  lemma {:induction false} AcceptedInStep(calls: seq<Call>, call: Call, key: string, lo: real, hi: real, p: Policy)
    ensures var grown := AcceptedIn(calls + [call], key, lo, hi, p);
            var was := AcceptedIn(calls, key, lo, hi, p);
            if call.key == key && lo <= call.now <= hi && Allowed(After(calls, p), call, p)
            then grown == was + {|calls|} && |grown| == |was| + 1 else grown == was
  {
    var grown, was := AcceptedIn(calls + [call], key, lo, hi, p), AcceptedIn(calls, key, lo, hi, p);
    forall i: nat
      ensures i in grown <==> i in was || (i == |calls| && call.key == key && lo <= call.now <= hi && Allowed(After(calls, p), call, p))
    {
      CountedStep(calls, call, i, key, lo, hi, p);
      assert i in grown <==> Counted(calls + [call], i, key, lo, hi, p);
      assert i in was <==> Counted(calls, i, key, lo, hi, p);
    }
    assert |calls| !in was;
  }

  lemma AfterStep(calls: seq<Call>, call: Call, p: Policy)
    ensures After(calls + [call], p) == Recorded(After(calls, p), call, p)
  {
    assert (calls + [call])[..|calls|] == calls;
  }

  lemma SinceAppend(ts: seq<real>, t: real, cutoff: real)
    ensures Since(ts + [t], cutoff) == Since(ts, cutoff) + (if t >= cutoff then [t] else [])
  {
    assert (ts + [t])[..|ts|] == ts;
  }

  // Every time in the list is that of some call of the key.
  lemma {:induction false} TimesAreCalls(calls: seq<Call>, key: string, t: real, p: Policy)
    requires t in Times(After(calls, p), key)
    ensures exists i :: 0 <= i < |calls| && calls[i].key == key && calls[i].now == t
  {
    var front, c := calls[..|calls| - 1], calls[|calls| - 1];
    var events := After(front, p);
    if t in Times(events, key) {
      TimesAreCalls(front, key, t, p);
      var i :| 0 <= i < |front| && front[i].key == key && front[i].now == t;
      assert calls[i] == front[i];
    } else {
      assert c.key == key;
      if t in Kept(events, c, p) { SinceSubset(Times(events, key), Cutoff(c.now, p), t); }
      assert calls[|calls| - 1] == c;
    }
  }

  lemma {:induction false} SinceSubset(ts: seq<real>, cutoff: real, t: real)
    requires t in Since(ts, cutoff)
    ensures t in ts && t >= cutoff
  {
    var front := ts[..|ts| - 1];
    if t in Since(front, cutoff) { SinceSubset(front, cutoff, t); }
  }

  // Pruning first at a lower cutoff, or at one that drops nothing above the other, changes nothing.
  lemma {:induction false} SinceTwice(ts: seq<real>, a: real, b: real)
    requires forall i | 0 <= i < |ts| && ts[i] >= b :: ts[i] >= a
    ensures Since(Since(ts, a), b) == Since(ts, b)
  {
    if ts != [] {
      var front, t := ts[..|ts| - 1], ts[|ts| - 1];
      SinceTwice(front, a, b);
      if t >= a {
        SinceAppend(Since(front, a), t, b);
      } else {
        assert Since(front, a) + [] == Since(front, a) && Since(front, b) + [] == Since(front, b);
      }
    }
  }

  // No call of the key prunes an earlier one with a time from the cutoff on.
  ghost predicate Unpruned(calls: seq<Call>, key: string, cutoff: real, p: Policy) {
    forall i, j | 0 <= i < j < |calls| && calls[i].key == key && calls[j].key == key ::
      calls[i].now >= cutoff ==> calls[i].now >= Cutoff(calls[j].now, p)
  }

  // What one call leaves of the list, seen from a cutoff.
  lemma {:induction false} RecordedFrom(front: seq<Call>, call: Call, p: Policy, cutoff: real)
    requires Unpruned(front + [call], call.key, cutoff, p)
    ensures Since(Times(Recorded(After(front, p), call, p), call.key), cutoff)
            == Since(Times(After(front, p), call.key), cutoff)
               + (if Allowed(After(front, p), call, p) && call.now >= cutoff then [call.now] else [])
  {
    var events, all := After(front, p), front + [call];
    var ts, kept := Times(events, call.key), Kept(events, call, p);
    forall i | 0 <= i < |ts| && ts[i] >= cutoff ensures ts[i] >= Cutoff(call.now, p) {
      TimesAreCalls(front, call.key, ts[i], p);
      var j :| 0 <= j < |front| && front[j].key == call.key && front[j].now == ts[i];
      assert all[j] == front[j] && all[|front|] == call;
    }
    SinceTwice(ts, Cutoff(call.now, p), cutoff);
    if Allowed(events, call, p) {
      SinceAppend(kept, call.now, cutoff);
    } else {
      assert kept + [] == kept;
    }
  }

  lemma UnprunedFront(front: seq<Call>, c: Call, key: string, cutoff: real, p: Policy)
    requires Unpruned(front + [c], key, cutoff, p)
    ensures Unpruned(front, key, cutoff, p)
  {
    var all := front + [c];
    forall i, j | 0 <= i < j < |front| && front[i].key == key && front[j].key == key
      ensures front[i].now >= cutoff ==> front[i].now >= Cutoff(front[j].now, p)
    {
      assert all[i] == front[i] && all[j] == front[j];
    }
  }

  // The pruned list agrees with the full history from every cutoff above which nothing was pruned.
  lemma {:induction false} ListAgrees(calls: seq<Call>, key: string, cutoff: real, hi: real, p: Policy)
    requires Unpruned(calls, key, cutoff, p)
    requires forall i | 0 <= i < |calls| && calls[i].key == key :: calls[i].now <= hi
    ensures |Since(Times(After(calls, p), key), cutoff)| == |AcceptedIn(calls, key, cutoff, hi, p)|
  {
    if calls != [] {
      var front, c := calls[..|calls| - 1], calls[|calls| - 1];
      assert calls == front + [c];
      UnprunedFront(front, c, key, cutoff, p);
      forall i | 0 <= i < |front| && front[i].key == key ensures front[i].now <= hi { assert front[i] == calls[i]; }
      ListAgrees(front, key, cutoff, hi, p);
      AcceptedInStep(front, c, key, cutoff, hi, p);
      if c.key == key { RecordedFrom(front, c, p, cutoff); }
    }
  }

  // The clock may go back, but never behind a moment that already fell out of some window: no three
  // calls of the key such that the second is more than a period after the first and the third is not.
  ghost predicate Steady(calls: seq<Call>, key: string, p: Policy) {
    forall i, j, k | 0 <= i < j < k < |calls| && calls[i].key == key && calls[j].key == key && calls[k].key == key ::
      !(calls[j].now > calls[i].now + p.period as real >= calls[k].now)
  }

  lemma ForwardIsSteady(calls: seq<Call>, key: string, p: Policy)
    requires Forward(calls, key)
    ensures Steady(calls, key, p)
  {
  }

  lemma SteadyUnpruned(front: seq<Call>, c: Call, p: Policy)
    requires Steady(front + [c], c.key, p)
    ensures Unpruned(front, c.key, Cutoff(c.now, p), p)
  {
    var all := front + [c];
    forall i, j | 0 <= i < j < |front| && front[i].key == c.key && front[j].key == c.key
      ensures front[i].now >= Cutoff(c.now, p) ==> front[i].now >= Cutoff(front[j].now, p)
    {
      assert all[i] == front[i] && all[j] == front[j] && all[|front|] == c;
    }
  }

  // The latest time of a history.
  function Latest(calls: seq<Call>): real {
    if calls == [] then 0.0 else
    var t := Latest(calls[..|calls| - 1]);
    if calls[|calls| - 1].now > t then calls[|calls| - 1].now else t
  }

  lemma {:induction false} LatestIs(calls: seq<Call>)
    ensures forall i | 0 <= i < |calls| :: calls[i].now <= Latest(calls)
  {
    if calls != [] { LatestIs(calls[..|calls| - 1]); }
  }

  // A call is allowed exactly when fewer than limit accepted calls of the key, counted over the full
  // history, have a time from a period before it on.
  lemma {:induction false} DecisionCounts(calls: seq<Call>, call: Call, hi: real, p: Policy)
    requires Steady(calls + [call], call.key, p)
    requires forall i | 0 <= i < |calls| && calls[i].key == call.key :: calls[i].now <= hi
    ensures Allowed(After(calls, p), call, p) <==> |AcceptedIn(calls, call.key, Cutoff(call.now, p), hi, p)| < p.limit
  {
    SteadyUnpruned(calls, call, p);
    ListAgrees(calls, call.key, Cutoff(call.now, p), hi, p);
  }

  // A call is denied exactly when the closed interval of length period that ends now already holds
  // limit accepted calls of the key, counted over the full history.
  lemma {:induction false} DecisionExact(calls: seq<Call>, call: Call, p: Policy)
    requires p.period >= 0 && Forward(calls + [call], call.key)
    ensures Allowed(After(calls, p), call, p)
            <==> |AcceptedIn(calls, call.key, Cutoff(call.now, p), call.now, p)| < p.limit
  {
    var all := calls + [call];
    forall i | 0 <= i < |calls| && calls[i].key == call.key ensures calls[i].now <= call.now {
      assert all[i] == calls[i] && all[|calls|] == call;
    }
    ForwardIsSteady(all, call.key, p);
    DecisionCounts(calls, call, call.now, p);
  }

  // When the last call of a window is accepted, the window before it lies in what the limiter counted.
  lemma {:induction false} WindowBeforeCall(front: seq<Call>, c: Call, x: real, to: real, hi: real, p: Policy)
    requires x >= Cutoff(c.now, p) && forall i | 0 <= i < |front| && front[i].key == c.key :: front[i].now <= hi
    ensures |AcceptedIn(front, c.key, x, to, p)| <= |AcceptedIn(front, c.key, Cutoff(c.now, p), hi, p)|
  {
    forall i | i in AcceptedIn(front, c.key, x, to, p) ensures i in AcceptedIn(front, c.key, Cutoff(c.now, p), hi, p) {}
    SubsetSize(AcceptedIn(front, c.key, x, to, p), AcceptedIn(front, c.key, Cutoff(c.now, p), hi, p));
  }

  lemma {:induction false} WindowStep(front: seq<Call>, c: Call, x: real, p: Policy)
    requires Steady(front + [c], c.key, p)
    requires Allowed(After(front, p), c, p) && x <= c.now <= x + p.period as real
    ensures |AcceptedIn(front, c.key, x, x + p.period as real, p)| < p.limit
  {
    LatestIs(front);
    DecisionCounts(front, c, Latest(front), p);
    WindowBeforeCall(front, c, x, x + p.period as real, Latest(front), p);
  }

  lemma SteadyFront(calls: seq<Call>, n: nat, key: string, p: Policy)
    requires n <= |calls| && Steady(calls, key, p)
    ensures Steady(calls[..n], key, p)
  {
  }

  function AtMost(p: Policy): nat {
    if p.limit > 0 then p.limit else 0
  }

  // Every closed interval of length period holds at most limit accepted calls of a key.
  lemma {:induction false} WindowBound(calls: seq<Call>, key: string, x: real, p: Policy)
    requires Steady(calls, key, p)
    ensures |AcceptedIn(calls, key, x, x + p.period as real, p)| <= AtMost(p)
  {
    if calls != [] {
      var front, c := calls[..|calls| - 1], calls[|calls| - 1];
      var hi := x + p.period as real;
      assert calls == front + [c];
      SteadyFront(calls, |calls| - 1, key, p);
      WindowBound(front, key, x, p);
      AcceptedInStep(front, c, key, x, hi, p);
      if c.key == key && x <= c.now <= hi && Allowed(After(front, p), c, p) { WindowStep(front, c, x, p); }
    }
  }

  lemma SubsetSize(a: set<nat>, b: set<nat>)
    requires a <= b
    ensures |a| <= |b|
  {
    assert b == a + (b - a);
  }

  lemma {:induction false} SinceAll(ts: seq<real>, cutoff: real)
    requires forall i | 0 <= i < |ts| :: ts[i] >= cutoff
    ensures Since(ts, cutoff) == ts
  {
    if ts != [] {
      SinceAll(ts[..|ts| - 1], cutoff);
      assert ts == ts[..|ts| - 1] + [ts[|ts| - 1]];
    }
  }

  lemma {:induction false} SinceNone(ts: seq<real>, cutoff: real)
    requires forall i | 0 <= i < |ts| :: ts[i] < cutoff
    ensures Since(ts, cutoff) == []
  {
    if ts != [] { SinceNone(ts[..|ts| - 1], cutoff); }
  }

  // ----- any clock -----

  // With a limit of one the list holds the last accepted time, which is later than all before it, and
  // the next accepted call is more than a period later still.
  ghost predicate HoldsLast(calls: seq<Call>, key: string, p: Policy) {
    var ts := Times(After(calls, p), key);
    && |ts| <= 1
    && forall i: nat | i < |calls| && calls[i].key == key && AcceptedAt(calls, i, p) :: |ts| == 1 && calls[i].now <= ts[0]
  }

  lemma SinceOne(ts: seq<real>, cutoff: real)
    requires |ts| <= 1
    ensures Since(ts, cutoff) == if |ts| == 1 && ts[0] >= cutoff then ts else []
  {
    if |ts| == 1 {
      assert ts[..0] == [] && ts == [ts[0]];
      assert Since(ts[..0], cutoff) == [];
    }
  }

  lemma {:induction false} HoldsLastStep(front: seq<Call>, c: Call, p: Policy)
    requires p.period >= 0 && p.limit == 1 && HoldsLast(front, c.key, p)
    ensures HoldsLast(front + [c], c.key, p)
    ensures Allowed(After(front, p), c, p) ==>
              forall i: nat | i < |front| && front[i].key == c.key && AcceptedAt(front, i, p) :: front[i].now < Cutoff(c.now, p)
  {
    var all, ts := front + [c], Times(After(front, p), c.key);
    AfterStep(front, c, p);
    SinceOne(ts, Cutoff(c.now, p));
    hide Since, After, Cutoff;
    forall i: nat | i < |front| ensures all[i] == front[i] && (AcceptedAt(all, i, p) <==> AcceptedAt(front, i, p)) {
      AcceptedEarlier(front, c, i, p);
    }
    AcceptedNow(front, c, p);
  }

  lemma {:induction false} OtherKeyStep(front: seq<Call>, c: Call, key: string, p: Policy)
    requires HoldsLast(front, key, p) && c.key != key
    ensures HoldsLast(front + [c], key, p)
  {
    var all := front + [c];
    AfterStep(front, c, p);
    forall i: nat | i < |front| ensures all[i] == front[i] && (AcceptedAt(all, i, p) <==> AcceptedAt(front, i, p)) {
      AcceptedEarlier(front, c, i, p);
    }
  }

  lemma {:induction false} OneHoldsLast(calls: seq<Call>, key: string, p: Policy)
    requires p.period >= 0 && p.limit == 1
    ensures HoldsLast(calls, key, p)
  {
    if calls != [] {
      var front, c := calls[..|calls| - 1], calls[|calls| - 1];
      assert calls == front + [c];
      OneHoldsLast(front, key, p);
      if c.key == key { HoldsLastStep(front, c, p); } else { OtherKeyStep(front, c, key, p); }
    }
  }

  // A limit of at most one is kept whatever the clock does.
  lemma {:induction false} OnePerWindow(calls: seq<Call>, key: string, x: real, p: Policy)
    requires p.period >= 0 && p.limit <= 1
    ensures |AcceptedIn(calls, key, x, x + p.period as real, p)| <= AtMost(p)
  {
    hide After, Times, Since;
    if calls != [] {
      var front, c := calls[..|calls| - 1], calls[|calls| - 1];
      var hi := x + p.period as real;
      assert calls == front + [c];
      OnePerWindow(front, key, x, p);
      AcceptedInStep(front, c, key, x, hi, p);
      if c.key == key && x <= c.now <= hi && Allowed(After(front, p), c, p) {
        OneHoldsLast(front, key, p);
        HoldsLastStep(front, c, p);
        assert AcceptedIn(front, key, x, hi, p) == {};
      }
    }
  }

  // The same call n times more.
  function Burst(calls: seq<Call>, c: Call, n: nat): seq<Call> {
    if n == 0 then calls else Burst(calls, c, n - 1) + [c]
  }

  lemma OneMore(calls: seq<Call>, c: Call, p: Policy)
    requires var ts := Times(After(calls, p), c.key);
             (forall i | 0 <= i < |ts| :: ts[i] >= Cutoff(c.now, p)) && |ts| < p.limit
    ensures Allowed(After(calls, p), c, p)
    ensures Times(After(calls + [c], p), c.key) == Times(After(calls, p), c.key) + [c.now]
  {
    SinceAll(Times(After(calls, p), c.key), Cutoff(c.now, p));
    AfterStep(calls, c, p);
  }

  // As long as there is room, all calls of a burst are accepted.
  lemma {:induction false} BurstAccepted(calls: seq<Call>, c: Call, n: nat, p: Policy)
    requires var ts := Times(After(calls, p), c.key);
             (forall i | 0 <= i < |ts| :: ts[i] >= Cutoff(c.now, p)) && |ts| + n <= p.limit
    requires p.period >= 0
    ensures Times(After(Burst(calls, c, n), p), c.key) == Times(After(calls, p), c.key) + Copies(c.now, n)
    ensures |AcceptedIn(Burst(calls, c, n), c.key, c.now, c.now, p)| == |AcceptedIn(calls, c.key, c.now, c.now, p)| + n
  {
    hide After, Times, AcceptedIn, Allowed;
    if n > 0 {
      BurstAccepted(calls, c, n - 1, p);
      OneMore(Burst(calls, c, n - 1), c, p);
      AcceptedInStep(Burst(calls, c, n - 1), c, c.key, c.now, c.now, p);
      assert (Times(After(calls, p), c.key) + Copies(c.now, n - 1)) + [c.now] == Times(After(calls, p), c.key) + Copies(c.now, n);
    } else {
      assert Times(After(calls, p), c.key) + [] == Times(After(calls, p), c.key);
    }
  }

  // limit calls at t, one so far ahead that it prunes them, and limit - 1 more back at t
  function BackAndForth(key: string, t: real, p: Policy): seq<Call>
    requires p.limit >= 1
  {
    var c, ahead := Call(key, t), Call(key, t + p.period as real + 1.0);
    Burst(Burst([], c, p.limit) + [ahead], c, p.limit - 1)
  }

  lemma {:induction false} FarPrunes(calls: seq<Call>, c: Call, ahead: Call, p: Policy)
    requires c.key == ahead.key && p.period >= 0 && p.limit >= 1 && Cutoff(ahead.now, p) > c.now
    requires forall i | 0 <= i < |Times(After(calls, p), c.key)| :: Times(After(calls, p), c.key)[i] == c.now
    ensures Times(After(calls + [ahead], p), c.key) == [ahead.now]
    ensures AcceptedIn(calls + [ahead], c.key, c.now, c.now, p) == AcceptedIn(calls, c.key, c.now, c.now, p)
  {
    var ts := Times(After(calls, p), c.key);
    forall i | 0 <= i < |ts| ensures ts[i] < Cutoff(ahead.now, p) { assert ts[i] == c.now; }
    SinceNone(ts, Cutoff(ahead.now, p));
    AfterStep(calls, ahead, p);
    assert [] + [ahead.now] == [ahead.now];
    AcceptedInStep(calls, ahead, c.key, c.now, c.now, p);
  }

  lemma BackAgain(first: seq<Call>, c: Call, ahead: Call, p: Policy)
    requires c.key == ahead.key && p.period >= 0 && p.limit >= 1 && Cutoff(ahead.now, p) > c.now
    requires Times(After(first, p), c.key) == Copies(c.now, p.limit)
    ensures |AcceptedIn(Burst(first + [ahead], c, p.limit - 1), c.key, c.now, c.now, p)|
            == |AcceptedIn(first, c.key, c.now, c.now, p)| + p.limit - 1
  {
    hide After, Times, AcceptedIn, Allowed, Burst;
    FarPrunes(first, c, ahead, p);
    BurstAccepted(first + [ahead], c, p.limit - 1, p);
  }

  lemma NoCallsYet(key: string, t: real, p: Policy)
    ensures AcceptedIn([], key, t, t, p) == {} && Times(After([], p), key) == []
  {
  }

  // With a clock that goes back, all but one of twice the limit are accepted at one moment.
  lemma {:induction false} BackwardClockBreaksBound(key: string, t: real, p: Policy)
    requires p.period >= 0 && p.limit >= 1
    ensures |AcceptedIn(BackAndForth(key, t, p), key, t, t, p)| == 2 * p.limit - 1
  {
    hide After, Times, AcceptedIn, Allowed, Burst;
    var c, ahead := Call(key, t), Call(key, t + p.period as real + 1.0);
    NoCallsYet(key, t, p);
    BurstAccepted([], c, p.limit, p);
    assert [] + Copies(t, p.limit) == Copies(t, p.limit);
    BackAgain(Burst([], c, p.limit), c, ahead, p);
  }

  ghost predicate Bounded(calls: seq<Call>, key: string, x: real, p: Policy) {
    |AcceptedIn(calls, key, x, x + p.period as real, p)| <= AtMost(p)
  }

  // So the bound holds whatever the clock does if and only if the limit is at most one.
  lemma {:induction false} AnyClockExact(key: string, p: Policy)
    requires p.period >= 0
    ensures (forall calls, x :: Bounded(calls, key, x, p)) <==> p.limit <= 1
  {
    if p.limit <= 1 {
      forall calls, x ensures Bounded(calls, key, x, p) { OnePerWindow(calls, key, x, p); }
    } else {
      var calls, t := BackAndForth(key, 0.0, p), 0.0;
      BackwardClockBreaksBound(key, t, p);
      SubsetSize(AcceptedIn(calls, key, t, t, p), AcceptedIn(calls, key, t, t + p.period as real, p));
      assert !Bounded(calls, key, t, p);
    }
  }

  // ----- keys do not affect each other -----

  function Only(calls: seq<Call>, key: string): seq<Call> {
    if calls == [] then []
    else Only(calls[..|calls| - 1], key) + (if calls[|calls| - 1].key == key then [calls[|calls| - 1]] else [])
  }

  // What a key may do next is decided by the calls of that key alone.
  lemma {:induction false} KeysAreIndependent(calls: seq<Call>, call: Call, p: Policy)
    ensures Times(After(calls, p), call.key) == Times(After(Only(calls, call.key), p), call.key)
    ensures Allowed(After(calls, p), call, p) <==> Allowed(After(Only(calls, call.key), p), call, p)
  {
    if calls != [] {
      var front, c := calls[..|calls| - 1], calls[|calls| - 1];
      KeysAreIndependent(front, call, p);
      if c.key == call.key {
        AfterStep(Only(front, call.key), c, p);
      } else {
        assert Only(front, call.key) + [] == Only(front, call.key);
      }
    }
  }
}

module Emitter {
  import opened Basics
  import opened JsonModel
  import opened RateLimiter

  // Whether a proposal needs a human, and whether it passes the pre-queue validation.
  datatype Rules = Rules(gated: Json -> bool, valid: Json -> bool)

  datatype Request = Request(proposal: Json, key: string, now: real)

  datatype Outcome = GateRequired | RateLimited | Emitted

  predicate Passes(r: Request, rules: Rules) {
    !rules.gated(r.proposal) && rules.valid(r.proposal)
  }

  function CallOf(r: Request): Call {
    Call(r.key, r.now)
  }

  datatype Desk = Desk(events: Events, written: seq<Json>)

  function Emit(d: Desk, r: Request, rules: Rules, p: Policy): Desk {
    if !Passes(r, rules) then d
    else Desk(Recorded(d.events, CallOf(r), p),
              d.written + (if Allowed(d.events, CallOf(r), p) then [r.proposal] else []))
  }

  class QueueWriter {
    var written: seq<Json>

    constructor ()
      ensures written == []
    {
      written := [];
    }
  }

  // emit_proposal_if_allowed; Err is the exception of the validation
  method EmitProposalIfAllowed(r: Request, rules: Rules, writer: QueueWriter, limiter: Limiter) returns (o: Result<Outcome>)
    modifies writer, limiter`events
    ensures Desk(limiter.events, writer.written) == Emit(old(Desk(limiter.events, writer.written)), r, rules, limiter.p)
    ensures o.Err? <==> !rules.gated(r.proposal) && !rules.valid(r.proposal)
    ensures o == Ok(GateRequired) <==> rules.gated(r.proposal)
    ensures o == Ok(Emitted) <==> Passes(r, rules) && Allowed(old(limiter.events), CallOf(r), limiter.p)
  {
    if rules.gated(r.proposal) {
      return Ok(GateRequired);
    }
    if !rules.valid(r.proposal) {
      return Err;
    }
    var allowed := limiter.CheckAndRecord(r.key, r.now);
    if !allowed {
      return Ok(RateLimited);
    }
    writer.written := writer.written + [r.proposal];
    return Ok(Emitted);
  }

  // ----- every run -----

  function EmitAll(rs: seq<Request>, rules: Rules, p: Policy): Desk {
    if rs == [] then Desk(map[], []) else Emit(EmitAll(rs[..|rs| - 1], rules, p), rs[|rs| - 1], rules, p)
  }

  // The calls that reach the limiter.
  function Reaching(rs: seq<Request>, rules: Rules): seq<Call> {
    if rs == [] then []
    else Reaching(rs[..|rs| - 1], rules) + (if Passes(rs[|rs| - 1], rules) then [CallOf(rs[|rs| - 1])] else [])
  }

  // The writer was called in step i.
  predicate WroteAt(rs: seq<Request>, i: nat, rules: Rules, p: Policy)
    requires i < |rs|
  {
    EmitAll(rs[..i + 1], rules, p).written != EmitAll(rs[..i], rules, p).written
  }

  function WrittenIn(rs: seq<Request>, key: string, lo: real, hi: real, rules: Rules, p: Policy): set<nat> {
    set i: nat | i < |rs| && rs[i].key == key && lo <= rs[i].now <= hi && WroteAt(rs, i, rules, p)
  }

  // Gated and invalid proposals use no budget: the limiter stands as if they had never been submitted.
  lemma {:induction false} NoBudgetUsed(rs: seq<Request>, rules: Rules, p: Policy)
    ensures EmitAll(rs, rules, p).events == After(Reaching(rs, rules), p)
  {
    if rs != [] {
      var front, r := rs[..|rs| - 1], rs[|rs| - 1];
      NoBudgetUsed(front, rules, p);
      if Passes(r, rules) {
        AfterStep(Reaching(front, rules), CallOf(r), p);
      } else {
        assert Reaching(front, rules) + [] == Reaching(front, rules);
      }
    }
  }

  lemma {:induction false} WroteEarlier(rs: seq<Request>, r: Request, i: nat, rules: Rules, p: Policy)
    requires i < |rs|
    ensures WroteAt(rs + [r], i, rules, p) <==> WroteAt(rs, i, rules, p)
  {
    assert (rs + [r])[..i] == rs[..i] && (rs + [r])[..i + 1] == rs[..i + 1];
  }

  lemma {:induction false} WroteNow(rs: seq<Request>, r: Request, rules: Rules, p: Policy)
    ensures WroteAt(rs + [r], |rs|, rules, p) <==> Passes(r, rules) && Allowed(EmitAll(rs, rules, p).events, CallOf(r), p)
  {
    var all := rs + [r];
    assert all[..|rs|] == rs && all[..|rs| + 1] == all;
    var was, now := EmitAll(rs, rules, p).written, EmitAll(all, rules, p).written;
    if Passes(r, rules) && Allowed(EmitAll(rs, rules, p).events, CallOf(r), p) {
      assert |now| == |was| + 1;
    } else {
      assert was + [] == was;
    }
  }

  lemma {:induction false} WrittenInStep(rs: seq<Request>, r: Request, key: string, lo: real, hi: real, rules: Rules, p: Policy)
    ensures var grown := WrittenIn(rs + [r], key, lo, hi, rules, p);
            var was := WrittenIn(rs, key, lo, hi, rules, p);
            if r.key == key && lo <= r.now <= hi && Passes(r, rules) && Allowed(EmitAll(rs, rules, p).events, CallOf(r), p)
            then grown == was + {|rs|} && |grown| == |was| + 1 else grown == was
  {
    var all := rs + [r];
    forall i: nat | i < |rs| ensures all[i] == rs[i] && (WroteAt(all, i, rules, p) <==> WroteAt(rs, i, rules, p)) {
      WroteEarlier(rs, r, i, rules, p);
    }
    WroteNow(rs, r, rules, p);
  }

  lemma {:induction false} WrittenAreAccepted(rs: seq<Request>, key: string, lo: real, hi: real, rules: Rules, p: Policy)
    ensures |WrittenIn(rs, key, lo, hi, rules, p)| == |AcceptedIn(Reaching(rs, rules), key, lo, hi, p)|
  {
    if rs != [] {
      var front, r := rs[..|rs| - 1], rs[|rs| - 1];
      assert rs == front + [r];
      WrittenAreAccepted(front, key, lo, hi, rules, p);
      WrittenInStep(front, r, key, lo, hi, rules, p);
      NoBudgetUsed(front, rules, p);
      if Passes(r, rules) {
        AcceptedInStep(Reaching(front, rules), CallOf(r), key, lo, hi, p);
      } else {
        assert Reaching(front, rules) + [] == Reaching(front, rules);
      }
    }
  }

  ghost predicate ForwardRequests(rs: seq<Request>, key: string) {
    forall i, j | 0 <= i < j < |rs| && rs[i].key == key && rs[j].key == key :: rs[i].now <= rs[j].now
  }

  // What reaches the limiter keeps its order: each call comes from some request, later calls from later ones.
  lemma {:induction false} ReachingForward(rs: seq<Request>, key: string, rules: Rules)
    requires ForwardRequests(rs, key)
    ensures Forward(Reaching(rs, rules), key)
    ensures forall c | c in Reaching(rs, rules) :: exists i | 0 <= i < |rs| :: CallOf(rs[i]) == c
  {
    if rs != [] {
      var n := |rs| - 1;
      var front := rs[..n];
      ReachingForward(front, key, rules);
      var calls := Reaching(front, rules);
      forall c | c in Reaching(rs, rules) ensures exists i | 0 <= i < |rs| :: CallOf(rs[i]) == c {
        if c in calls {
          var i :| 0 <= i < |front| && CallOf(front[i]) == c;
          assert CallOf(rs[i]) == c;
        } else {
          assert CallOf(rs[n]) == c;
        }
      }
      forall c | c in calls && c.key == key && rs[n].key == key ensures c.now <= rs[n].now {
        var i :| 0 <= i < |front| && CallOf(front[i]) == c;
        assert rs[i] == front[i];
      }
    }
  }

  // Over every run the writer obeys the bound of the limiter: at most limit proposals of a key in any
  // closed interval of length period, as long as the clock of those that reach the limiter does not go
  // back behind a moment already pruned.
  lemma WriterBound(rs: seq<Request>, key: string, x: real, rules: Rules, p: Policy)
    requires Steady(Reaching(rs, rules), key, p)
    ensures |WrittenIn(rs, key, x, x + p.period as real, rules, p)| <= AtMost(p)
  {
    WrittenAreAccepted(rs, key, x, x + p.period as real, rules, p);
    WindowBound(Reaching(rs, rules), key, x, p);
  }

  // A clock that never goes back for the key is enough.
  lemma ForwardWriterBound(rs: seq<Request>, key: string, x: real, rules: Rules, p: Policy)
    requires ForwardRequests(rs, key)
    ensures |WrittenIn(rs, key, x, x + p.period as real, rules, p)| <= AtMost(p)
  {
    ReachingForward(rs, key, rules);
    ForwardIsSteady(Reaching(rs, rules), key, p);
    WriterBound(rs, key, x, rules, p);
  }

  // With a limit of at most one the writer obeys it whatever the clock does.
  lemma OneWritten(rs: seq<Request>, key: string, x: real, rules: Rules, p: Policy)
    requires p.period >= 0 && p.limit <= 1
    ensures |WrittenIn(rs, key, x, x + p.period as real, rules, p)| <= AtMost(p)
  {
    hide WrittenIn, AcceptedIn, Reaching;
    WrittenAreAccepted(rs, key, x, x + p.period as real, rules, p);
    OnePerWindow(Reaching(rs, rules), key, x, p);
  }

  // With a clock that does not go back for the key, a proposal is written if and only if it needs no
  // human, is valid, and fewer than limit proposals of its key were written in the closed interval of
  // length period that ends now.  It is then the one line that is added.
  lemma {:induction false} WriterExact(rs: seq<Request>, i: nat, rules: Rules, p: Policy)
    requires i < |rs| && p.period >= 0 && ForwardRequests(rs[..i + 1], rs[i].key)
    ensures var r := rs[i];
            WroteAt(rs, i, rules, p) <==>
              && !rules.gated(r.proposal) && rules.valid(r.proposal)
              && |WrittenIn(rs[..i], r.key, r.now - p.period as real, r.now, rules, p)| < p.limit
    ensures var was, now := EmitAll(rs[..i], rules, p).written, EmitAll(rs[..i + 1], rules, p).written;
            now == if WroteAt(rs, i, rules, p) then was + [rs[i].proposal] else was
  {
    hide AcceptedIn, WrittenIn, After, Allowed, Recorded, Forward, ForwardRequests;
    var front, r := rs[..i], rs[i];
    assert rs[..i + 1] == front + [r] && (front + [r])[..i] == front && (front + [r])[i] == r;
    WroteNow(front, r, rules, p);
    NoBudgetUsed(front, rules, p);
    WrittenAreAccepted(front, r.key, r.now - p.period as real, r.now, rules, p);
    if Passes(r, rules) {
      ReachingForward(front + [r], r.key, rules);
      DecisionExact(Reaching(front, rules), CallOf(r), p);
    }
  }
}
