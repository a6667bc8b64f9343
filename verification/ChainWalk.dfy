// core/validator.py and core/chain_walker.py: validating one core event and walking a chain of them.

module ChainWalk {
  import opened Basics
  import opened Text
  import opened Canonical
  import opened Hasher

  // ----- events -----

  // The locked schema id and schema hash.
  datatype Lock = Lock(schemaId: string, schemaHash: string)

  const KNOWN_DIGEST := "023ef3e62f0c31ea" + "2b813c561d413727" + "eebafb7c824d9fe5" + "74c4d7b6b5ddb258"

  const KNOWN_LOCK := Lock("JOS-JUDGMENT-COMMON-v1.0", SHA_PREFIX + KNOWN_DIGEST)

  // An event with all required fields of the right JSON types, or one without (Malformed).  Times
  // are parsed already: None does not parse.
  datatype Event =
    | Malformed
    | Event(
        eventId: string,
        key: EventKey,
        occurredAt: Option<int>,
        producedAt: Option<int>,
        prevEventId: Option<string>,
        schemaId: string,
        schemaHash: string,
        chainHash: Option<string>,
        payload: seq<Entry>)

  const OBSERVATION := "OBSERVATION"
  const AUDIT_LOGGED := "AUDIT_LOGGED"

  // What a payload of each event type must hold.
  function RequiredKeys(eventType: string): Option<seq<string>> {
    if eventType == OBSERVATION then Some(["observation_kind", "inputs", "metrics"])
    else if eventType == "EXECUTION_REQUESTED" then Some(["request_id", "execution_scope", "intent", "constraints"])
    else if eventType == "EXECUTION_AUTHORIZED" || eventType == "EXECUTION_BLOCKED" then
      Some(["decision", "reason_codes", "rule_evidence", "required_approvals"])
    else if eventType == "EXECUTION_FILLED" then Some(["fill_id", "venue", "side", "linkage"])
    else if eventType == "INVALIDATION_TRIGGERED" then
      Some(["invalidation_id", "invalidation_tag", "trigger_condition", "mandatory_action"])
    else if eventType == "HUMAN_OVERRIDE_APPLIED" then Some(["override_id", "override_type", "scope", "justification"])
    else if eventType == "OUTCOME_RECORDED" then Some(["outcome_id", "outcome_kind", "metrics", "evaluation_window"])
    else if eventType == AUDIT_LOGGED then Some(["audit_id", "audit_kind", "status"])
    else if eventType == "EXECUTION_STARTED" || eventType == "EXECUTION_COMPLETED" then Some([])
    else None
  }

  predicate NonBlank(s: string) {
    Strip(s) != []
  }

  // re.match(r"^sha256:[0-9a-f]{64}$"): "$" also matches before a last newline.
  predicate MatchesSha(s: string) {
    IsSha(s) || (s != [] && s[|s| - 1] == '\n' && IsSha(s[..|s| - 1]))
  }

  predicate SomeRef(refs: Refs) {
    refs.executionCardId.Some? || refs.parentCardId.Some? || refs.policyId.Some? || refs.runId.Some? || refs.approvalId.Some?
  }

  predicate HasPayloadKeys(payload: seq<Entry>, keys: seq<string>) {
    forall i | 0 <= i < |keys| :: exists j | 0 <= j < |payload| :: payload[j].key == StrKey(keys[i])
  }

  // validate_core_event_fail_closed, without the message
  predicate ValidEvent(ev: Event, lock: Lock, digest: Digest) {
    && ev.Event?
    && var k := ev.key;
    && RequiredKeys(k.eventType).Some?
    && MatchesSha(ev.eventId)
    && NonBlank(k.systemId) && NonBlank(k.domain) && NonBlank(k.subjectId)
    && ev.occurredAt.Some? && ev.producedAt.Some? && ev.producedAt.value >= ev.occurredAt.value
    && NonBlank(k.snapshotId)
    && (ev.prevEventId.Some? ==> NonBlank(ev.prevEventId.value))
    && k.sequenceNo >= 1
    && (k.eventType != AUDIT_LOGGED ==> SomeRef(k.refs))
    && ev.schemaId == lock.schemaId
    && MatchesSha(ev.schemaHash) && ev.schemaHash == lock.schemaHash
    && MatchesSha(k.payloadHash)
    && PayloadHash(digest, PyDict(ev.payload)) == Ok(k.payloadHash)
    && ev.eventId == EventId(digest, k)
    && HasPayloadKeys(ev.payload, RequiredKeys(k.eventType).value)
  }

  // ----- the walk -----

  datatype Note =
    EmptyChain | Invalid | SnapshotChanged | SequenceGap | GenesisHasPrev | PrevMismatch | ChainHashMismatch | Fine

  // One entry of the results: an index, whether it is a success, and why.
  datatype Finding = Finding(index: nat, ok: bool, note: Note)

  // What the walk calls on an event: the validator, and the chain hash that should follow a
  // previous one.
  datatype Calls = Calls(valid: Event -> bool, hashAfter: (Option<string>, Event) -> string)

  function CoreCalls(lock: Lock, digest: Digest): Calls {
    Calls((ev: Event) => ValidEvent(ev, lock, digest),
          (prev: Option<string>, ev: Event) =>
            if ev.Event? then ChainHash(digest, prev, ev.eventId, ev.key.payloadHash, ev.schemaHash) else "")
  }

  // strict_contiguous and verify_chain_hash_if_present
  datatype Flags = Flags(strict: bool, verify: bool)

  // The loop variables.
  datatype Walk = Walk(
    seen: Option<string>,
    expectedSeq: nat,
    prevEventId: Option<string>,
    prevChainHash: Option<string>,
    results: seq<Finding>)

  const START := Walk(None, 1, None, None, [])

  // The last chain hash carried so far: an event without one keeps the older one.
  function CarriedHash(ev: Event, prev: Option<string>): Option<string>
    requires ev.Event?
  {
    if ev.chainHash.Some? then ev.chainHash else prev
  }

  function Complain(bad: bool, i: nat, note: Note): seq<Finding> {
    if bad then [Finding(i, false, note)] else []
  }

  predicate Gap(w: Walk, ev: Event, flags: Flags)
    requires ev.Event?
  {
    flags.strict && ev.key.sequenceNo != w.expectedSeq
  }

  predicate BadPrev(w: Walk, i: nat, ev: Event)
    requires ev.Event?
  {
    if i == 0 then ev.prevEventId.Some? else ev.prevEventId != w.prevEventId
  }

  predicate BadHash(w: Walk, ev: Event, flags: Flags, calls: Calls)
    requires ev.Event?
  {
    flags.verify && ev.chainHash.Some? && ev.chainHash.value != calls.hashAfter(w.prevChainHash, ev)
  }

  function Step(w: Walk, i: nat, ev: Event, flags: Flags, calls: Calls): Walk {
    if !(ev.Event? && calls.valid(ev)) then w.(results := w.results + [Finding(i, false, Invalid)])
    else if w.seen.Some? && w.seen.value != ev.key.snapshotId then
      w.(results := w.results + [Finding(i, false, SnapshotChanged)])
    else
      Walk(Some(ev.key.snapshotId), w.expectedSeq + 1, Some(ev.eventId), CarriedHash(ev, w.prevChainHash),
           w.results + Complain(Gap(w, ev, flags), i, SequenceGap)
             + Complain(BadPrev(w, i, ev), i, if i == 0 then GenesisHasPrev else PrevMismatch)
             + Complain(BadHash(w, ev, flags, calls), i, ChainHashMismatch)
             + [Finding(i, true, Fine)])
  }

  function WalkAll(events: seq<Event>, flags: Flags, calls: Calls): Walk {
    if events == [] then START else
    var n := |events| - 1;
    Step(WalkAll(events[..n], flags, calls), n, events[n], flags, calls)
  }

  lemma WalkAllStep(events: seq<Event>, i: nat, flags: Flags, calls: Calls)
    requires i < |events|
    ensures WalkAll(events[..i + 1], flags, calls) == Step(WalkAll(events[..i], flags, calls), i, events[i], flags, calls)
  {
    hide Step;
    assert events[..i + 1][..i] == events[..i];
  }

  // walk_and_verify_chain
  method WalkAndVerify(events: seq<Event>, flags: Flags, calls: Calls) returns (results: seq<Finding>)
    ensures results == if events == [] then [Finding(0, false, EmptyChain)] else WalkAll(events, flags, calls).results
  {
    hide ValidEvent, ChainHash;
    if events == [] {
      return [Finding(0, false, EmptyChain)];
    }
    results := [];
    var seen: Option<string>, expectedSeq: nat := None, 1;
    var prevEventId: Option<string>, prevChainHash: Option<string> := None, None;
    for i := 0 to |events|
      invariant Walk(seen, expectedSeq, prevEventId, prevChainHash, results) == WalkAll(events[..i], flags, calls)
    {
      var ev := events[i];
      WalkAllStep(events, i, flags, calls);
      hide WalkAll;
      if !(ev.Event? && calls.valid(ev)) {
        results := results + [Finding(i, false, Invalid)];
        continue;
      }
      var snapshot := ev.key.snapshotId;
      if seen.None? {
        seen := Some(snapshot);
      } else if snapshot != seen.value {
        results := results + [Finding(i, false, SnapshotChanged)];
        continue;
      }
      ghost var w := WalkAll(events[..i], flags, calls);
      if flags.strict && ev.key.sequenceNo != expectedSeq {
        results := results + [Finding(i, false, SequenceGap)];
      }
      assert results == w.results + Complain(Gap(w, ev, flags), i, SequenceGap);
      expectedSeq := expectedSeq + 1;
      if i == 0 {
        if ev.prevEventId.Some? {
          results := results + [Finding(i, false, GenesisHasPrev)];
        }
      } else {
        if ev.prevEventId != prevEventId {
          results := results + [Finding(i, false, PrevMismatch)];
        }
      }
      assert results == w.results + Complain(Gap(w, ev, flags), i, SequenceGap)
                        + Complain(BadPrev(w, i, ev), i, if i == 0 then GenesisHasPrev else PrevMismatch);
      if flags.verify && ev.chainHash.Some? {
        var computed := calls.hashAfter(prevChainHash, ev);
        if ev.chainHash.value != computed {
          results := results + [Finding(i, false, ChainHashMismatch)];
        }
      }
      prevEventId := Some(ev.eventId);
      prevChainHash := if ev.chainHash.Some? then ev.chainHash else prevChainHash;
      results := results + [Finding(i, true, Fine)];
    }
    assert events[..|events|] == events;
  }

  // ----- exactly which chains pass -----

  ghost predicate NoFailure(results: seq<Finding>) {
    forall i | 0 <= i < |results| :: results[i].ok
  }

  // The chain hash in force before the event at this position.
  function HashBefore(events: seq<Event>): Option<string> {
    if events == [] then None else
    var n := |events| - 1;
    if events[n].Event? then CarriedHash(events[n], HashBefore(events[..n])) else HashBefore(events[..n])
  }

  // What a clean chain is, position by position.
  ghost predicate CleanAt(events: seq<Event>, i: nat, flags: Flags, calls: Calls)
    requires i < |events|
  {
    var ev := events[i];
    && ev.Event? && calls.valid(ev)
    && (i > 0 ==> events[i - 1].Event? && ev.key.snapshotId == events[i - 1].key.snapshotId)
    && (flags.strict ==> ev.key.sequenceNo == i + 1)
    && ev.prevEventId == (if i == 0 then None else Some(events[i - 1].eventId))
    && (flags.verify && ev.chainHash.Some? ==>
          ev.chainHash.value == calls.hashAfter(HashBefore(events[..i]), ev))
  }

  ghost predicate Clean(events: seq<Event>, flags: Flags, calls: Calls) {
    forall i | 0 <= i < |events| :: CleanAt(events, i, flags, calls)
  }

  lemma CleanPrefix(events: seq<Event>, flags: Flags, calls: Calls)
    requires events != []
    ensures Clean(events, flags, calls) <==>
              && Clean(events[..|events| - 1], flags, calls)
              && CleanAt(events, |events| - 1, flags, calls)
  {
    var front := events[..|events| - 1];
    forall i | 0 <= i < |front|
      ensures CleanAt(front, i, flags, calls) <==> CleanAt(events, i, flags, calls)
    {
      assert front[..i] == events[..i];
    }
  }

  // The loop variables after a clean chain.
  ghost predicate CleanState(events: seq<Event>, w: Walk) {
    && w.expectedSeq == |events| + 1
    && w.prevChainHash == HashBefore(events)
    && (events == [] ==> w.seen.None? && w.prevEventId.None?)
    && (events != [] ==>
          var last := events[|events| - 1];
          last.Event? && w.seen == Some(last.key.snapshotId) && w.prevEventId == Some(last.eventId))
  }

  lemma StepExact(events: seq<Event>, w: Walk, flags: Flags, calls: Calls)
    requires events != []
    requires CleanState(events[..|events| - 1], w) && NoFailure(w.results)
    ensures var n := |events| - 1;
            var w' := Step(w, n, events[n], flags, calls);
            && (NoFailure(w'.results) <==> CleanAt(events, n, flags, calls))
            && (NoFailure(w'.results) ==> CleanState(events, w'))
  {
    var n := |events| - 1;
    var ev := events[n];
    var w' := Step(w, n, ev, flags, calls);
    if ev.Event? && calls.valid(ev) && !(w.seen.Some? && w.seen.value != ev.key.snapshotId) {
      assert Gap(w, ev, flags) || BadPrev(w, n, ev) || BadHash(w, ev, flags, calls) <==> !w'.results[|w.results|].ok;
      assert |w'.results| == |w.results| + 1 <==> w'.results[|w.results|].ok;
    } else {
      assert !w'.results[|w.results|].ok;
    }
  }

  lemma ResultsGrow(w: Walk, n: nat, ev: Event, flags: Flags, calls: Calls)
    ensures w.results <= Step(w, n, ev, flags, calls).results
    ensures NoFailure(Step(w, n, ev, flags, calls).results) ==> NoFailure(w.results)
  {
    var r := Step(w, n, ev, flags, calls).results;
    assert w.results <= r;
    assert forall i | 0 <= i < |w.results| :: r[i] == w.results[i];
  }

  // The walk reports no failure exactly on clean chains.
  lemma {:induction false} WalkExact(events: seq<Event>, flags: Flags, calls: Calls)
    ensures NoFailure(WalkAll(events, flags, calls).results) <==> Clean(events, flags, calls)
    ensures Clean(events, flags, calls) ==> CleanState(events, WalkAll(events, flags, calls))
  {
    if events != [] {
      var n := |events| - 1;
      var w := WalkAll(events[..n], flags, calls);
      WalkExact(events[..n], flags, calls);
      CleanPrefix(events, flags, calls);
      ResultsGrow(w, n, events[n], flags, calls);
      if NoFailure(w.results) { StepExact(events, w, flags, calls); }
    }
  }

  // ----- the last chain hash fixes the whole history -----

  ghost predicate Carries(events: seq<Event>) {
    forall i | 0 <= i < |events| :: events[i].Event? && events[i].chainHash.Some?
  }

  function ChainText(events: seq<Event>): string
    requires events != [] && events[|events| - 1].Event?
  {
    var ev := events[|events| - 1];
    Join(ChainParts(HashBefore(events[..|events| - 1]), ev.eventId, ev.key.payloadHash, ev.schemaHash))
  }

  // Every text hashed while verifying the chain hashes and payload hashes of the chain.
  ghost function Texts(events: seq<Event>): set<string> {
    if events == [] then {} else
    var ev := events[|events| - 1];
    Texts(events[..|events| - 1])
    + (if ev.Event? then
         {ChainText(events)}
         + (if CanonicalJson(PyDict(ev.payload)).Ok? then {CanonicalJson(PyDict(ev.payload)).value} else {})
       else {})
  }

  lemma LastClean(events: seq<Event>, flags: Flags, lock: Lock, digest: Digest)
    requires ShaFormat(digest) && IsSha(lock.schemaHash) && flags.verify
    requires events != [] && Clean(events, flags, CoreCalls(lock, digest)) && Carries(events)
    ensures var ev := events[|events| - 1];
            && ev.Event? && IsSha(ev.eventId) && IsSha(ev.key.payloadHash) && IsSha(ev.schemaHash)
            && PayloadHash(digest, PyDict(ev.payload)) == Ok(ev.key.payloadHash)
            && ev.chainHash == Some(digest(ChainText(events)))
  {
    var n := |events| - 1;
    assert CleanAt(events, n, flags, CoreCalls(lock, digest));
    assert ValidEvent(events[n], lock, digest);
  }

  lemma HashBeforeIsLast(events: seq<Event>)
    requires events != [] && Carries(events)
    ensures HashBefore(events) == events[|events| - 1].chainHash
  {
  }

  // Both last events, and the chain hashes before them, are the same.
  lemma LastStepSame(a: seq<Event>, b: seq<Event>, flags: Flags, lock: Lock, digest: Digest)
    requires ShaFormat(digest) && IsSha(lock.schemaHash) && flags.verify
    requires a != [] && Clean(a, flags, CoreCalls(lock, digest)) && Carries(a)
    requires b != [] && Clean(b, flags, CoreCalls(lock, digest)) && Carries(b)
    requires OptSha(HashBefore(a[..|a| - 1])) && OptSha(HashBefore(b[..|b| - 1]))
    requires a[|a| - 1].chainHash == b[|b| - 1].chainHash
    requires CollisionFree(digest, Texts(a) + Texts(b))
    ensures a[|a| - 1].eventId == b[|b| - 1].eventId
    ensures Norm(PyDict(a[|a| - 1].payload)) == Norm(PyDict(b[|b| - 1].payload))
    ensures HashBefore(a[..|a| - 1]) == HashBefore(b[..|b| - 1])
  {
    LastClean(a, flags, lock, digest);
    LastClean(b, flags, lock, digest);
    var x, y := a[|a| - 1], b[|b| - 1];
    assert ChainText(a) in Texts(a) && ChainText(b) in Texts(b);
    ChainTextReadable(HashBefore(a[..|a| - 1]), x.eventId, x.key.payloadHash, x.schemaHash,
                      HashBefore(b[..|b| - 1]), y.eventId, y.key.payloadHash, y.schemaHash);
    PayloadHashReadable(digest, PyDict(x.payload), PyDict(y.payload));
  }

  lemma HashBeforeSha(events: seq<Event>, flags: Flags, lock: Lock, digest: Digest)
    requires ShaFormat(digest) && IsSha(lock.schemaHash) && flags.verify
    requires Clean(events, flags, CoreCalls(lock, digest)) && Carries(events)
    ensures OptSha(HashBefore(events))
    ensures HashBefore(events).None? <==> events == []
  {
    if events != [] {
      LastClean(events, flags, lock, digest);
      HashBeforeIsLast(events);
    }
  }

  // A clean chain with a chain hash on every event.
  ghost predicate Sound(events: seq<Event>, flags: Flags, lock: Lock, digest: Digest) {
    Clean(events, flags, CoreCalls(lock, digest)) && Carries(events)
  }

  lemma {:induction false} TextsPrefix(events: seq<Event>)
    requires events != []
    ensures Texts(events[..|events| - 1]) <= Texts(events)
  {
  }

  lemma SoundPrefix(events: seq<Event>, flags: Flags, lock: Lock, digest: Digest)
    requires events != [] && Sound(events, flags, lock, digest)
    ensures Sound(events[..|events| - 1], flags, lock, digest)
  {
    hide CleanAt, CoreCalls;
    CleanPrefix(events, flags, CoreCalls(lock, digest));
  }

  ghost predicate SameHistory(a: seq<Event>, b: seq<Event>) {
    && |a| == |b|
    && forall i | 0 <= i < |a| :: SameEvent(a[i], b[i])
  }

  // The same event id and the same normalised payload.
  ghost predicate SameEvent(x: Event, y: Event) {
    x.Event? && y.Event? && x.eventId == y.eventId && Norm(PyDict(x.payload)) == Norm(PyDict(y.payload))
  }

  lemma SameHistoryAppend(a: seq<Event>, b: seq<Event>)
    requires a != [] && b != [] && SameHistory(a[..|a| - 1], b[..|b| - 1]) && SameEvent(a[|a| - 1], b[|b| - 1])
    ensures SameHistory(a, b)
  {
    forall i | 0 <= i < |a| - 1 ensures SameEvent(a[i], b[i]) {
      assert a[..|a| - 1][i] == a[i] && b[..|b| - 1][i] == b[i];
    }
  }

  lemma {:induction false} SoundHistory(a: seq<Event>, b: seq<Event>, flags: Flags, lock: Lock, digest: Digest)
    requires ShaFormat(digest) && IsSha(lock.schemaHash) && flags.verify
    requires Sound(a, flags, lock, digest) && Sound(b, flags, lock, digest)
    requires HashBefore(a) == HashBefore(b)
    requires CollisionFree(digest, Texts(a) + Texts(b))
    ensures SameHistory(a, b)
    decreases |a|
  {
    HashBeforeSha(a, flags, lock, digest);
    HashBeforeSha(b, flags, lock, digest);
    if a != [] {
      var a', b' := a[..|a| - 1], b[..|b| - 1];
      HashBeforeIsLast(a);
      HashBeforeIsLast(b);
      SoundPrefix(a, flags, lock, digest);
      SoundPrefix(b, flags, lock, digest);
      TextsPrefix(a);
      TextsPrefix(b);
      HashBeforeSha(a', flags, lock, digest);
      HashBeforeSha(b', flags, lock, digest);
      LastStepSame(a, b, flags, lock, digest);
      SoundHistory(a', b', flags, lock, digest);
      SameHistoryAppend(a, b);
    }
  }

  // If the walk reports no failure on two chains that carry chain hashes throughout and end in the
  // same one, then without a hash collision they have the same length and, at each position, the
  // same event id and the same normalised payload.
  lemma {:induction false} LastHashFixesHistory(a: seq<Event>, b: seq<Event>, flags: Flags, lock: Lock, digest: Digest)
    requires ShaFormat(digest) && IsSha(lock.schemaHash) && flags.verify
    requires a != [] && NoFailure(WalkAll(a, flags, CoreCalls(lock, digest)).results) && Carries(a)
    requires b != [] && NoFailure(WalkAll(b, flags, CoreCalls(lock, digest)).results) && Carries(b)
    requires a[|a| - 1].chainHash == b[|b| - 1].chainHash
    requires CollisionFree(digest, Texts(a) + Texts(b))
    ensures |a| == |b|
    ensures forall i | 0 <= i < |a| ::
              a[i].eventId == b[i].eventId && Norm(PyDict(a[i].payload)) == Norm(PyDict(b[i].payload))
  {
    WalkExact(a, flags, CoreCalls(lock, digest));
    WalkExact(b, flags, CoreCalls(lock, digest));
    HashBeforeIsLast(a);
    HashBeforeIsLast(b);
    SoundHistory(a, b, flags, lock, digest);
    assert forall i | 0 <= i < |a| :: SameEvent(a[i], b[i]);
  }

  predicate AllHex(s: string) {
    forall c | c in s :: IsHex(c)
  }

  lemma KnownDigestIsHex()
    ensures AllHex(KNOWN_DIGEST) && |KNOWN_DIGEST| == 64
  {
    assert AllHex("023ef3e62f0c31ea");
    assert AllHex("2b813c561d413727");
    assert AllHex("eebafb7c824d9fe5");
    assert AllHex("74c4d7b6b5ddb258");
  }

  lemma PrefixedHexIsSha(hex: string)
    requires AllHex(hex) && |hex| == 64
    ensures IsSha(SHA_PREFIX + hex)
  {
    var s := SHA_PREFIX + hex;
    forall i | 7 <= i < 71 ensures IsHex(s[i]) { assert s[i] == hex[i - 7]; }
  }

  lemma KnownLockIsSha()
    ensures IsSha(KNOWN_LOCK.schemaHash)
  {
    KnownDigestIsHex();
    PrefixedHexIsSha(KNOWN_DIGEST);
  }

  // So with the locked schema of the code the last chain hash fixes the history.
  lemma {:induction false} KnownHistoryFixed(a: seq<Event>, b: seq<Event>, flags: Flags, digest: Digest)
    requires ShaFormat(digest) && flags.verify
    requires a != [] && NoFailure(WalkAll(a, flags, CoreCalls(KNOWN_LOCK, digest)).results) && Carries(a)
    requires b != [] && NoFailure(WalkAll(b, flags, CoreCalls(KNOWN_LOCK, digest)).results) && Carries(b)
    requires a[|a| - 1].chainHash == b[|b| - 1].chainHash
    requires CollisionFree(digest, Texts(a) + Texts(b))
    ensures |a| == |b|
    ensures forall i | 0 <= i < |a| ::
              a[i].eventId == b[i].eventId && Norm(PyDict(a[i].payload)) == Norm(PyDict(b[i].payload))
  {
    hide *;
    KnownLockIsSha();
    LastHashFixesHistory(a, b, flags, KNOWN_LOCK, digest);
  }
}
