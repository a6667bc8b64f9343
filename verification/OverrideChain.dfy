// tools/override/schema_override_event.py and tools/audit/verify_override_chain.py: the log of manual
// overrides, its schema, its hash chain and the references between its events.

module OverrideSchema {
  import opened Basics
  import opened JsonModel
  import opened Text

  // What an event says, once it is known to meet the schema.
  datatype Kind =
    | Requested
    | Approved(request: string, expires: int)
    | Rejected(request: string)
    | Executed(request: string, approval: string)

  datatype Event = Event(id: string, subject: string, ts: int, kind: Kind, prev: string, hash: string)

  // Parsing of a timestamp that ends in Z, as a parameter: the instant, or None.
  type Clock = string -> Option<int>

  const GENESIS := "GENESIS"

  predicate IsHexDigit(c: char) {
    '0' <= c <= '9' || 'a' <= c <= 'f' || 'A' <= c <= 'F'
  }

  // is_hex64
  predicate IsHex64(j: Json) {
    j.Str? && |j.s| == 64 && forall i | 0 <= i < 64 :: IsHexDigit(j.s[i])
  }

  // validate_isoz
  function Instant(j: Json, clock: Clock): Option<int> {
    if j.Str? && EndsWith(j.s, "Z") then clock(j.s) else None
  }

  predicate NonEmpty(j: Json) {
    j.Str? && j.s != ""
  }

  predicate OneOf(j: Json, words: seq<string>) {
    j.Str? && j.s in words
  }

  predicate NonNegative(j: Json) {
    match j
    case Int(n) => n >= 0
    case Float(text) => text != "NaN" && text != [] && (text[0] != '-' || text == "-0.0")
    case _ => false
  }

  predicate TextOrNull(j: Json) {
    j.Str? || j.Null?
  }

  // _validate_actor
  predicate ActorOk(j: Json) {
    j.Obj? && OneOf(Get(j.fields, "role"), ["operator", "approver", "policy_admin", "auditor"]) && NonEmpty(Get(j.fields, "subject"))
  }

  // _validate_target
  predicate TargetOk(j: Json) {
    j.Obj? && NonEmpty(Get(j.fields, "decision_event_id")) && IsHex64(Get(j.fields, "decision_hash"))
  }

  // A list with at least one entry, all of them non-empty strings.
  predicate NonEmptyTexts(j: Json) {
    j.Arr? && j.items != [] && forall i | 0 <= i < |j.items| :: NonEmpty(j.items[i])
  }

  // _validate_chain_pre and the hash of validate_override_event_full
  predicate ChainOk(j: Json) {
    j.Obj? && (Get(j.fields, "prev_hash") == Str(GENESIS) || IsHex64(Get(j.fields, "prev_hash"))) && IsHex64(Get(j.fields, "hash"))
  }

  // _validate_auth
  predicate AuthOk(j: Json, clock: Clock) {
    j.Null? || (
      j.Obj? && NonEmpty(Get(j.fields, "algorithm")) && NonEmpty(Get(j.fields, "key_id"))
      && NonEmpty(Get(j.fields, "signature")) && Instant(Get(j.fields, "signed_at"), clock).Some?)
  }

  // _validate_requested
  predicate RequestOk(j: Json) {
    && j.Obj?
    && OneOf(Get(j.fields, "requested_action"), ["block_execution", "force_flat", "reduce_risk", "manual_direction"])
    && OneOf(Get(j.fields, "reason_code"), ["ANOMALY_DETECTED", "POLICY_EXCEPTION", "DATA_QUALITY", "HUMAN_JUDGMENT", "OTHER"])
    && NonEmpty(Get(j.fields, "reason_text"))
    && Get(j.fields, "ttl_sec").Int? && 60 <= Get(j.fields, "ttl_sec").n <= 86400
  }

  // The constraints of an approval; the result is when it expires.
  function Expiry(j: Json, clock: Clock): Option<int> {
    if !j.Obj? then None
    else if !NonEmptyTexts(Get(j.fields, "scope")) then None
    else if !NonNegative(Get(j.fields, "max_notional")) || !TextOrNull(Get(j.fields, "notes")) then None
    else Instant(Get(j.fields, "expires_at"), clock)
  }

  // _validate_executed, past the two references
  predicate ExecutionOk(j: Json) {
    && j.Obj? && OneOf(Get(j.fields, "effect"), ["blocked", "flattened", "risk_reduced", "manual_applied"])
    && NonEmpty(Get(j.fields, "execution_intent_id"))
  }

  // ----- the keys of an event are different ones -----

  lemma CommonKeysDiffer()
    ensures "type" !in ["ts", "event_id", "actor", "policy_sha256", "target", "evidence_refs", "chain", "auth"]
    ensures "ts" !in ["event_id", "actor", "policy_sha256", "target", "evidence_refs", "chain", "auth"]
    ensures "event_id" !in ["actor", "policy_sha256", "target", "evidence_refs", "chain", "auth"]
    ensures "actor" !in ["policy_sha256", "target", "evidence_refs", "chain", "auth"]
    ensures "policy_sha256" !in ["target", "evidence_refs", "chain", "auth"]
    ensures "target" !in ["evidence_refs", "chain", "auth"]
    ensures "evidence_refs" !in ["chain", "auth"]
    ensures "chain" !in ["auth"]
  {
    assert |"ts"| == 2 && |"type"| == 4 && |"auth"| == 4 && |"chain"| == 5 && |"actor"| == 5 && |"target"| == 6;
    assert |"event_id"| == 8 && |"policy_sha256"| == 13 && |"evidence_refs"| == 13;
    assert "type"[0] == 't' && "auth"[0] == 'a' && "chain"[0] == 'c' && "actor"[0] == 'a';
    assert "policy_sha256"[0] == 'p' && "evidence_refs"[0] == 'e';
  }

  // The keys of the types, from each other and from the common ones.
  lemma OwnKeysDiffer()
    ensures "request" !in ["ref_request_event_id", "approval", "ref_approval_event_id", "execution"]
    ensures "ref_request_event_id" !in ["approval", "ref_approval_event_id", "execution"]
    ensures "approval" !in ["ref_approval_event_id", "execution"]
    ensures "ref_approval_event_id" !in ["execution"]
    ensures "type" !in ["request", "ref_request_event_id", "approval", "ref_approval_event_id", "execution"]
    ensures "ts" !in ["request", "ref_request_event_id", "approval", "ref_approval_event_id", "execution"]
    ensures "event_id" !in ["request", "ref_request_event_id", "approval", "ref_approval_event_id", "execution"]
    ensures "actor" !in ["request", "ref_request_event_id", "approval", "ref_approval_event_id", "execution"]
    ensures "policy_sha256" !in ["request", "ref_request_event_id", "approval", "ref_approval_event_id", "execution"]
    ensures "target" !in ["request", "ref_request_event_id", "approval", "ref_approval_event_id", "execution"]
    ensures "evidence_refs" !in ["request", "ref_request_event_id", "approval", "ref_approval_event_id", "execution"]
    ensures "chain" !in ["request", "ref_request_event_id", "approval", "ref_approval_event_id", "execution"]
    ensures "auth" !in ["request", "ref_request_event_id", "approval", "ref_approval_event_id", "execution"]
  {
    assert |"request"| == 7 && |"ref_request_event_id"| == 20 && |"approval"| == 8 && |"ref_approval_event_id"| == 21;
    assert |"execution"| == 9 && "approval"[0] == 'a' && "event_id"[0] == 'e';
    assert |"ts"| == 2 && |"type"| == 4 && |"auth"| == 4 && |"chain"| == 5 && |"actor"| == 5 && |"target"| == 6;
    assert |"event_id"| == 8 && |"policy_sha256"| == 13 && |"evidence_refs"| == 13;
  }

  // The keys within the parts of an event, part by part.
  lemma InnerKeysDiffer()
    ensures "prev_hash" != "hash" && "role" != "subject" && "decision_event_id" != "decision_hash"
    ensures "requested_action" !in ["reason_code", "reason_text", "ttl_sec"] && "reason_code" !in ["reason_text", "ttl_sec"]
    ensures "reason_text" != "ttl_sec" && "decision" != "constraints" && "effect" != "execution_intent_id"
    ensures "scope" !in ["expires_at", "max_notional", "notes"] && "expires_at" !in ["max_notional", "notes"]
    ensures "max_notional" != "notes"
  {
    assert |"hash"| == 4 && |"prev_hash"| == 9 && |"role"| == 4 && |"subject"| == 7;
    assert |"decision_event_id"| == 17 && |"decision_hash"| == 13 && |"decision"| == 8 && |"constraints"| == 11;
    assert |"requested_action"| == 16 && "reason_code"[7] == 'c' && "reason_text"[7] == 't' && |"ttl_sec"| == 7;
    assert |"reason_code"| == 11 && |"reason_text"| == 11 && |"effect"| == 6 && |"execution_intent_id"| == 19;
    assert |"scope"| == 5 && |"expires_at"| == 10 && |"max_notional"| == 12 && |"notes"| == 5 && "notes"[0] == 'n';
  }

  lemma TypesDiffer()
    ensures "OVERRIDE_REQUESTED" !in ["OVERRIDE_APPROVED", "OVERRIDE_REJECTED", "OVERRIDE_EXECUTED"]
    ensures "OVERRIDE_APPROVED" !in ["OVERRIDE_REJECTED", "OVERRIDE_EXECUTED"] && "OVERRIDE_REJECTED" != "OVERRIDE_EXECUTED"
  {
    assert |"OVERRIDE_REQUESTED"| == 18 && |"OVERRIDE_APPROVED"| == 17 && |"OVERRIDE_REJECTED"| == 17 && |"OVERRIDE_EXECUTED"| == 17;
    assert "OVERRIDE_APPROVED"[9] == 'A' && "OVERRIDE_REJECTED"[9] == 'R' && "OVERRIDE_EXECUTED"[9] == 'E';
  }

  // The part of an event that depends on its type.
  function KindOf(ev: map<string, Json>, clock: Clock): Option<Kind> {
    var t, request, approval := Get(ev, "type"), Get(ev, "ref_request_event_id"), Get(ev, "approval");
    if t == Str("OVERRIDE_REQUESTED") then
      if RequestOk(Get(ev, "request")) then Some(Requested) else None
    else if t == Str("OVERRIDE_APPROVED") then
      if !NonEmpty(request) || !approval.Obj? || Get(approval.fields, "decision") != Str("approved") then None else
      var expires := Expiry(Get(approval.fields, "constraints"), clock);
      if expires.Some? then Some(Approved(request.s, expires.value)) else None
    else if t == Str("OVERRIDE_REJECTED") then
      if !NonEmpty(request) || !approval.Obj? || Get(approval.fields, "decision") != Str("rejected") then None
      else if !Get(approval.fields, "constraints").Null? || !TextOrNull(Get(approval.fields, "notes")) then None
      else Some(Rejected(request.s))
    else if t == Str("OVERRIDE_EXECUTED") then
      var ref := Get(ev, "ref_approval_event_id");
      if NonEmpty(request) && NonEmpty(ref) && ExecutionOk(Get(ev, "execution")) then Some(Executed(request.s, ref.s)) else None
    else None
  }

  predicate CommonOk(ev: map<string, Json>, clock: Clock) {
    && "auth" in ev
    && NonEmpty(Get(ev, "event_id")) && ActorOk(Get(ev, "actor")) && IsHex64(Get(ev, "policy_sha256"))
    && TargetOk(Get(ev, "target")) && NonEmptyTexts(Get(ev, "evidence_refs")) && ChainOk(Get(ev, "chain"))
    && AuthOk(Get(ev, "auth"), clock)
  }

  // validate_override_event_full; None is the SystemExit, or the TypeError of looking up a list in a
  // set of words.
  function Decode(j: Json, clock: Clock): (r: Option<Event>)
    ensures r.Some? ==> IsHex64(Str(r.value.hash)) && (r.value.prev == GENESIS || IsHex64(Str(r.value.prev)))
    ensures r.Some? ==> j.Obj? && ChainOk(Get(j.fields, "chain"))
                        && Get(Get(j.fields, "chain").fields, "hash") == Str(r.value.hash)
                        && Get(Get(j.fields, "chain").fields, "prev_hash") == Str(r.value.prev)
  {
    if !j.Obj? || !CommonOk(j.fields, clock) then None else
    var ts, kind, chain := Instant(Get(j.fields, "ts"), clock), KindOf(j.fields, clock), Get(j.fields, "chain").fields;
    if ts.None? || kind.None? then None
    else Some(Event(Get(j.fields, "event_id").s, Get(Get(j.fields, "actor").fields, "subject").s, ts.value, kind.value,
                    Get(chain, "prev_hash").s, Get(chain, "hash").s))
  }
}

module OverrideChain {
  import opened Basics
  import opened JsonModel
  import opened Readable
  import opened OverrideSchema

  // How an event is read, and the digest.
  datatype World = World(decode: Json -> Option<Event>, digest: string -> string)

  function OverrideWorld(clock: Clock, digest: string -> string): World {
    World((j: Json) => Decode(j, clock), digest)
  }

  // The hashes that are read are those of the event, and have the format of hashes.
  ghost predicate Faithful(w: World) {
    forall j | w.decode(j).Some? :: ChainRead(j, w.decode(j).value)
  }

  ghost predicate ChainRead(j: Json, e: Event) {
    && j.Obj? && Get(j.fields, "chain").Obj?
    && Get(Get(j.fields, "chain").fields, "hash") == Str(e.hash)
    && Get(Get(j.fields, "chain").fields, "prev_hash") == Str(e.prev)
    && |e.hash| == 64 && (e.prev == GENESIS || |e.prev| == 64)
  }

  lemma {:induction false} OverrideWorldFaithful(clock: Clock, digest: string -> string)
    ensures Faithful(OverrideWorld(clock, digest))
  {
  }

  // ----- the chain -----

  // The event without its own hash.
  function Payload(j: Json): Json {
    if !j.Obj? || !Get(j.fields, "chain").Obj? then j
    else Obj(j.fields["chain" := Obj(Get(j.fields, "chain").fields - {"hash"})])
  }

  function SealText(j: Json, prev: string, w: World): string {
    prev + ":" + w.digest(Print(Payload(j)))
  }

  // What the hash of an event has to be.
  function Seal(j: Json, prev: string, w: World): string {
    w.digest(SealText(j, prev, w))
  }

  ghost predicate AllValid(log: seq<Json>, w: World) {
    forall i | 0 <= i < |log| :: w.decode(log[i]).Some?
  }

  ghost function Decoded(log: seq<Json>, w: World): (es: seq<Event>)
    requires AllValid(log, w)
    ensures |es| == |log| && forall i | 0 <= i < |log| :: w.decode(log[i]) == Some(es[i])
  {
    seq(|log|, i requires 0 <= i < |log| && AllValid(log, w) => w.decode(log[i]).value)
  }

  ghost predicate LinkedAt(log: seq<Json>, es: seq<Event>, i: nat, w: World)
    requires i < |log| && i < |es|
  {
    && es[i].prev == (if i == 0 then GENESIS else es[i - 1].hash)
    && es[i].hash == Seal(log[i], es[i].prev, w)
  }

  ghost predicate Linked(log: seq<Json>, es: seq<Event>, w: World) {
    |log| == |es| && forall i: nat | i < |log| :: LinkedAt(log, es, i, w)
  }

  ghost predicate UniqueIds(es: seq<Event>) {
    forall i, j | 0 <= i < j < |es| :: es[i].id != es[j].id
  }

  // ----- the references -----

  ghost predicate IsRequest(es: seq<Event>, i: int, id: string) {
    0 <= i < |es| && es[i].id == id && es[i].kind.Requested?
  }

  ghost predicate IsApproval(es: seq<Event>, i: int, id: string, request: string) {
    0 <= i < |es| && es[i].id == id && es[i].kind.Approved? && es[i].kind.request == request
  }

  ghost predicate RefsHold(es: seq<Event>, e: Event) {
    match e.kind
    case Requested => true
    case Approved(request, expires) =>
      e.ts < expires && exists i :: IsRequest(es, i, request) && es[i].subject != e.subject
    case Rejected(request) => exists i :: IsRequest(es, i, request) && es[i].subject != e.subject
    case Executed(request, approval) =>
      && (exists i :: IsRequest(es, i, request))
      && (exists j :: IsApproval(es, j, approval, request) && e.ts <= es[j].kind.expires)
  }

  // The log as it should be.
  ghost predicate Sound(log: seq<Json>, w: World) {
    && log != [] && AllValid(log, w)
    && var es := Decoded(log, w);
       Linked(log, es, w) && UniqueIds(es) && forall i | 0 <= i < |es| :: RefsHold(es, es[i])
  }

  // ----- the code -----

  datatype Report = Report(rows: nat, head: string, tail: string)

  ghost predicate ReadSoFar(log: seq<Json>, es: seq<Event>, w: World) {
    && |es| <= |log|
    && (forall i | 0 <= i < |es| :: w.decode(log[i]) == Some(es[i]))
    && (forall i: nat | i < |es| :: LinkedAt(log, es, i, w))
  }

  predicate Follows(j: Json, e: Event, prev: string, w: World) {
    e.prev == prev && e.hash == Seal(j, e.prev, w)
  }

  function LastHash(es: seq<Event>): string {
    if es == [] then GENESIS else es[|es| - 1].hash
  }

  lemma ReadStep(log: seq<Json>, es: seq<Event>, e: Event, w: World)
    requires ReadSoFar(log, es, w) && |es| < |log| && w.decode(log[|es|]) == Some(e)
    requires Follows(log[|es|], e, LastHash(es), w)
    ensures ReadSoFar(log, es + [e], w)
  {
    var more := es + [e];
    forall i: nat | i < |more| ensures LinkedAt(log, more, i, w) {
      if i < |es| { assert LinkedAt(log, es, i, w); }
    }
  }

  lemma ReadFails(log: seq<Json>, es: seq<Event>, e: Event, w: World)
    requires ReadSoFar(log, es, w) && |es| < |log| && w.decode(log[|es|]) == Some(e)
    requires !Follows(log[|es|], e, LastHash(es), w)
    ensures !(AllValid(log, w) && Linked(log, Decoded(log, w), w))
  {
    if AllValid(log, w) {
      var all, n := Decoded(log, w), |es|;
      assert w.decode(log[n]) == Some(all[n]);
      assert n > 0 ==> w.decode(log[n - 1]) == Some(all[n - 1]);
      assert !LinkedAt(log, all, n, w);
    }
  }

  lemma ReadDone(log: seq<Json>, es: seq<Event>, w: World)
    requires ReadSoFar(log, es, w) && |es| == |log|
    ensures AllValid(log, w) && es == Decoded(log, w) && Linked(log, es, w)
  {
  }

  // The first loop: the events, or Err.
  method ReadEvents(log: seq<Json>, w: World) returns (r: Result<seq<Event>>)
    ensures r.Ok? <==> AllValid(log, w) && Linked(log, Decoded(log, w), w)
    ensures r.Ok? ==> r.value == Decoded(log, w)
  {
    var events: seq<Event>, prev: Option<string> := [], None;
    for i := 0 to |log|
      invariant |events| == i && ReadSoFar(log, events, w)
      invariant prev == if i == 0 then None else Some(LastHash(events))
    {
      var decoded := w.decode(log[i]);
      if decoded.None? {
        return Err;
      }
      var e := decoded.value;
      if e.prev != (if prev == None then GENESIS else prev.value) {
        ReadFails(log, events, e, w);
        return Err;
      }
      if Seal(log[i], e.prev, w) != e.hash {
        ReadFails(log, events, e, w);
        return Err;
      }
      ReadStep(log, events, e, w);
      events := events + [e];
      prev := Some(e.hash);
    }
    ReadDone(log, events, w);
    return Ok(events);
  }

  ghost predicate Indexes(byId: map<string, Event>, es: seq<Event>) {
    && (forall id | id in byId :: exists i :: 0 <= i < |es| && es[i] == byId[id] && es[i].id == id)
    && (forall i | 0 <= i < |es| :: es[i].id in byId && byId[es[i].id] == es[i])
  }

  // The second loop: events by id, None when an id is there twice.
  method IndexEvents(es: seq<Event>) returns (r: Option<map<string, Event>>)
    ensures r.Some? <==> UniqueIds(es)
    ensures r.Some? ==> Indexes(r.value, es)
  {
    var byId: map<string, Event> := map[];
    for i := 0 to |es|
      invariant UniqueIds(es[..i]) && Indexes(byId, es[..i])
    {
      if es[i].id in byId {
        ghost var j :| 0 <= j < i && es[..i][j].id == es[i].id;
        assert es[j].id == es[i].id;
        return None;
      }
      IndexStep(byId, es[..i], es[i]);
      assert es[..i + 1] == es[..i] + [es[i]];
      byId := byId[es[i].id := es[i]];
    }
    assert es[..|es|] == es;
    return Some(byId);
  }

  lemma IndexStep(byId: map<string, Event>, es: seq<Event>, e: Event)
    requires UniqueIds(es) && Indexes(byId, es) && e.id !in byId
    ensures UniqueIds(es + [e]) && Indexes(byId[e.id := e], es + [e])
  {
    var grown, after := es + [e], byId[e.id := e];
    forall id | id in after ensures exists i :: 0 <= i < |grown| && grown[i] == after[id] && grown[i].id == id {
      if id == e.id {
        assert grown[|es|] == e;
      } else {
        var i :| 0 <= i < |es| && es[i] == byId[id] && es[i].id == id;
        assert grown[i] == es[i];
      }
    }
  }

  // req is None or of another type
  predicate NoRequest(byId: map<string, Event>, id: string) {
    id !in byId || !byId[id].kind.Requested?
  }

  lemma RequestByIndex(byId: map<string, Event>, es: seq<Event>, id: string)
    requires Indexes(byId, es)
    ensures NoRequest(byId, id) <==> !exists i :: IsRequest(es, i, id)
    ensures forall i | IsRequest(es, i, id) :: id in byId && es[i] == byId[id]
  {
    if !NoRequest(byId, id) {
      var i :| 0 <= i < |es| && es[i] == byId[id];
      assert IsRequest(es, i, id);
    }
  }

  lemma ApprovalByIndex(byId: map<string, Event>, es: seq<Event>, id: string, request: string)
    requires Indexes(byId, es)
    ensures id in byId && byId[id].kind.Approved? && byId[id].kind.request == request <==> exists j :: IsApproval(es, j, id, request)
    ensures forall j | IsApproval(es, j, id, request) :: id in byId && es[j] == byId[id]
  {
    if id in byId && byId[id].kind.Approved? && byId[id].kind.request == request {
      var j :| 0 <= j < |es| && es[j] == byId[id];
      assert IsApproval(es, j, id, request);
    }
  }

  // The checks of the last loop on one event.
  method CheckRefs(byId: map<string, Event>, ghost es: seq<Event>, e: Event) returns (ok: bool)
    requires Indexes(byId, es)
    ensures ok <==> RefsHold(es, e)
  {
    if e.kind.Approved? || e.kind.Rejected? {
      var request := e.kind.request;
      RequestByIndex(byId, es, request);
      if NoRequest(byId, request) {
        return false;
      }
      if byId[request].subject == e.subject {
        return false;
      }
      if e.kind.Approved? {
        if e.kind.expires <= e.ts {
          return false;
        }
      }
    }
    if e.kind.Executed? {
      var request, approval := e.kind.request, e.kind.approval;
      RequestByIndex(byId, es, request);
      ApprovalByIndex(byId, es, approval, request);
      if NoRequest(byId, request) {
        return false;
      }
      if approval !in byId || !byId[approval].kind.Approved? {
        return false;
      }
      if byId[approval].kind.request != request {
        return false;
      }
      if e.ts > byId[approval].kind.expires {
        return false;
      }
    }
    return true;
  }

  // The last loop.
  method CheckAllRefs(byId: map<string, Event>, es: seq<Event>) returns (ok: bool)
    requires Indexes(byId, es)
    ensures ok <==> forall i | 0 <= i < |es| :: RefsHold(es, es[i])
  {
    for i := 0 to |es|
      invariant forall j | 0 <= j < i :: RefsHold(es, es[j])
    {
      var holds := CheckRefs(byId, es, es[i]);
      if !holds {
        return false;
      }
    }
    return true;
  }

  // verify_chain; Err is a SystemExit.  It accepts exactly the sound logs.
  method VerifyChain(log: seq<Json>, w: World) returns (r: Result<Report>)
    ensures r.Ok? <==> Sound(log, w)
    ensures r.Ok? ==> r.value == Report(|log|, Decoded(log, w)[0].hash, Decoded(log, w)[|log| - 1].hash)
  {
    if log == [] {
      return Err;
    }
    var read := ReadEvents(log, w);
    if read.Err? {
      return Err;
    }
    var es := read.value;
    var byId := IndexEvents(es);
    if byId.None? {
      return Err;
    }
    var ok := CheckAllRefs(byId.value, es);
    if !ok {
      return Err;
    }
    return Ok(Report(|es|, es[0].hash, es[|es| - 1].hash));
  }

  // ----- what acceptance means -----

  // Everything an executed override stands on.
  ghost predicate Authorised(es: seq<Event>, e: Event, i: int, j: int) {
    && 0 <= i < |es| && 0 <= j < |es| && e.kind.Executed?
    && es[i].kind.Requested? && es[i].id == e.kind.request
    && es[j].kind.Approved? && es[j].id == e.kind.approval && es[j].kind.request == es[i].id
    && es[j].subject != es[i].subject
    && es[j].ts < es[j].kind.expires
    && e.ts <= es[j].kind.expires
  }

  // Every executed override of an accepted log has one request and one approval of that same request,
  // by someone else, given before it expires; and it was executed no later than that.
  lemma ExecutedWasAuthorised(log: seq<Json>, w: World, k: nat)
    requires Sound(log, w) && k < |log| && Decoded(log, w)[k].kind.Executed?
    ensures var es := Decoded(log, w);
            exists i, j :: Authorised(es, es[k], i, j)
                           && forall i', j' | Authorised(es, es[k], i', j') :: i' == i && j' == j
  {
    var es := Decoded(log, w);
    var e := es[k];
    assert RefsHold(es, e);
    var i :| IsRequest(es, i, e.kind.request);
    var j :| IsApproval(es, j, e.kind.approval, e.kind.request) && e.ts <= es[j].kind.expires;
    assert RefsHold(es, es[j]);
    var r :| IsRequest(es, r, es[j].kind.request) && es[r].subject != es[j].subject;
    assert r == i;
    assert Authorised(es, e, i, j);
    forall i', j' | Authorised(es, e, i', j') ensures i' == i && j' == j {
      assert es[i'].id == es[i].id && es[j'].id == es[j].id;
    }
  }

  // The references do not depend on the order of the log; module OverrideOrder says what follows for
  // accepted logs.
  lemma RefsIgnoreOrder(es: seq<Event>, fs: seq<Event>, e: Event)
    requires multiset(es) == multiset(fs)
    ensures RefsHold(es, e) <==> RefsHold(fs, e)
  {
    assert forall i | 0 <= i < |es| :: es[i] in multiset(es) && es[i] in multiset(fs);
    assert forall i | 0 <= i < |fs| :: fs[i] in multiset(fs) && fs[i] in multiset(es);
    RefsInclude(es, fs, e);
    RefsInclude(fs, es, e);
  }

  lemma RefsInclude(es: seq<Event>, fs: seq<Event>, e: Event)
    requires forall i | 0 <= i < |es| :: es[i] in fs
    ensures RefsHold(es, e) ==> RefsHold(fs, e)
  {
    if RefsHold(es, e) && !e.kind.Requested? {
      var request := e.kind.request;
      var i :| IsRequest(es, i, request) && (e.kind.Executed? || es[i].subject != e.subject);
      var i': nat :| i' < |fs| && fs[i'] == es[i];
      assert IsRequest(fs, i', request);
      if e.kind.Executed? {
        var j :| IsApproval(es, j, e.kind.approval, request) && e.ts <= es[j].kind.expires;
        var j': nat :| j' < |fs| && fs[j'] == es[j];
        assert IsApproval(fs, j', e.kind.approval, request);
      }
    }
  }

  // ----- the tail hash fixes the log -----

  // The texts hashed for one event.
  ghost function Texts(log: seq<Json>, w: World): set<string>
    requires AllValid(log, w)
  {
    (set i | 0 <= i < |log| :: Print(Payload(log[i])))
    + (set i | 0 <= i < |log| :: SealText(log[i], Decoded(log, w)[i].prev, w))
  }

  ghost predicate CollisionFree(digest: string -> string, texts: set<string>) {
    && (forall s, t | s in texts && t in texts :: digest(s) == digest(t) ==> s == t)
    && (forall s | s in texts :: |digest(s)| == 64)
  }

  // An event is its payload and its hash.
  lemma FromPayload(a: Json, b: Json, w: World)
    requires Faithful(w) && w.decode(a).Some? && w.decode(b).Some?
    requires Payload(a) == Payload(b) && w.decode(a).value.hash == w.decode(b).value.hash
    ensures a == b
  {
    assert ChainRead(a, w.decode(a).value) && ChainRead(b, w.decode(b).value);
    var f, g := a.fields, b.fields;
    var c, d := Get(f, "chain").fields, Get(g, "chain").fields;
    var f', g' := f["chain" := Obj(c - {"hash"})], g["chain" := Obj(d - {"hash"})];
    assert f' == g' && f'["chain"] == g'["chain"];
    forall k | k in c || k in d ensures k in c && k in d && c[k] == d[k] {
      if k != "hash" { assert k in c - {"hash"} <==> k in d - {"hash"}; }
    }
    assert c == d;
    forall k | k in f || k in g ensures k in f && k in g && f[k] == g[k] {
      if k != "chain" { assert k in f' <==> k in g'; }
    }
    assert f == g;
  }

  lemma SealReadable(a: Json, p: string, b: Json, q: string, w: World, texts: set<string>)
    requires CollisionFree(w.digest, texts)
    requires {Print(Payload(a)), Print(Payload(b)), SealText(a, p, w), SealText(b, q, w)} <= texts
    requires Seal(a, p, w) == Seal(b, q, w)
    ensures p == q && Payload(a) == Payload(b)
  {
    var x, y := w.digest(Print(Payload(a))), w.digest(Print(Payload(b)));
    assert p + ":" + x == q + ":" + y;
    assert |p + ":"| == |q + ":"|;
    SplitSame(p + ":", q + ":", x, y);
    SplitSame(p, q, ":", ":");
    PrintInjective(Payload(a), Payload(b));
  }

  lemma EventTexts(log: seq<Json>, i: nat, w: World, texts: set<string>)
    requires AllValid(log, w) && i < |log| && Texts(log, w) <= texts
    ensures Print(Payload(log[i])) in texts && SealText(log[i], Decoded(log, w)[i].prev, w) in texts
  {
    assert Print(Payload(log[i])) in Texts(log, w);
    assert SealText(log[i], Decoded(log, w)[i].prev, w) in Texts(log, w);
  }

  ghost predicate Chained(log: seq<Json>, w: World, texts: set<string>) {
    Faithful(w) && AllValid(log, w) && Linked(log, Decoded(log, w), w) && Texts(log, w) <= texts
  }

  ghost function HashAt(log: seq<Json>, i: int, w: World): string
    requires 0 <= i < |log| && AllValid(log, w)
  {
    Decoded(log, w)[i].hash
  }

  lemma SameAt(a: seq<Json>, i: nat, b: seq<Json>, j: nat, w: World, texts: set<string>)
    requires CollisionFree(w.digest, texts) && Chained(a, w, texts) && Chained(b, w, texts)
    requires i < |a| && j < |b| && HashAt(a, i, w) == HashAt(b, j, w)
    ensures a[i] == b[j] && (i == 0 <==> j == 0)
    ensures i > 0 && j > 0 ==> HashAt(a, i - 1, w) == HashAt(b, j - 1, w)
  {
    var es, fs := Decoded(a, w), Decoded(b, w);
    assert LinkedAt(a, es, i, w) && LinkedAt(b, fs, j, w);
    EventTexts(a, i, w, texts);
    EventTexts(b, j, w, texts);
    SealReadable(a[i], es[i].prev, b[j], fs[j].prev, w, texts);
    FromPayload(a[i], b[j], w);
    assert |GENESIS| != 64;
    if i > 0 { assert ChainRead(a[i - 1], es[i - 1]); }
    if j > 0 { assert ChainRead(b[j - 1], fs[j - 1]); }
  }

  // What SameAt says of every pair of positions.
  ghost predicate SameFrom(a: seq<Json>, b: seq<Json>, f: int -> string, g: int -> string) {
    forall i: nat, j: nat | i < |a| && j < |b| && f(i) == g(j) ::
      a[i] == b[j] && (i == 0 <==> j == 0) && (i > 0 && j > 0 ==> f(i - 1) == g(j - 1))
  }

  // The events back from two equal hashes agree, down to the first one.
  lemma {:induction false} SameHistory(a: seq<Json>, i: nat, b: seq<Json>, j: nat, f: int -> string, g: int -> string)
    requires SameFrom(a, b, f, g) && i < |a| && j < |b| && f(i) == g(j)
    ensures i == j && a[..i + 1] == b[..j + 1]
    decreases i
  {
    assert a[..i + 1] == a[..i] + [a[i]] && b[..j + 1] == b[..j] + [b[j]];
    if i > 0 { SameHistory(a, i - 1, b, j - 1, f, g); }
  }

  ghost function Hashes(log: seq<Json>, w: World): int -> string {
    i => if 0 <= i < |log| && AllValid(log, w) then HashAt(log, i, w) else ""
  }

  lemma ChainedIsValid(log: seq<Json>, w: World, texts: set<string>)
    requires Chained(log, w, texts)
    ensures AllValid(log, w)
  {
  }

  lemma SameEverywhere(a: seq<Json>, b: seq<Json>, w: World, texts: set<string>)
    requires CollisionFree(w.digest, texts) && Chained(a, w, texts) && Chained(b, w, texts)
    ensures SameFrom(a, b, Hashes(a, w), Hashes(b, w))
  {
    hide Chained, CollisionFree, HashAt;
    ChainedIsValid(a, w, texts);
    ChainedIsValid(b, w, texts);
    var f, g := Hashes(a, w), Hashes(b, w);
    forall i: nat, j: nat | i < |a| && j < |b| && f(i) == g(j)
      ensures a[i] == b[j] && (i == 0 <==> j == 0) && (i > 0 && j > 0 ==> f(i - 1) == g(j - 1))
    {
      SameAt(a, i, b, j, w, texts);
    }
  }

  lemma SameWhole(a: seq<Json>, b: seq<Json>, f: int -> string, g: int -> string)
    requires SameFrom(a, b, f, g) && a != [] && b != [] && f(|a| - 1) == g(|b| - 1)
    ensures a == b
  {
    SameHistory(a, |a| - 1, b, |b| - 1, f, g);
    assert a[..|a|] == a && b[..|b|] == b;
  }

  lemma SameTail(a: seq<Json>, b: seq<Json>, w: World, texts: set<string>)
    requires CollisionFree(w.digest, texts) && Chained(a, w, texts) && Chained(b, w, texts)
    requires a != [] && b != [] && HashAt(a, |a| - 1, w) == HashAt(b, |b| - 1, w)
    ensures a == b
  {
    hide Linked, Faithful, CollisionFree, Texts;
    SameEverywhere(a, b, w, texts);
    assert Hashes(a, w)(|a| - 1) == HashAt(a, |a| - 1, w);
    assert Hashes(b, w)(|b| - 1) == HashAt(b, |b| - 1, w);
    SameWhole(a, b, Hashes(a, w), Hashes(b, w));
  }

  lemma SoundIsChained(log: seq<Json>, w: World, texts: set<string>)
    requires Faithful(w) && Sound(log, w) && Texts(log, w) <= texts
    ensures log != [] && Chained(log, w, texts)
  {
  }

  // Two accepted logs that end in the same hash are the same log, as long as the digest has no
  // collision among the texts hashed.
  lemma {:induction false} TailFixesLog(a: seq<Json>, b: seq<Json>, w: World)
    requires Faithful(w) && Sound(a, w) && Sound(b, w)
    requires HashAt(a, |a| - 1, w) == HashAt(b, |b| - 1, w)
    requires CollisionFree(w.digest, Texts(a, w) + Texts(b, w))
    ensures a == b
  {
    var texts := Texts(a, w) + Texts(b, w);
    SoundIsChained(a, w, texts);
    SoundIsChained(b, w, texts);
    SameTail(a, b, w, texts);
  }

  // The same for the schema as it is.
  lemma {:induction false} TailFixesOverrideLog(a: seq<Json>, b: seq<Json>, clock: Clock, digest: string -> string)
    requires var w := OverrideWorld(clock, digest);
             && Sound(a, w) && Sound(b, w)
             && HashAt(a, |a| - 1, w) == HashAt(b, |b| - 1, w)
             && CollisionFree(digest, Texts(a, w) + Texts(b, w))
    ensures a == b
  {
    OverrideWorldFaithful(clock, digest);
    TailFixesLog(a, b, OverrideWorld(clock, digest));
  }

  // ----- the references, looked up by id -----

  ghost predicate Present(es: seq<Event>, id: string) {
    exists i :: 0 <= i < |es| && es[i].id == id
  }

  // The request an event names is there, and whatever has that id is a request, and by someone else
  // where that is asked.
  ghost predicate NamesRequest(es: seq<Event>, id: string, other: Option<string>) {
    Present(es, id) && forall r | r in es && r.id == id :: r.kind == Requested && (other.Some? ==> r.subject != other.value)
  }

  // The approval an execution names is there, and whatever has that id approves that request and has
  // not ended.
  ghost predicate NamesApproval(es: seq<Event>, id: string, request: string, now: int) {
    Present(es, id) && forall a | a in es && a.id == id :: a.kind.Approved? && a.kind.request == request && now <= a.kind.expires
  }

  // Where ids are distinct, the references of an event hold if and only if looking them up finds what
  // they name.
  lemma {:induction false} RefsExact(es: seq<Event>, e: Event)
    requires UniqueIds(es)
    ensures e.kind.Requested? ==> RefsHold(es, e)
    ensures e.kind.Approved? ==> (RefsHold(es, e) <==> NamesRequest(es, e.kind.request, Some(e.subject)) && e.ts < e.kind.expires)
    ensures e.kind.Rejected? ==> (RefsHold(es, e) <==> NamesRequest(es, e.kind.request, Some(e.subject)))
    ensures e.kind.Executed? ==>
              (RefsHold(es, e) <==> NamesRequest(es, e.kind.request, None) && NamesApproval(es, e.kind.approval, e.kind.request, e.ts))
  {
    if !e.kind.Requested? {
      RequestFound(es, e.kind.request, e.subject);
      if e.kind.Executed? { ApprovalFound(es, e.kind.approval, e.kind.request, e.ts); }
    }
    hide NamesRequest, NamesApproval, IsRequest, IsApproval;
  }

  lemma OneWithId(es: seq<Event>, i: nat, r: Event)
    requires UniqueIds(es) && i < |es| && r in es && r.id == es[i].id
    ensures r == es[i]
  {
    var j :| 0 <= j < |es| && es[j] == r;
  }

  lemma RequestFound(es: seq<Event>, id: string, subject: string)
    requires UniqueIds(es)
    ensures (exists i :: IsRequest(es, i, id)) <==> NamesRequest(es, id, None)
    ensures (exists i :: IsRequest(es, i, id) && es[i].subject != subject) <==> NamesRequest(es, id, Some(subject))
  {
    if Present(es, id) {
      var i :| 0 <= i < |es| && es[i].id == id;
      forall r | r in es && r.id == id ensures r == es[i] { OneWithId(es, i, r); }
      assert es[i] in es;
      forall j | IsRequest(es, j, id) ensures es[j] == es[i] { OneWithId(es, i, es[j]); }
      if es[i].kind == Requested { assert IsRequest(es, i, id); }
    }
  }

  lemma ApprovalFound(es: seq<Event>, id: string, request: string, now: int)
    requires UniqueIds(es)
    ensures (exists j :: IsApproval(es, j, id, request) && now <= es[j].kind.expires) <==> NamesApproval(es, id, request, now)
  {
    if Present(es, id) {
      var i :| 0 <= i < |es| && es[i].id == id;
      forall r | r in es && r.id == id ensures r == es[i] { OneWithId(es, i, r); }
      assert es[i] in es;
      forall j | IsApproval(es, j, id, request) ensures es[j] == es[i] { OneWithId(es, i, es[j]); }
      if es[i].kind.Approved? && es[i].kind.request == request { assert IsApproval(es, i, id, request); }
    }
  }
}
