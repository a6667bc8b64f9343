// core/validator.py against core/hasher.py: which events the validator accepts of those whose ids and
// hashes are made by the hasher, and that it accepts no other.

module EventMaking {
  import opened Basics
  import opened Text
  import opened Canonical
  import opened Hasher
  import opened ChainWalk

  // What a producer decides about an event: all but its hashes and its schema.
  datatype Content = Content(
    eventType: string,
    systemId: string,
    domain: string,
    subjectId: string,
    snapshotId: string,
    sequenceNo: int,
    refs: Refs,
    occurredAt: Option<int>,
    producedAt: Option<int>,
    prevEventId: Option<string>,
    chainHash: Option<string>,
    payload: seq<Entry>)

  function KeyOf(c: Content, payloadHash: string): EventKey {
    EventKey(c.eventType, c.systemId, c.domain, c.subjectId, c.snapshotId, c.sequenceNo, c.refs, payloadHash)
  }

  // The producer's side: the hashes of the content and the locked schema.
  function Made(c: Content, lock: Lock, digest: Digest): Result<Event> {
    var hash := PayloadHash(digest, PyDict(c.payload));
    if hash.Err? then Err else
    var key := KeyOf(c, hash.value);
    Ok(Event(EventId(digest, key), key, c.occurredAt, c.producedAt, c.prevEventId, lock.schemaId, lock.schemaHash, c.chainHash, c.payload))
  }

  function ContentOf(ev: Event): Content
    requires ev.Event?
  {
    var k := ev.key;
    Content(k.eventType, k.systemId, k.domain, k.subjectId, k.snapshotId, k.sequenceNo, k.refs,
            ev.occurredAt, ev.producedAt, ev.prevEventId, ev.chainHash, ev.payload)
  }

  // A text with a character that is no white space.
  ghost predicate Visible(s: string) {
    exists c :: c in s && !IsSpace(c)
  }

  // The event types with the keys their payloads need.
  ghost function Needed(): map<string, set<string>> {
    map["OBSERVATION" := {"inputs", "metrics", "observation_kind"},
        "EXECUTION_REQUESTED" := {"constraints", "execution_scope", "intent", "request_id"},
        "EXECUTION_AUTHORIZED" := {"decision", "reason_codes", "required_approvals", "rule_evidence"},
        "EXECUTION_BLOCKED" := {"decision", "reason_codes", "required_approvals", "rule_evidence"},
        "EXECUTION_STARTED" := {},
        "EXECUTION_FILLED" := {"fill_id", "linkage", "side", "venue"},
        "EXECUTION_COMPLETED" := {},
        "INVALIDATION_TRIGGERED" := {"invalidation_id", "invalidation_tag", "mandatory_action", "trigger_condition"},
        "HUMAN_OVERRIDE_APPLIED" := {"justification", "override_id", "override_type", "scope"},
        "OUTCOME_RECORDED" := {"evaluation_window", "metrics", "outcome_id", "outcome_kind"},
        "AUDIT_LOGGED" := {"audit_id", "audit_kind", "status"}]
  }

  ghost function StringKeys(payload: seq<Entry>): set<string> {
    set e | e in payload && e.key.StrKey? :: e.key.name
  }

  ghost predicate Refers(refs: Refs) {
    refs != Refs(None, None, None, None, None)
  }

  // What the contract asks of the content.
  ghost predicate Fit(c: Content) {
    && c.eventType in Needed() && Needed()[c.eventType] <= StringKeys(c.payload)
    && Visible(c.systemId) && Visible(c.domain) && Visible(c.subjectId) && Visible(c.snapshotId)
    && (c.prevEventId != None ==> Visible(c.prevEventId.value))
    && c.sequenceNo > 0
    && (Refers(c.refs) || c.eventType == "AUDIT_LOGGED")
    && c.occurredAt != None && c.producedAt != None && c.occurredAt.value <= c.producedAt.value
  }

  lemma {:induction false} StripRightVisible(s: string)
    ensures StripRight(s) != [] <==> Visible(s)
  {
    hide IsSpace;
    if s != [] {
      var n := |s| - 1;
      if IsSpace(s[n]) {
        StripRightVisible(s[..n]);
        assert forall c :: c in s <==> c in s[..n] || c == s[n];
      } else {
        assert s[n] in s;
      }
    }
  }

  lemma {:induction false} StripLeftVisible(s: string)
    ensures Visible(StripLeft(s)) <==> Visible(s)
  {
    hide IsSpace;
    if s != [] && IsSpace(s[0]) {
      StripLeftVisible(s[1..]);
      assert forall c :: c in s <==> c in s[1..] || c == s[0];
    }
  }

  // Stripping leaves something exactly of a text with a visible character.
  lemma NonBlankVisible(s: string)
    ensures NonBlank(s) <==> Visible(s)
  {
    StripLeftVisible(s);
    StripRightVisible(StripLeft(s));
  }

  lemma HasKeys(payload: seq<Entry>, keys: seq<string>)
    ensures HasPayloadKeys(payload, keys) <==> Elements(keys) <= StringKeys(payload)
  {
    forall i | 0 <= i < |keys| ensures HasKey(payload, StrKey(keys[i])) <==> keys[i] in StringKeys(payload) {
      HasOneKey(payload, keys[i]);
    }
    ByHasKey(payload, keys);
    hide StringKeys, HasKey, HasPayloadKeys;
    AllIn(keys, StringKeys(payload));
  }

  lemma ByHasKey(payload: seq<Entry>, keys: seq<string>)
    ensures HasPayloadKeys(payload, keys) <==> forall i | 0 <= i < |keys| :: HasKey(payload, StrKey(keys[i]))
  {
    if HasPayloadKeys(payload, keys) {
      forall i | 0 <= i < |keys| ensures HasKey(payload, StrKey(keys[i])) {
        var j :| 0 <= j < |payload| && payload[j].key == StrKey(keys[i]);
      }
    }
    if forall i | 0 <= i < |keys| :: HasKey(payload, StrKey(keys[i])) {
      forall i | 0 <= i < |keys| ensures exists j | 0 <= j < |payload| :: payload[j].key == StrKey(keys[i]) {
        assert HasKey(payload, StrKey(keys[i]));
      }
    }
  }

  lemma AllIn(keys: seq<string>, s: set<string>)
    ensures Elements(keys) <= s <==> forall i | 0 <= i < |keys| :: keys[i] in s
  {
    forall i | 0 <= i < |keys| ensures keys[i] in Elements(keys) {}
  }

  lemma HasOneKey(payload: seq<Entry>, key: string)
    ensures HasKey(payload, StrKey(key)) <==> key in StringKeys(payload)
  {
    if key in StringKeys(payload) {
      var e :| e in payload && e.key.StrKey? && e.key.name == key;
      var j :| 0 <= j < |payload| && payload[j] == e;
      assert payload[j].key == StrKey(key);
    }
    if j :| 0 <= j < |payload| && payload[j].key == StrKey(key) {
      assert payload[j] in payload && payload[j].key.name == key;
    }
  }

  lemma TypesAgree(eventType: string)
    ensures RequiredKeys(eventType).Some? <==> eventType in Needed()
    ensures eventType in Needed() ==> Elements(RequiredKeys(eventType).value) == Needed()[eventType]
  {
  }

  lemma FitParts(c: Content)
    ensures Fit(c) <==>
              && RequiredKeys(c.eventType).Some? && HasPayloadKeys(c.payload, RequiredKeys(c.eventType).value)
              && NonBlank(c.systemId) && NonBlank(c.domain) && NonBlank(c.subjectId) && NonBlank(c.snapshotId)
              && (c.prevEventId.Some? ==> NonBlank(c.prevEventId.value))
              && c.sequenceNo >= 1
              && (c.eventType != AUDIT_LOGGED ==> SomeRef(c.refs))
              && c.occurredAt.Some? && c.producedAt.Some? && c.producedAt.value >= c.occurredAt.value
  {
    hide Needed, RequiredKeys, NonBlank, Visible, HasPayloadKeys, StringKeys;
    TypesAgree(c.eventType);
    if c.eventType in Needed() { HasKeys(c.payload, RequiredKeys(c.eventType).value); }
    NonBlankVisible(c.systemId);
    NonBlankVisible(c.domain);
    NonBlankVisible(c.subjectId);
    NonBlankVisible(c.snapshotId);
    if c.prevEventId.Some? { NonBlankVisible(c.prevEventId.value); }
  }

  lemma HashesMatch(k: EventKey, payload: seq<Entry>, digest: Digest)
    requires ShaFormat(digest)
    ensures IsSha(EventId(digest, k))
    ensures PayloadHash(digest, PyDict(payload)).Ok? ==> IsSha(PayloadHash(digest, PyDict(payload)).value)
  {
  }

  // The validator accepts an event if and only if the hasher makes it from a content that is fit.
  lemma ValidExact(ev: Event, lock: Lock, digest: Digest)
    requires ShaFormat(digest) && IsSha(lock.schemaHash)
    ensures ValidEvent(ev, lock, digest)
            <==> ev.Event? && Made(ContentOf(ev), lock, digest) == Ok(ev) && Fit(ContentOf(ev))
  {
    hide Fit, PayloadHash, IsSha, EventId, NonBlank, RequiredKeys, HasPayloadKeys, SomeRef;
    if ev.Event? {
      FitParts(ContentOf(ev));
      HashesMatch(ev.key, ev.payload, digest);
      assert ev.key == KeyOf(ContentOf(ev), ev.key.payloadHash);
    }
  }

  // Of what a producer makes, the fit contents are accepted and the others are not.
  lemma MadeExact(c: Content, lock: Lock, digest: Digest)
    requires ShaFormat(digest) && IsSha(lock.schemaHash) && Made(c, lock, digest).Ok?
    ensures ValidEvent(Made(c, lock, digest).value, lock, digest) <==> Fit(c)
  {
    hide Fit, PayloadHash, ValidEvent, IsSha;
    ValidExact(Made(c, lock, digest).value, lock, digest);
  }
}
