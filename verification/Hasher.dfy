// core/hasher.py: the hashes of an event and what each of them determines.

module Hasher {
  import opened Basics
  import opened JsonModel
  import opened Readable
  import opened Canonical

  // "sha256:" + hexdigest, as a parameter.  All that is used of it is its format and, where a
  // lemma says so, that it has no collision among the finitely many texts in question.
  type Digest = string -> string

  const SHA_PREFIX := "sha256:"
  const SHA_LENGTH: nat := 71

  predicate IsHex(c: char) {
    '0' <= c <= '9' || 'a' <= c <= 'f'
  }

  predicate IsSha(s: string) {
    |s| == SHA_LENGTH && SHA_PREFIX <= s && forall i | 7 <= i < SHA_LENGTH :: IsHex(s[i])
  }

  ghost predicate ShaFormat(digest: Digest) {
    forall s :: IsSha(digest(s))
  }

  ghost predicate CollisionFree(digest: Digest, texts: set<string>) {
    forall s, t | s in texts && t in texts :: digest(s) == digest(t) ==> s == t
  }

  // ----- separator-joined fields -----

  const US: char := 0x1F as char

  // US.join(parts)
  function Join(parts: seq<string>): string {
    if parts == [] then []
    else if |parts| == 1 then parts[0]
    else parts[0] + [US] + Join(parts[1..])
  }

  lemma FieldNotLonger(p: string, q: string, s: string, t: string)
    requires US !in q
    requires p + ([US] + s) == q + t
    ensures |q| <= |p|
  {
    assert forall i | 0 <= i < |q| :: (q + t)[i] == q[i] && q[i] in q;
    assert (p + ([US] + s))[|p|] == US;
  }

  lemma FieldEnds(p: string, q: string, s: string, t: string)
    requires US !in p && US !in q
    requires p + ([US] + s) == q + ([US] + t)
    ensures p == q && s == t
  {
    FieldNotLonger(p, q, s, [US] + t);
    FieldNotLonger(q, p, t, [US] + s);
    SplitSame(p, q, [US] + s, [US] + t);
    SplitSame([US], [US], s, t);
  }

  ghost predicate NoSeparator(parts: seq<string>) {
    forall i | 0 <= i < |parts| :: US !in parts[i]
  }

  lemma {:induction false} JoinSeparator(parts: seq<string>)
    requires parts != [] && NoSeparator(parts)
    ensures US in Join(parts) <==> |parts| > 1
    ensures |parts| > 1 ==> Join(parts) == parts[0] + ([US] + Join(parts[1..]))
  {
    if |parts| > 1 { assert Join(parts)[|parts[0]|] == US; }
  }

  // Fields without the separator are read back from the joined text, and so is their number.
  lemma {:induction false} JoinInjective(ps: seq<string>, qs: seq<string>)
    requires ps != [] && qs != [] && NoSeparator(ps) && NoSeparator(qs)
    requires Join(ps) == Join(qs)
    ensures ps == qs
  {
    JoinSeparator(ps);
    JoinSeparator(qs);
    if |ps| > 1 {
      FieldEnds(ps[0], qs[0], Join(ps[1..]), Join(qs[1..]));
      JoinInjective(ps[1..], qs[1..]);
    }
    assert ps == [ps[0]] + ps[1..] && qs == [qs[0]] + qs[1..];
  }

  lemma {:induction false} JoinAppend(ps: seq<string>, qs: seq<string>)
    requires ps != [] && qs != []
    ensures Join(ps + qs) == Join(ps) + [US] + Join(qs)
  {
    assert (ps + qs)[1..] == ps[1..] + qs;
    if |ps| > 1 {
      JoinAppend(ps[1..], qs);
      assert ps[0] + [US] + (Join(ps[1..]) + [US] + Join(qs)) == (ps[0] + [US] + Join(ps[1..])) + [US] + Join(qs);
    } else {
      assert ps[1..] + qs == qs;
    }
  }

  lemma ShaHasNoSeparator(s: string)
    requires IsSha(s)
    ensures US !in s
  {
    forall i | 0 <= i < |s| ensures s[i] != US {
      if i < 7 { assert s[i] == SHA_PREFIX[i]; }
    }
  }

  // ----- the hashes -----

  // compute_payload_hash; Err when the payload has no canonical form
  function PayloadHash(digest: Digest, payload: Py): Result<string> {
    var text := CanonicalJson(payload);
    if text.Ok? then Ok(digest(text.value)) else Err
  }

  // artifact_refs with its five locked keys; None is null
  datatype Refs = Refs(
    executionCardId: Option<string>,
    parentCardId: Option<string>,
    policyId: Option<string>,
    runId: Option<string>,
    approvalId: Option<string>)

  function OrEmpty(v: Option<string>): string {
    match v
    case Some(s) => s
    case None => ""
  }

  function RefParts(refs: Refs): (parts: seq<string>)
    ensures |parts| == 5
  {
    ["execution_card_id=" + OrEmpty(refs.executionCardId),
     "parent_card_id=" + OrEmpty(refs.parentCardId),
     "policy_id=" + OrEmpty(refs.policyId),
     "run_id=" + OrEmpty(refs.runId),
     "approval_id=" + OrEmpty(refs.approvalId)]
  }

  function Fingerprint(refs: Refs): string {
    Join(RefParts(refs))
  }

  // artifact_refs_fingerprint: the locked keys in their order
  method ArtifactRefsFingerprint(refs: Refs) returns (r: string)
    ensures r == Fingerprint(refs)
  {
    var order := [
      ("execution_card_id=", refs.executionCardId),
      ("parent_card_id=", refs.parentCardId),
      ("policy_id=", refs.policyId),
      ("run_id=", refs.runId),
      ("approval_id=", refs.approvalId)];
    var parts: seq<string> := [];
    for i := 0 to |order|
      invariant |parts| == i && forall j | 0 <= j < i :: parts[j] == order[j].0 + OrEmpty(order[j].1)
    {
      parts := parts + [order[i].0 + OrEmpty(order[i].1)];
    }
    assert parts == RefParts(refs);
    return Join(parts);
  }

  datatype EventKey = EventKey(
    eventType: string,
    systemId: string,
    domain: string,
    subjectId: string,
    snapshotId: string,
    sequenceNo: int,
    refs: Refs,
    payloadHash: string)

  function KeyParts(k: EventKey): seq<string> {
    [k.eventType, k.systemId, k.domain, k.subjectId, k.snapshotId, IntText(k.sequenceNo), Fingerprint(k.refs), k.payloadHash]
  }

  // compute_event_id
  function EventId(digest: Digest, k: EventKey): string {
    digest(Join(KeyParts(k)))
  }

  function ChainParts(prev: Option<string>, eventId: string, payloadHash: string, schemaHash: string): seq<string> {
    match prev
    case None => [eventId, payloadHash, schemaHash]
    case Some(p) => [p, eventId, payloadHash, schemaHash]
  }

  // compute_chain_hash
  function ChainHash(digest: Digest, prev: Option<string>, eventId: string, payloadHash: string, schemaHash: string): string {
    digest(Join(ChainParts(prev, eventId, payloadHash, schemaHash)))
  }

  // ----- what the texts determine -----

  ghost predicate OptSha(v: Option<string>) {
    v.Some? ==> IsSha(v.value)
  }

  // The text of a chain hash determines the previous chain hash, the event id and the payload hash.
  // That a first event joins three parts and a later one four keeps the two apart.
  lemma ChainTextReadable(p: Option<string>, e: string, h: string, s: string, p': Option<string>, e': string, h': string, s': string)
    requires OptSha(p) && IsSha(e) && IsSha(h) && IsSha(s)
    requires OptSha(p') && IsSha(e') && IsSha(h') && IsSha(s')
    requires Join(ChainParts(p, e, h, s)) == Join(ChainParts(p', e', h', s'))
    ensures p == p' && e == e' && h == h' && s == s'
  {
    var xs, ys := ChainParts(p, e, h, s), ChainParts(p', e', h', s');
    ShaParts(xs);
    ShaParts(ys);
    JoinInjective(xs, ys);
    assert |xs| == |ys|;
    assert xs[|xs| - 1] == s && xs[|xs| - 2] == h && xs[|xs| - 3] == e;
    assert ys[|ys| - 1] == s' && ys[|ys| - 2] == h' && ys[|ys| - 3] == e';
    assert p.Some? ==> xs[0] == p.value;
    assert p'.Some? ==> ys[0] == p'.value;
  }

  lemma ShaParts(parts: seq<string>)
    requires forall i | 0 <= i < |parts| :: IsSha(parts[i])
    ensures NoSeparator(parts)
  {
    forall i | 0 <= i < |parts| ensures US !in parts[i] { ShaHasNoSeparator(parts[i]); }
  }

  // Equal payload hashes, without a collision, mean equal normalised payloads.
  lemma PayloadHashReadable(digest: Digest, a: Py, b: Py)
    requires PayloadHash(digest, a).Ok? && PayloadHash(digest, a) == PayloadHash(digest, b)
    requires CollisionFree(digest, {CanonicalJson(a).value, CanonicalJson(b).value})
    ensures Norm(a) == Norm(b)
  {
    PrintInjective(Norm(a).value, Norm(b).value);
  }

  // ----- event ids -----

  // All the fields of an event id, the references spread out.
  function FlatParts(k: EventKey): seq<string> {
    KeyParts(k)[..6] + RefParts(k.refs) + [k.payloadHash]
  }

  lemma EventTextIsFlat(k: EventKey)
    ensures Join(KeyParts(k)) == Join(FlatParts(k))
  {
    var six, fp, last := KeyParts(k)[..6], [Fingerprint(k.refs)], [k.payloadHash];
    assert KeyParts(k) == (six + fp) + last;
    JoinAppend(six + fp, last);
    JoinAppend(six, fp);
    JoinAppend(six + RefParts(k.refs), last);
    JoinAppend(six, RefParts(k.refs));
  }

  lemma {:induction false} JoinOne(p: string, rest: seq<string>)
    requires rest != []
    ensures Join([p] + rest) == p + [US] + Join(rest)
  {
    assert ([p] + rest)[1..] == rest;
  }

  // What is hashed for an event id, written out.
  lemma EventTextWritten(k: EventKey)
    ensures Join(KeyParts(k))
            == k.eventType + [US] + (k.systemId + [US] + (k.domain + [US] + (k.subjectId + [US]
               + (k.snapshotId + [US] + (IntText(k.sequenceNo) + [US] + (Fingerprint(k.refs) + [US] + k.payloadHash))))))
  {
    hide Join, Fingerprint, IntText;
    var n, f, h := IntText(k.sequenceNo), Fingerprint(k.refs), k.payloadHash;
    JoinPair(f, h);
    JoinThree(k.snapshotId, n, [f, h]);
    JoinThree(k.domain, k.subjectId, [k.snapshotId, n, f, h]);
    JoinThree(k.eventType, k.systemId, [k.domain, k.subjectId, k.snapshotId, n, f, h]);
    assert [k.snapshotId, n, f, h] == [k.snapshotId, n] + [f, h];
    assert [k.domain, k.subjectId, k.snapshotId, n, f, h] == [k.domain, k.subjectId] + [k.snapshotId, n, f, h];
    assert KeyParts(k) == [k.eventType, k.systemId] + [k.domain, k.subjectId, k.snapshotId, n, f, h];
  }

  lemma JoinPair(p: string, q: string)
    ensures Join([p, q]) == p + [US] + q
  {
    assert [p, q][1..] == [q] && Join([q]) == q;
  }

  lemma {:induction false} JoinThree(p: string, q: string, rest: seq<string>)
    requires rest != []
    ensures Join([p, q] + rest) == p + [US] + (q + [US] + Join(rest))
  {
    hide Join;
    JoinOne(q, rest);
    JoinOne(p, [q] + rest);
    assert [p, q] + rest == [p] + ([q] + rest);
  }

  // The text a reference stands as: itself, or nothing for null.
  predicate Shows(ref: Option<string>, s: string) {
    ref == Some(s) || (ref == None && s == "")
  }

  // The references in it: each name with its text.
  lemma FingerprintWritten(refs: Refs, e: string, p: string, o: string, r: string, a: string)
    requires Shows(refs.executionCardId, e) && Shows(refs.parentCardId, p) && Shows(refs.policyId, o)
    requires Shows(refs.runId, r) && Shows(refs.approvalId, a)
    ensures Fingerprint(refs)
            == "execution_card_id=" + e + [US] + ("parent_card_id=" + p + [US]
               + ("policy_id=" + o + [US] + ("run_id=" + r + [US] + ("approval_id=" + a))))
  {
    hide Join;
    var ps := RefParts(refs);
    assert Fingerprint(refs) == Join(ps) && ps == [ps[0], ps[1]] + [ps[2], ps[3], ps[4]] && [ps[2], ps[3], ps[4]] == [ps[2]] + [ps[3], ps[4]];
    JoinPair(ps[3], ps[4]);
    JoinOne(ps[2], [ps[3], ps[4]]);
    JoinThree(ps[0], ps[1], [ps[2], ps[3], ps[4]]);
  }

  // What is hashed for a chain hash, written out: the previous one only where there is one.
  lemma ChainTextWritten(prev: Option<string>, eventId: string, payloadHash: string, schemaHash: string)
    ensures Join(ChainParts(prev, eventId, payloadHash, schemaHash))
            == (match prev case Some(p) => p + [US] case None => "") + (eventId + [US] + (payloadHash + [US] + schemaHash))
  {
    hide Join;
    JoinPair(payloadHash, schemaHash);
    JoinOne(eventId, [payloadHash, schemaHash]);
    var three := [eventId, payloadHash, schemaHash];
    assert three == [eventId] + [payloadHash, schemaHash];
    match prev
    case Some(p) =>
      assert ChainParts(prev, eventId, payloadHash, schemaHash) == [p] + three;
      JoinOne(p, three);
    case None =>
      assert ChainParts(prev, eventId, payloadHash, schemaHash) == three;
      assert Join(three) == [] + Join(three);
  }

  ghost predicate SeparatorFree(k: EventKey) {
    NoSeparator(FlatParts(k))
  }

  // null and the empty string are the same reference to the fingerprint.
  predicate SameRefs(a: Refs, b: Refs) {
    && OrEmpty(a.executionCardId) == OrEmpty(b.executionCardId)
    && OrEmpty(a.parentCardId) == OrEmpty(b.parentCardId)
    && OrEmpty(a.policyId) == OrEmpty(b.policyId)
    && OrEmpty(a.runId) == OrEmpty(b.runId)
    && OrEmpty(a.approvalId) == OrEmpty(b.approvalId)
  }

  lemma TailOf(name: string, x: string, y: string)
    ensures name + x == name + y <==> x == y
  {
    if name + x == name + y { SplitSame(name, name, x, y); }
  }

  lemma RefPartsReadable(a: Refs, b: Refs)
    ensures RefParts(a) == RefParts(b) <==> SameRefs(a, b)
  {
    TailOf("execution_card_id=", OrEmpty(a.executionCardId), OrEmpty(b.executionCardId));
    TailOf("parent_card_id=", OrEmpty(a.parentCardId), OrEmpty(b.parentCardId));
    TailOf("policy_id=", OrEmpty(a.policyId), OrEmpty(b.policyId));
    TailOf("run_id=", OrEmpty(a.runId), OrEmpty(b.runId));
    TailOf("approval_id=", OrEmpty(a.approvalId), OrEmpty(b.approvalId));
    RefsByPart(a, b);
  }

  lemma RefsByPart(a: Refs, b: Refs)
    ensures RefParts(a) == RefParts(b) <==> forall i | 0 <= i < 5 :: RefParts(a)[i] == RefParts(b)[i]
  {
  }

  // The same fields, the references up to null versus empty.
  predicate SameKey(a: EventKey, b: EventKey) {
    b.(refs := a.refs) == a && SameRefs(a.refs, b.refs)
  }

  lemma {:induction false} FlatPartsReadable(a: EventKey, b: EventKey)
    requires SeparatorFree(a) && SeparatorFree(b)
    ensures Join(KeyParts(a)) == Join(KeyParts(b)) <==> SameKey(a, b)
  {
    EventTextIsFlat(a);
    EventTextIsFlat(b);
    RefPartsReadable(a.refs, b.refs);
    var xs, ys := FlatParts(a), FlatParts(b);
    if Join(xs) == Join(ys) {
      JoinInjective(xs, ys);
      assert xs[..6] == KeyParts(a)[..6] && ys[..6] == KeyParts(b)[..6];
      assert xs[6..11] == RefParts(a.refs) && ys[6..11] == RefParts(b.refs);
      assert xs[11] == a.payloadHash && ys[11] == b.payloadHash;
      SixFields(a, b);
    }
    if RefParts(a.refs) == RefParts(b.refs) && KeyParts(a)[..6] == KeyParts(b)[..6] && a.payloadHash == b.payloadHash {
      assert xs == ys;
    }
  }

  // How many separators a text holds.
  function Seps(s: string): nat {
    if s == [] then 0 else Seps(s[..|s| - 1]) + (if s[|s| - 1] == US then 1 else 0)
  }

  lemma {:induction false} SepsAppend(s: string, t: string)
    ensures Seps(s + t) == Seps(s) + Seps(t)
  {
    if t == [] {
      assert s + t == s;
    } else {
      assert (s + t)[..|s + t| - 1] == s + t[..|t| - 1];
      SepsAppend(s, t[..|t| - 1]);
    }
  }

  lemma {:induction false} SepsNone(s: string)
    ensures Seps(s) == 0 <==> US !in s
  {
    if s != [] {
      SepsNone(s[..|s| - 1]);
      assert s == s[..|s| - 1] + [s[|s| - 1]];
    }
  }

  function TotalSeps(parts: seq<string>): nat {
    if parts == [] then 0 else Seps(parts[0]) + TotalSeps(parts[1..])
  }

  lemma {:induction false} TotalNone(parts: seq<string>)
    ensures TotalSeps(parts) == 0 <==> NoSeparator(parts)
  {
    if parts != [] {
      SepsNone(parts[0]);
      TotalNone(parts[1..]);
      assert NoSeparator(parts) ==> NoSeparator(parts[1..]);
      assert forall i | 0 < i < |parts| :: parts[i] == parts[1..][i - 1];
    }
  }

  lemma {:induction false} JoinSeps(parts: seq<string>)
    requires parts != []
    ensures Seps(Join(parts)) == TotalSeps(parts) + |parts| - 1
  {
    if |parts| > 1 {
      JoinSeps(parts[1..]);
      SepsAppend(parts[0], [US]);
      SepsAppend(parts[0] + [US], Join(parts[1..]));
      assert [US][..0] == [];
    } else {
      assert parts[1..] == [];
    }
  }

  // The text of an event id determines every field of it, the references up to null versus empty,
  // when no field of the one event holds the separator: whatever the fields of the other are.
  lemma {:induction false} EventTextReadable(a: EventKey, b: EventKey)
    requires SeparatorFree(a)
    ensures Join(KeyParts(a)) == Join(KeyParts(b)) <==> SameKey(a, b)
  {
    if Join(KeyParts(a)) == Join(KeyParts(b)) {
      EventTextIsFlat(a);
      EventTextIsFlat(b);
      JoinSeps(FlatParts(a));
      JoinSeps(FlatParts(b));
      TotalNone(FlatParts(a));
      TotalNone(FlatParts(b));
      FlatPartsReadable(a, b);
    } else if SameKey(a, b) {
      SameRefParts(a, b);
    }
  }

  lemma {:induction false} SameRefParts(a: EventKey, b: EventKey)
    requires SameKey(a, b)
    ensures Join(KeyParts(a)) == Join(KeyParts(b))
  {
    RefPartsReadable(a.refs, b.refs);
    assert KeyParts(a) == KeyParts(b);
  }

  lemma SixFields(a: EventKey, b: EventKey)
    requires KeyParts(a)[..6] == KeyParts(b)[..6]
    ensures a.eventType == b.eventType && a.systemId == b.systemId && a.domain == b.domain
    ensures a.subjectId == b.subjectId && a.snapshotId == b.snapshotId && a.sequenceNo == b.sequenceNo
  {
    var x, y := KeyParts(a)[..6], KeyParts(b)[..6];
    assert x[0] == a.eventType && x[1] == a.systemId && x[2] == a.domain && x[3] == a.subjectId;
    assert y[0] == b.eventType && y[1] == b.systemId && y[2] == b.domain && y[3] == b.subjectId;
    assert x[4] == a.snapshotId && x[5] == IntText(a.sequenceNo);
    assert y[4] == b.snapshotId && y[5] == IntText(b.sequenceNo);
    IntTextInjective(a.sequenceNo, b.sequenceNo);
  }

  // ----- the separator inside a field -----

  function Five(k: EventKey): seq<string> {
    [k.eventType, k.systemId, k.domain, k.subjectId, k.snapshotId]
  }

  function WithFive(k: EventKey, fs: seq<string>): EventKey
    requires |fs| == 5
  {
    k.(eventType := fs[0], systemId := fs[1], domain := fs[2], subjectId := fs[3], snapshotId := fs[4])
  }

  function Behind(k: EventKey): seq<string> {
    [IntText(k.sequenceNo), Fingerprint(k.refs), k.payloadHash]
  }

  lemma FiveParts(k: EventKey, fs: seq<string>)
    requires |fs| == 5
    ensures KeyParts(WithFive(k, fs)) == fs + Behind(k) && Five(WithFive(k, fs)) == fs
    ensures WithFive(k, Five(k)) == k
  {
  }

  // A separator at the border of two fields can stand in either.
  lemma {:induction false} SeparatorMoves(front: seq<string>, w: string, x: string, y: string, back: seq<string>)
    requires back != []
    ensures Join(front + [w, x + [US] + y] + back) == Join(front + [w + [US] + x, y] + back)
  {
    var p, q := [w, x + [US] + y], [w + [US] + x, y];
    assert Join(p) == Join(q) by {
      assert p == [w] + [x + [US] + y] && q == [w + [US] + x] + [y];
      JoinAppend([w], [x + [US] + y]);
      JoinAppend([w + [US] + x], [y]);
      assert w + [US] + (x + [US] + y) == (w + [US] + x) + [US] + y;
    }
    if front != [] {
      JoinAppend(front, p);
      JoinAppend(front, q);
    } else {
      assert front + p == p && front + q == q;
    }
    JoinAppend(front + p, back);
    JoinAppend(front + q, back);
  }

  // Five fields with a separator in one of them, and five others that join to the same text.
  lemma {:induction false} OtherFive(fs: seq<string>, i: nat, back: seq<string>) returns (gs: seq<string>)
    requires |fs| == 5 && i < 5 && US in fs[i] && back != []
    ensures |gs| == 5 && gs != fs && Join(gs + back) == Join(fs + back)
  {
    var n :| 0 <= n < |fs[i]| && fs[i][n] == US;
    var x, y := fs[i][..n], fs[i][n + 1..];
    assert fs[i] == x + [US] + y;
    if i == 0 {
      gs := [x, y + [US] + fs[1]] + fs[2..];
      SeparatorMoves([], x, y, fs[1], fs[2..] + back);
      assert [] + [x, y + [US] + fs[1]] + (fs[2..] + back) == gs + back;
      assert [] + [x + [US] + y, fs[1]] + (fs[2..] + back) == fs + back;
    } else {
      var front, w := fs[..i - 1], fs[i - 1];
      gs := front + [w + [US] + x, y] + fs[i + 1..];
      SeparatorMoves(front, w, x, y, fs[i + 1..] + back);
      assert front + [w + [US] + x, y] + (fs[i + 1..] + back) == gs + back;
      assert front + [w, x + [US] + y] + (fs[i + 1..] + back) == fs + back;
      assert |gs[i - 1]| > |fs[i - 1]|;
    }
  }

  // A separator inside one of the first five fields makes another event share the id.
  lemma {:induction false} EventIdAmbiguous(a: EventKey, i: nat) returns (b: EventKey)
    requires i < 5 && US in Five(a)[i]
    ensures !SameKey(a, b) && Join(KeyParts(b)) == Join(KeyParts(a)) && b.payloadHash == a.payloadHash
  {
    var gs := OtherFive(Five(a), i, Behind(a));
    b := WithFive(a, gs);
    FiveParts(a, gs);
    FiveParts(a, Five(a));
    assert Five(b) != Five(a);
  }

  lemma {:induction false} IntHasNoSeparator(n: int)
    ensures US !in IntText(n)
  {
    var ds := Digits(if n < 0 then -n else n);
    assert forall i | 0 <= i < |ds| :: ds[i] in ds && ds[i] != US;
  }

  lemma {:induction false} FreeOfSeparators(a: EventKey)
    requires NoSeparator(RefParts(a.refs)) && US !in a.payloadHash
    ensures SeparatorFree(a) <==> forall i | 0 <= i < 5 :: US !in Five(a)[i]
  {
    IntHasNoSeparator(a.sequenceNo);
    var five, seqNo, last := Five(a), [IntText(a.sequenceNo)], [a.payloadHash];
    assert FlatParts(a) == five + seqNo + RefParts(a.refs) + last;
    if forall i | 0 <= i < 5 :: US !in five[i] {
      assert NoSeparator(five) && NoSeparator(seqNo) && NoSeparator(last);
      assert NoSeparator(five + seqNo + RefParts(a.refs) + last);
    } else {
      var i :| 0 <= i < 5 && US in five[i];
      assert (five + seqNo + RefParts(a.refs) + last)[i] == five[i];
    }
  }

  // Of an event whose references and payload hash hold no separator, another event shares the text
  // of the id if and only if one of the first five fields holds it.
  lemma {:induction false} EventIdExact(a: EventKey)
    requires NoSeparator(RefParts(a.refs)) && US !in a.payloadHash
    ensures (exists b :: !SameKey(a, b) && Join(KeyParts(b)) == Join(KeyParts(a)))
            <==> exists i | 0 <= i < 5 :: US in Five(a)[i]
  {
    FreeOfSeparators(a);
    if i :| 0 <= i < 5 && US in Five(a)[i] {
      var b := EventIdAmbiguous(a, i);
    } else {
      forall b | Join(KeyParts(b)) == Join(KeyParts(a)) ensures SameKey(a, b) { EventTextReadable(a, b); }
    }
  }
}
