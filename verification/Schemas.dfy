// The two event schemas against their written form: the JSON Schema of the observer, with an
// interpreter of the keywords it uses, and the override events as a table of shapes.

module Shapes {
  import opened Basics
  import opened JsonModel
  import opened OverrideSchema

  // What a JSON value may be.
  datatype Shape =
    | Filled                              // a string that is not empty
    | Word(words: seq<string>)
    | Hex(digits: nat)
    | Moment                              // a time that ends in Z
    | Whole(low: int, high: int)
    | Amount                              // a number from zero on
    | Nothing
    | Text
    | ListOf(item: Shape)                 // not empty
    | Record(parts: seq<Part>)
    | Either(first: Shape, second: Shape)

  datatype Part = Part(key: string, shape: Shape)

  const HEX_DIGITS := "0123456789abcdefABCDEF"

  // A number is below zero exactly when it is printed with a minus, but for minus zero.
  predicate AtLeastZero(j: Json) {
    (j.Int? && j.n >= 0) || (j.Float? && (j.text == "-0.0" || (j.text != "" && j.text != "NaN" && j.text[0] != '-')))
  }

  ghost predicate Fits(j: Json, shape: Shape, clock: Clock)
    decreases shape
  {
    match shape
    case Filled => j.Str? && |j.s| > 0
    case Word(words) => exists i :: 0 <= i < |words| && j == Str(words[i])
    case Hex(n) => j.Str? && |j.s| == n && forall c | c in j.s :: c in HEX_DIGITS
    case Moment => j.Str? && |j.s| > 0 && j.s[|j.s| - 1] == 'Z' && clock(j.s) != None
    case Whole(low, high) => j.Int? && low <= j.n <= high
    case Amount => AtLeastZero(j)
    case Nothing => j == Null
    case Text => j.Str?
    case ListOf(item) => j.Arr? && |j.items| > 0 && forall x | x in j.items :: Fits(x, item, clock)
    case Record(parts) => j.Obj? && forall i | 0 <= i < |parts| :: Fits(Get(j.fields, parts[i].key), parts[i].shape, clock)
    case Either(a, b) => Fits(j, a, clock) || Fits(j, b, clock)
  }

  // ----- the override events -----

  const ACTOR := Record([
    Part("role", Word(["operator", "approver", "policy_admin", "auditor"])),
    Part("subject", Filled)])

  const TARGET := Record([Part("decision_event_id", Filled), Part("decision_hash", Hex(64))])

  const CHAIN := Record([Part("prev_hash", Either(Word(["GENESIS"]), Hex(64))), Part("hash", Hex(64))])

  const AUTH := Either(Nothing, Record([
    Part("algorithm", Filled), Part("key_id", Filled), Part("signature", Filled), Part("signed_at", Moment)]))

  const COMMON := Record([
    Part("event_id", Filled), Part("ts", Moment), Part("actor", ACTOR), Part("policy_sha256", Hex(64)),
    Part("target", TARGET), Part("evidence_refs", ListOf(Filled)), Part("chain", CHAIN), Part("auth", AUTH)])

  const REQUEST := Record([
    Part("requested_action", Word(["block_execution", "force_flat", "reduce_risk", "manual_direction"])),
    Part("reason_code", Word(["ANOMALY_DETECTED", "POLICY_EXCEPTION", "DATA_QUALITY", "HUMAN_JUDGMENT", "OTHER"])),
    Part("reason_text", Filled), Part("ttl_sec", Whole(60, 86400))])

  const CONSTRAINTS := Record([
    Part("scope", ListOf(Filled)), Part("expires_at", Moment), Part("max_notional", Amount), Part("notes", Either(Text, Nothing))])

  const APPROVAL := Record([Part("decision", Word(["approved"])), Part("constraints", CONSTRAINTS)])

  const REJECTION := Record([
    Part("decision", Word(["rejected"])), Part("constraints", Nothing), Part("notes", Either(Text, Nothing))])

  const EXECUTION := Record([
    Part("effect", Word(["blocked", "flattened", "risk_reduced", "manual_applied"])), Part("execution_intent_id", Filled)])

  // What an event of each type has besides.
  const REQUESTED := Record([Part("type", Word(["OVERRIDE_REQUESTED"])), Part("request", REQUEST)])

  const APPROVED := Record([
    Part("type", Word(["OVERRIDE_APPROVED"])), Part("ref_request_event_id", Filled), Part("approval", APPROVAL)])

  const REJECTED := Record([
    Part("type", Word(["OVERRIDE_REJECTED"])), Part("ref_request_event_id", Filled), Part("approval", REJECTION)])

  const EXECUTED := Record([
    Part("type", Word(["OVERRIDE_EXECUTED"])), Part("ref_request_event_id", Filled),
    Part("ref_approval_event_id", Filled), Part("execution", EXECUTION)])

  // ----- part by part -----

  lemma OneOfFits(j: Json, words: seq<string>, clock: Clock)
    ensures OneOf(j, words) <==> Fits(j, Word(words), clock)
  {
    if OneOf(j, words) { var i :| 0 <= i < |words| && words[i] == j.s; }
  }

  lemma HexDigits(c: char)
    ensures IsHexDigit(c) <==> c in HEX_DIGITS
  {
    if c in HEX_DIGITS { var i :| 0 <= i < |HEX_DIGITS| && HEX_DIGITS[i] == c; }
    if '0' <= c <= '9' { assert HEX_DIGITS[c as int - '0' as int] == c; }
    if 'a' <= c <= 'f' { assert HEX_DIGITS[c as int - 'a' as int + 10] == c; }
    if 'A' <= c <= 'F' { assert HEX_DIGITS[c as int - 'A' as int + 16] == c; }
  }

  lemma HexFits(j: Json, clock: Clock)
    ensures IsHex64(j) <==> Fits(j, Hex(64), clock)
  {
    hide IsHexDigit, HEX_DIGITS;
    if j.Str? {
      forall i | 0 <= i < |j.s| ensures IsHexDigit(j.s[i]) <==> j.s[i] in HEX_DIGITS { HexDigits(j.s[i]); }
    }
  }

  lemma InstantFits(j: Json, clock: Clock)
    ensures Instant(j, clock).Some? <==> Fits(j, Moment, clock)
  {
    if j.Str? && |j.s| > 0 { assert j.s[|j.s| - 1..] == [j.s[|j.s| - 1]]; }
  }

  lemma NonEmptyFits(j: Json, clock: Clock)
    ensures NonEmpty(j) <==> Fits(j, Filled, clock)
    ensures NonNegative(j) <==> Fits(j, Amount, clock)
    ensures TextOrNull(j) <==> Fits(j, Either(Text, Nothing), clock)
    ensures j.Null? <==> Fits(j, Nothing, clock)
  {
  }

  lemma TextsFit(j: Json, clock: Clock)
    ensures NonEmptyTexts(j) <==> Fits(j, ListOf(Filled), clock)
  {
    hide NonEmpty;
    if j.Arr? {
      forall i | 0 <= i < |j.items| ensures NonEmpty(j.items[i]) <==> Fits(j.items[i], Filled, clock) { NonEmptyFits(j.items[i], clock); }
    }
  }

  lemma WordIs(j: Json, word: string, clock: Clock)
    ensures j == Str(word) <==> Fits(j, Word([word]), clock)
  {
    if j == Str(word) { assert [word][0] == word; }
  }

  lemma TwoParts(j: Json, p: Part, q: Part, clock: Clock)
    ensures Fits(j, Record([p, q]), clock)
            <==> j.Obj? && Fits(Get(j.fields, p.key), p.shape, clock) && Fits(Get(j.fields, q.key), q.shape, clock)
  {
    var ps := [p, q];
    if Fits(j, Record(ps), clock) {
      assert Fits(Get(j.fields, ps[0].key), ps[0].shape, clock) && Fits(Get(j.fields, ps[1].key), ps[1].shape, clock);
    }
  }

  lemma MoreParts(j: Json, p: Part, rest: seq<Part>, clock: Clock)
    ensures Fits(j, Record([p] + rest), clock)
            <==> j.Obj? && Fits(Get(j.fields, p.key), p.shape, clock) && Fits(j, Record(rest), clock)
  {
    var ps := [p] + rest;
    if Fits(j, Record(ps), clock) {
      assert Fits(Get(j.fields, ps[0].key), ps[0].shape, clock);
      forall i | 0 <= i < |rest| ensures Fits(Get(j.fields, rest[i].key), rest[i].shape, clock) { assert ps[i + 1] == rest[i]; }
    }
    if j.Obj? && Fits(Get(j.fields, p.key), p.shape, clock) && Fits(j, Record(rest), clock) {
      forall i | 0 <= i < |ps| ensures Fits(Get(j.fields, ps[i].key), ps[i].shape, clock) { if i > 0 { assert ps[i] == rest[i - 1]; } }
    }
  }

  lemma ThreeParts(j: Json, p: Part, q: Part, r: Part, clock: Clock)
    ensures Fits(j, Record([p, q, r]), clock)
            <==> && j.Obj? && Fits(Get(j.fields, p.key), p.shape, clock) && Fits(Get(j.fields, q.key), q.shape, clock)
                 && Fits(Get(j.fields, r.key), r.shape, clock)
  {
    hide Fits;
    assert [p, q, r] == [p] + [q, r];
    MoreParts(j, p, [q, r], clock);
    TwoParts(j, q, r, clock);
  }

  lemma FourParts(j: Json, p: Part, q: Part, r: Part, s: Part, clock: Clock)
    ensures Fits(j, Record([p, q, r, s]), clock)
            <==> && j.Obj? && Fits(Get(j.fields, p.key), p.shape, clock) && Fits(Get(j.fields, q.key), q.shape, clock)
                 && Fits(Get(j.fields, r.key), r.shape, clock) && Fits(Get(j.fields, s.key), s.shape, clock)
  {
    hide Fits;
    assert [p, q, r, s] == [p] + [q, r, s];
    MoreParts(j, p, [q, r, s], clock);
    ThreeParts(j, q, r, s, clock);
  }

  lemma EitherFits(j: Json, a: Shape, b: Shape, clock: Clock)
    ensures Fits(j, Either(a, b), clock) <==> Fits(j, a, clock) || Fits(j, b, clock)
  {
  }

  lemma ActorFits(j: Json, clock: Clock)
    ensures ActorOk(j) <==> Fits(j, ACTOR, clock)
  {
    hide Fits, OneOf, NonEmpty;
    TwoParts(j, Part("role", Word(["operator", "approver", "policy_admin", "auditor"])), Part("subject", Filled), clock);
    if j.Obj? {
      OneOfFits(Get(j.fields, "role"), ["operator", "approver", "policy_admin", "auditor"], clock);
      NonEmptyFits(Get(j.fields, "subject"), clock);
    }
  }

  lemma TargetFits(j: Json, clock: Clock)
    ensures TargetOk(j) <==> Fits(j, TARGET, clock)
  {
    hide Fits, NonEmpty, IsHex64;
    TwoParts(j, Part("decision_event_id", Filled), Part("decision_hash", Hex(64)), clock);
    if j.Obj? {
      NonEmptyFits(Get(j.fields, "decision_event_id"), clock);
      HexFits(Get(j.fields, "decision_hash"), clock);
    }
  }

  lemma ChainFits(j: Json, clock: Clock)
    ensures ChainOk(j) <==> Fits(j, CHAIN, clock)
  {
    hide Fits, IsHex64;
    TwoParts(j, Part("prev_hash", Either(Word(["GENESIS"]), Hex(64))), Part("hash", Hex(64)), clock);
    if j.Obj? {
      var prev := Get(j.fields, "prev_hash");
      EitherFits(prev, Word(["GENESIS"]), Hex(64), clock);
      WordIs(prev, "GENESIS", clock);
      HexFits(prev, clock);
      HexFits(Get(j.fields, "hash"), clock);
    }
  }

  lemma AuthFits(j: Json, clock: Clock)
    ensures AuthOk(j, clock) <==> Fits(j, AUTH, clock)
  {
    hide Fits, NonEmpty, Instant;
    var signed := Record([Part("algorithm", Filled), Part("key_id", Filled), Part("signature", Filled), Part("signed_at", Moment)]);
    EitherFits(j, Nothing, signed, clock);
    NonEmptyFits(j, clock);
    FourParts(j, Part("algorithm", Filled), Part("key_id", Filled), Part("signature", Filled), Part("signed_at", Moment), clock);
    if j.Obj? {
      NonEmptyFits(Get(j.fields, "algorithm"), clock);
      NonEmptyFits(Get(j.fields, "key_id"), clock);
      NonEmptyFits(Get(j.fields, "signature"), clock);
      InstantFits(Get(j.fields, "signed_at"), clock);
    }
  }

  lemma WholeFits(j: Json, low: int, high: int, clock: Clock)
    ensures Fits(j, Whole(low, high), clock) <==> j.Int? && low <= j.n <= high
  {
  }

  lemma RequestFits(j: Json, clock: Clock)
    ensures RequestOk(j) <==> Fits(j, REQUEST, clock)
  {
    hide Fits, OneOf, NonEmpty;
    var actions := ["block_execution", "force_flat", "reduce_risk", "manual_direction"];
    var codes := ["ANOMALY_DETECTED", "POLICY_EXCEPTION", "DATA_QUALITY", "HUMAN_JUDGMENT", "OTHER"];
    FourParts(j, Part("requested_action", Word(actions)), Part("reason_code", Word(codes)), Part("reason_text", Filled),
              Part("ttl_sec", Whole(60, 86400)), clock);
    if j.Obj? {
      OneOfFits(Get(j.fields, "requested_action"), actions, clock);
      OneOfFits(Get(j.fields, "reason_code"), codes, clock);
      NonEmptyFits(Get(j.fields, "reason_text"), clock);
      WholeFits(Get(j.fields, "ttl_sec"), 60, 86400, clock);
    }
  }

  lemma ExpiryFits(j: Json, clock: Clock)
    ensures Expiry(j, clock).Some? <==> Fits(j, CONSTRAINTS, clock)
  {
    hide Fits, NonEmptyTexts, NonNegative, TextOrNull, Instant;
    FourParts(j, Part("scope", ListOf(Filled)), Part("expires_at", Moment), Part("max_notional", Amount),
              Part("notes", Either(Text, Nothing)), clock);
    if j.Obj? {
      TextsFit(Get(j.fields, "scope"), clock);
      InstantFits(Get(j.fields, "expires_at"), clock);
      NonEmptyFits(Get(j.fields, "max_notional"), clock);
      NonEmptyFits(Get(j.fields, "notes"), clock);
    }
  }

  lemma ApprovalFits(j: Json, clock: Clock)
    ensures j.Obj? && Get(j.fields, "decision") == Str("approved") && Expiry(Get(j.fields, "constraints"), clock).Some?
            <==> Fits(j, APPROVAL, clock)
  {
    hide Fits, Expiry, CONSTRAINTS;
    TwoParts(j, Part("decision", Word(["approved"])), Part("constraints", CONSTRAINTS), clock);
    if j.Obj? {
      WordIs(Get(j.fields, "decision"), "approved", clock);
      ExpiryFits(Get(j.fields, "constraints"), clock);
    }
  }

  lemma RejectionFits(j: Json, clock: Clock)
    ensures && j.Obj? && Get(j.fields, "decision") == Str("rejected") && Get(j.fields, "constraints").Null?
            && TextOrNull(Get(j.fields, "notes"))
            <==> Fits(j, REJECTION, clock)
  {
    hide Fits, TextOrNull;
    ThreeParts(j, Part("decision", Word(["rejected"])), Part("constraints", Nothing), Part("notes", Either(Text, Nothing)), clock);
    if j.Obj? {
      WordIs(Get(j.fields, "decision"), "rejected", clock);
      NonEmptyFits(Get(j.fields, "constraints"), clock);
      NonEmptyFits(Get(j.fields, "notes"), clock);
    }
  }

  lemma ExecutionFits(j: Json, clock: Clock)
    ensures ExecutionOk(j) <==> Fits(j, EXECUTION, clock)
  {
    hide Fits, OneOf, NonEmpty;
    var effects := ["blocked", "flattened", "risk_reduced", "manual_applied"];
    TwoParts(j, Part("effect", Word(effects)), Part("execution_intent_id", Filled), clock);
    if j.Obj? {
      OneOfFits(Get(j.fields, "effect"), effects, clock);
      NonEmptyFits(Get(j.fields, "execution_intent_id"), clock);
    }
  }

  // ----- the whole event -----

  lemma CommonFits(j: Json, clock: Clock)
    requires j.Obj?
    ensures CommonOk(j.fields, clock) && Instant(Get(j.fields, "ts"), clock).Some?
            <==> "auth" in j.fields && Fits(j, COMMON, clock)
  {
    hide Fits, NonEmpty, IsHex64, NonEmptyTexts, ActorOk, TargetOk, ChainOk, AuthOk, Instant, ACTOR, TARGET, CHAIN, AUTH;
    var f := j.fields;
    var later := [Part("target", TARGET), Part("evidence_refs", ListOf(Filled)), Part("chain", CHAIN), Part("auth", AUTH)];
    var mid := [Part("policy_sha256", Hex(64))] + later;
    var rest := [Part("actor", ACTOR)] + mid;
    var most := [Part("ts", Moment)] + rest;
    assert COMMON == Record([Part("event_id", Filled)] + most);
    MoreParts(j, Part("event_id", Filled), most, clock);
    MoreParts(j, Part("ts", Moment), rest, clock);
    MoreParts(j, Part("actor", ACTOR), mid, clock);
    MoreParts(j, Part("policy_sha256", Hex(64)), later, clock);
    FourParts(j, Part("target", TARGET), Part("evidence_refs", ListOf(Filled)), Part("chain", CHAIN), Part("auth", AUTH), clock);
    NonEmptyFits(Get(f, "event_id"), clock);
    InstantFits(Get(f, "ts"), clock);
    ActorFits(Get(f, "actor"), clock);
    HexFits(Get(f, "policy_sha256"), clock);
    TargetFits(Get(f, "target"), clock);
    TextsFit(Get(f, "evidence_refs"), clock);
    ChainFits(Get(f, "chain"), clock);
    AuthFits(Get(f, "auth"), clock);
  }

  lemma KindFits(j: Json, clock: Clock)
    requires j.Obj?
    ensures KindOf(j.fields, clock).Some? <==>
              || Fits(j, REQUESTED, clock) || Fits(j, APPROVED, clock) || Fits(j, REJECTED, clock) || Fits(j, EXECUTED, clock)
  {
    hide Fits, NonEmpty, RequestOk, Expiry, ExecutionOk, TextOrNull, REQUEST, APPROVAL, REJECTION, EXECUTION;
    var f := j.fields;
    TypesDiffer();
    TwoParts(j, Part("type", Word(["OVERRIDE_REQUESTED"])), Part("request", REQUEST), clock);
    ThreeParts(j, Part("type", Word(["OVERRIDE_APPROVED"])), Part("ref_request_event_id", Filled), Part("approval", APPROVAL), clock);
    ThreeParts(j, Part("type", Word(["OVERRIDE_REJECTED"])), Part("ref_request_event_id", Filled), Part("approval", REJECTION), clock);
    FourParts(j, Part("type", Word(["OVERRIDE_EXECUTED"])), Part("ref_request_event_id", Filled),
              Part("ref_approval_event_id", Filled), Part("execution", EXECUTION), clock);
    WordIs(Get(f, "type"), "OVERRIDE_REQUESTED", clock);
    WordIs(Get(f, "type"), "OVERRIDE_APPROVED", clock);
    WordIs(Get(f, "type"), "OVERRIDE_REJECTED", clock);
    WordIs(Get(f, "type"), "OVERRIDE_EXECUTED", clock);
    RequestFits(Get(f, "request"), clock);
    NonEmptyFits(Get(f, "ref_request_event_id"), clock);
    NonEmptyFits(Get(f, "ref_approval_event_id"), clock);
    ApprovalFits(Get(f, "approval"), clock);
    RejectionFits(Get(f, "approval"), clock);
    ExecutionFits(Get(f, "execution"), clock);
  }

  // The checks accept an event if and only if it has the common parts, the key of its signature among
  // them, and the parts of its type, each of its shape.
  lemma {:induction false} DecodeExact(j: Json, clock: Clock)
    ensures Decode(j, clock).Some? <==>
              && j.Obj? && "auth" in j.fields && Fits(j, COMMON, clock)
              && (Fits(j, REQUESTED, clock) || Fits(j, APPROVED, clock) || Fits(j, REJECTED, clock) || Fits(j, EXECUTED, clock))
  {
    hide Fits, CommonOk, KindOf, Instant;
    if j.Obj? {
      CommonFits(j, clock);
      KindFits(j, clock);
    }
  }

  // The word for the type of an event.
  function TypeOf(kind: Kind): string {
    match kind
    case Requested => "OVERRIDE_REQUESTED"
    case Approved(_, _) => "OVERRIDE_APPROVED"
    case Rejected(_) => "OVERRIDE_REJECTED"
    case Executed(_, _) => "OVERRIDE_EXECUTED"
  }

  ghost predicate TimeIs(j: Json, t: int, clock: Clock) {
    j.Str? && clock(j.s) == Some(t)
  }

  // The value under a path of keys.
  function At(f: map<string, Json>, keys: seq<string>): Json
    requires keys != []
    decreases |keys|
  {
    if |keys| == 1 then Get(f, keys[0])
    else match Get(f, keys[0])
         case Obj(g) => At(g, keys[1..])
         case _ => Null
  }

  lemma AtTwo(f: map<string, Json>, k: string, l: string)
    ensures At(f, [k, l]) == match Get(f, k) case Obj(g) => Get(g, l) case _ => Null
  {
    assert [k, l][1..] == [l];
  }

  lemma AtThree(f: map<string, Json>, k: string, l: string, m: string)
    ensures At(f, [k, l, m]) == match Get(f, k) case Obj(g) => At(g, [l, m]) case _ => Null
  {
    assert [k, l, m][1..] == [l, m];
  }

  // What an accepted event is read as: its own id, author, time and type, the request and the approval
  // it names, and for an approval when that ends.
  lemma {:induction false} DecodeReads(j: Json, clock: Clock)
    requires Decode(j, clock).Some?
    ensures var f, e := j.fields, Decode(j, clock).value;
            && At(f, ["event_id"]) == Str(e.id) && At(f, ["actor", "subject"]) == Str(e.subject)
            && TimeIs(At(f, ["ts"]), e.ts, clock) && At(f, ["type"]) == Str(TypeOf(e.kind))
            && (!e.kind.Requested? ==> At(f, ["ref_request_event_id"]) == Str(e.kind.request))
            && (e.kind.Executed? ==> At(f, ["ref_approval_event_id"]) == Str(e.kind.approval))
            && (e.kind.Approved? ==> TimeIs(At(f, ["approval", "constraints", "expires_at"]), e.kind.expires, clock))
  {
    hide RequestOk, ExecutionOk, TextOrNull, NonNegative, NonEmptyTexts, TargetOk, ChainOk, AuthOk, OneOf, IsHex64;
    var f := j.fields;
    AtTwo(f, "actor", "subject");
    AtThree(f, "approval", "constraints", "expires_at");
    var approval := Get(f, "approval");
    if approval.Obj? { AtTwo(approval.fields, "constraints", "expires_at"); }
  }
}

// tools/observe/observe_event.py: the schema of an observed event as JSON Schema, draft 2020-12.
module ObserveSchema {
  import opened JsonModel
  import opened Observe

  predicate HasType(j: Json, name: string) {
    (name == "object" && j.Obj?) || (name == "string" && j.Str?)
  }

  // The keywords the schema uses: type, const, minLength, required, properties and
  // additionalProperties.
  ghost predicate Meets(j: Json, schema: Json)
    decreases schema
  {
    schema.Obj? ==>
      var s := schema.fields;
      && ("type" in s && s["type"].Str? ==> HasType(j, s["type"].s))
      && ("const" in s ==> j == s["const"])
      && ("minLength" in s && s["minLength"].Int? && j.Str? ==> |j.s| >= s["minLength"].n)
      && ("required" in s && s["required"].Arr? && j.Obj? ==>
            forall name | Str(name) in s["required"].items :: name in j.fields)
      && ("properties" in s && s["properties"].Obj? && j.Obj? ==>
            forall name | name in s["properties"].fields && name in j.fields :: Meets(j.fields[name], s["properties"].fields[name]))
      && ("additionalProperties" in s && s["additionalProperties"] == Bool(false) && "properties" in s && s["properties"].Obj? && j.Obj? ==>
            forall name | name in j.fields :: name in s["properties"].fields)
  }

  const FILLED := Obj(map["type" := Str("string"), "minLength" := Int(1)])

  const ANY_OBJECT := Obj(map["type" := Str("object")])

  const THE_ID := Obj(map["type" := Str("string"), "const" := Str("kernel.observe_event.v1")])

  const PROPERTIES: map<string, Json> :=
    map["event_id" := FILLED,
        "ts" := FILLED,
        "schema_id" := THE_ID,
        "kind" := FILLED,
        "meta" := ANY_OBJECT,
        "preview" := ANY_OBJECT]

  // The schema of the code.
  const SCHEMA := Obj(map[
    "$schema" := Str("https://json-schema.org/draft/2020-12/schema"),
    "title" := Str("Kernel Observe Event v1"),
    "type" := Str("object"),
    "additionalProperties" := Bool(false),
    "required" := Arr([Str("event_id"), Str("ts"), Str("schema_id"), Str("kind"), Str("meta"), Str("preview")]),
    "properties" := Obj(PROPERTIES)])

  lemma KeywordsDiffer()
    ensures "type" !in ["const", "minLength", "required", "properties", "additionalProperties", "$schema", "title"]
    ensures "const" !in ["minLength", "required", "properties", "additionalProperties", "$schema", "title"]
    ensures "minLength" !in ["required", "properties", "additionalProperties", "$schema", "title"]
    ensures "required" !in ["properties", "additionalProperties", "$schema", "title"]
    ensures "properties" !in ["additionalProperties", "$schema", "title"] && "additionalProperties" !in ["$schema", "title"]
  {
    assert |"type"| == 4 && |"const"| == 5 && |"minLength"| == 9 && |"required"| == 8 && |"properties"| == 10;
    assert |"additionalProperties"| == 20 && |"$schema"| == 7 && |"title"| == 5 && "const"[0] == 'c' && "title"[0] == 't';
  }

  lemma NamesDiffer()
    ensures "event_id" !in ["ts", "schema_id", "kind", "meta", "preview"] && "ts" !in ["schema_id", "kind", "meta", "preview"]
    ensures "schema_id" !in ["kind", "meta", "preview"] && "kind" !in ["meta", "preview"] && "meta" != "preview"
  {
    assert |"event_id"| == 8 && |"ts"| == 2 && |"schema_id"| == 9 && |"kind"| == 4 && |"meta"| == 4 && |"preview"| == 7;
    assert "kind"[0] == 'k' && "meta"[0] == 'm';
  }

  lemma MeetsFilled(j: Json)
    ensures Meets(j, FILLED) <==> NonEmptyText(j)
    ensures Meets(j, ANY_OBJECT) <==> j.Obj?
    ensures Meets(j, THE_ID) <==> j == Str(SCHEMA_ID)
  {
    KeywordsDiffer();
  }

  lemma MeetsWhole(fields: Row)
    ensures Meets(Obj(fields), SCHEMA) <==>
              && (forall name | name in PROPERTIES :: name in fields && Meets(fields[name], PROPERTIES[name]))
              && (forall name | name in fields :: name in PROPERTIES)
  {
    KeywordsDiffer();
    RequiredNames();
    hide PROPERTIES;
  }

  lemma RequiredNames()
    ensures forall name :: Str(name) in SCHEMA.fields["required"].items <==> name in PROPERTIES
  {
    KeywordsDiffer();
  }

  lemma PropertiesAre()
    ensures PROPERTIES.Keys == {"event_id", "ts", "schema_id", "kind", "meta", "preview"}
    ensures PROPERTIES["event_id"] == PROPERTIES["ts"] == PROPERTIES["kind"] == FILLED
    ensures PROPERTIES["meta"] == PROPERTIES["preview"] == ANY_OBJECT && PROPERTIES["schema_id"] == THE_ID
  {
    NamesDiffer();
    hide FILLED, ANY_OBJECT, THE_ID;
  }

  // The check of the model is that schema.
  lemma {:induction false} SchemaExact(fields: Row)
    ensures Conforms(fields) <==> Meets(Obj(fields), SCHEMA)
  {
    hide Meets, SCHEMA, FILLED, ANY_OBJECT, THE_ID, PROPERTIES, NonEmptyText, SCHEMA_ID;
    MeetsWhole(fields);
    PropertiesAre();
    if fields.Keys == PROPERTIES.Keys {
      MeetsFilled(fields["event_id"]);
      MeetsFilled(fields["ts"]);
      MeetsFilled(fields["schema_id"]);
      MeetsFilled(fields["kind"]);
      MeetsFilled(fields["meta"]);
      MeetsFilled(fields["preview"]);
    }
  }

  // ----- what is written -----

  // Id and time are those of the caller, if given, and new ones otherwise; the schema id is always that
  // of the code, and nothing else changes.
  lemma DefaultsExact(call: Call, key: string)
    requires call.event.Obj?
    ensures var e, d := call.event.fields, WithDefaults(call);
            Get(d, key) == (if key == "schema_id" then Str("kernel.observe_event.v1")
                            else if key == "event_id" && key !in e then Str("obs_" + call.freshId)
                            else if key == "ts" && key !in e then Str(call.eventTime)
                            else Get(e, key))
  {
    NamesDiffer();
  }

  // The new row: the id of the event, the hashes of the event, of the schema and of the row before, the
  // clock of the call, and last its own hash over all that.
  lemma RowExact(event: Row, prev: string, rowTime: string, h: Setup)
    ensures var row := ChainRow(event, prev, rowTime, h);
            && Get(row, "event_id") == Get(event, "event_id") && Get(row, "ts") == Str(rowTime)
            && Get(row, "schema_id") == Str("kernel.observe_event.v1") && Get(row, "schema_hash") == Str(h.schemaHash)
            && Get(row, "canonical_event_hash") == Str(h.hash(Obj(event))) && Get(row, "prev_hash") == Str(prev)
            && Get(row, "hash") == Str(h.hash(Obj(row - {"hash"})))
  {
    var row := RowWithoutHash(event, prev, rowTime, h);
    RowKeysDiffer();
    assert row["hash" := Str(h.hash(Obj(row)))] - {"hash"} == row;
  }

  lemma RowKeysDiffer()
    ensures "hash" !in ["event_id", "ts", "schema_id", "schema_hash", "canonical_event_hash", "prev_hash"]
    ensures "schema_hash" !in ["event_id", "ts", "schema_id", "canonical_event_hash", "prev_hash"]
    ensures "canonical_event_hash" !in ["event_id", "ts", "schema_id", "prev_hash"] && "prev_hash" !in ["event_id", "ts", "schema_id"]
    ensures "event_id" !in ["ts", "schema_id"] && "ts" != "schema_id"
  {
    assert |"hash"| == 4 && |"event_id"| == 8 && |"ts"| == 2 && |"schema_id"| == 9 && |"schema_hash"| == 11;
    assert |"canonical_event_hash"| == 20 && |"prev_hash"| == 9 && "prev_hash"[0] == 'p' && "schema_id"[0] == 's';
  }

  // The audit tool refuses an embedded event exactly when the hash beside it is not its own.
  lemma EmbeddedExact(row: Row, event: Row, hash: string, h: Setup)
    ensures var with := row["event" := Obj(event)]["canonical_event_hash" := Str(hash)];
            EmbeddedOk(with, h) <==> hash == h.hash(Obj(event))
    ensures "event" !in row ==> EmbeddedOk(row, h)
  {
    assert |"event"| == 5 && |"canonical_event_hash"| == 20;
  }

  // The setup of the code admits exactly the events that meet its schema and from which no path leads to
  // a forbidden key, and hashes printed forms, from 64 zeros on.
  lemma KernelAdmits(digest: string -> string, schema: Json, fields: Row)
    ensures var h := KernelSetup(digest, schema);
            && (h.admits(fields) <==> Meets(Obj(fields), SCHEMA) && forall tokens, k :: !LeadsToForbidden(Obj(fields), tokens, k, FORBIDDEN_KEYS))
            && (forall j :: h.hash(j) == digest(Print(j))) && h.schemaHash == digest(Print(schema))
            && |h.genesis| == 64 && forall c | c in h.genesis :: c == '0'
  {
    hide Conforms, NoForbiddenKey, FORBIDDEN_KEYS, Meets, SCHEMA, LeadsToForbidden, Print, Zeros;
    SchemaExact(fields);
    NoForbiddenKeyExact(Obj(fields), FORBIDDEN_KEYS);
    ManyZeros(64);
  }

  lemma {:induction false} ManyZeros(n: nat)
    ensures |Zeros(n)| == n && forall c | c in Zeros(n) :: c == '0'
  {
    if n > 0 { ManyZeros(n - 1); }
  }
}
