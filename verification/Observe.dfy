// tools/observe/observe_event.py and tools/audit/verify_audit_chain.py: the observer log with its
// hash chain, and the two verifiers of that chain.

module Observe {
  import opened Basics
  import opened JsonModel
  import opened Readable
  import opened Text
  import Patch

  type Row = map<string, Json>

  const SCHEMA_ID := "kernel.observe_event.v1"

  // What the tools are set up with: the hash of a value, the hash of the event schema, what stands
  // before the first row, and which events may be recorded.
  datatype Setup = Setup(hash: Json -> string, schemaHash: string, genesis: string, admits: Row -> bool)

  // The setup of the code, for a given digest of texts and the event schema as a value.
  function KernelSetup(digest: string -> string, schema: Json): Setup {
    Setup((j: Json) => digest(Print(j)), digest(Print(schema)), Zeros(64),
          (fields: Row) => Conforms(fields) && NoForbiddenKey(Obj(fields), FORBIDDEN_KEYS))
  }

  // "0" * n
  function Zeros(n: nat): string {
    if n == 0 then "" else "0" + Zeros(n - 1)
  }

  // Everything of a row but its own hash.
  function Body(row: Row): Json {
    Obj(row - {"hash"})
  }

  // ----- the two verifiers -----

  predicate RowFollows(row: Row, prev: string, h: Setup) {
    && Get(row, "prev_hash") == Str(prev)
    && Get(row, "schema_hash") == Str(h.schemaHash)
    && Get(row, "hash") == Str(h.hash(Body(row)))
  }

  // The hash a chain ends in.
  function Tail(rows: seq<Row>, h: Setup): string {
    if rows == [] then h.genesis else
    match Get(rows[|rows| - 1], "hash")
    case Str(s) => s
    case _ => ""
  }

  // Every row follows the one before it.
  predicate Chained(rows: seq<Row>, h: Setup) {
    rows == [] || (Chained(rows[..|rows| - 1], h) && RowFollows(rows[|rows| - 1], Tail(rows[..|rows| - 1], h), h))
  }

  lemma {:induction false} ChainedPrefix(rows: seq<Row>, i: nat, h: Setup)
    requires i <= |rows| && Chained(rows, h)
    ensures Chained(rows[..i], h)
  {
    if i < |rows| {
      ChainedPrefix(rows[..|rows| - 1], i, h);
      assert rows[..|rows| - 1][..i] == rows[..i];
    } else {
      assert rows[..i] == rows;
    }
  }

  // What a chain is, row by row: each carries the hash of the one before, the first what stands before all,
  // the hash of the schema, and last the hash of itself without that.
  ghost predicate LinkedRow(rows: seq<Row>, i: nat, h: Setup)
    requires i < |rows|
  {
    var row := rows[i];
    && Get(row, "prev_hash") == (if i == 0 then Str(h.genesis) else Get(rows[i - 1], "hash"))
    && Get(row, "schema_hash") == Str(h.schemaHash)
    && Get(row, "hash") == Str(h.hash(Obj(row - {"hash"})))
  }

  lemma {:induction false} ChainedExact(rows: seq<Row>, h: Setup)
    ensures Chained(rows, h) <==> forall i: nat | i < |rows| :: LinkedRow(rows, i, h)
  {
    if rows != [] {
      var n := |rows| - 1;
      ChainedExact(rows[..n], h);
      forall i: nat | i < n ensures LinkedRow(rows[..n], i, h) <==> LinkedRow(rows, i, h) {}
      if forall i: nat | i < n :: LinkedRow(rows, i, h) { LastLinked(rows, n, h); }
    }
  }

  lemma LastLinked(rows: seq<Row>, n: nat, h: Setup)
    requires n < |rows| && (n > 0 ==> LinkedRow(rows, n - 1, h))
    ensures RowFollows(rows[n], Tail(rows[..n], h), h) <==> LinkedRow(rows, n, h)
  {
    if n > 0 { assert rows[..n][n - 1] == rows[n - 1]; }
  }

  // _verify_existing_chain; false is the RuntimeError
  method VerifyExistingChain(rows: seq<Row>, h: Setup) returns (ok: bool)
    ensures ok <==> Chained(rows, h)
  {
    var prev := h.genesis;
    for i := 0 to |rows|
      invariant Chained(rows[..i], h) && prev == Tail(rows[..i], h)
    {
      var row := rows[i];
      var foundPrev, foundHash := Get(row, "prev_hash"), Get(row, "hash");
      assert rows[..i + 1][..i] == rows[..i] && rows[..i + 1][i] == row;
      if !RowFollows(row, prev, h) { NotChained(rows, i, h); }
      if !foundPrev.Str? || !foundHash.Str? {
        return false;
      }
      if foundPrev.s != prev {
        return false;
      }
      if Get(row, "schema_hash") != Str(h.schemaHash) {
        return false;
      }
      if h.hash(Body(row)) != foundHash.s {
        return false;
      }
      prev := foundHash.s;
    }
    assert rows[..|rows|] == rows;
    return true;
  }

  lemma NotChained(rows: seq<Row>, i: nat, h: Setup)
    requires i < |rows| && !RowFollows(rows[i], Tail(rows[..i], h), h)
    ensures !Chained(rows, h)
  {
    var front := rows[..i + 1];
    assert front[..i] == rows[..i] && front[i] == rows[i];
    if Chained(rows, h) { ChainedPrefix(rows, i + 1, h); }
  }

  // An embedded event, where there is one, must match its hash.
  predicate EmbeddedOk(row: Row, h: Setup) {
    var ev, evHash := Get(row, "event"), Get(row, "canonical_event_hash");
    ev.Obj? && evHash.Str? ==> evHash.s == h.hash(ev)
  }

  // The checks of one row of the audit tool, up to the embedded event.
  method VerifyAuditRow(row: Row, prev: string, h: Setup) returns (ok: bool)
    ensures ok <==> RowFollows(row, prev, h)
  {
    if Get(row, "prev_hash") != Str(prev) {
      return false;
    }
    if Get(row, "schema_hash") != Str(h.schemaHash) {
      return false;
    }
    var rowHash := Get(row, "hash");
    if !rowHash.Str? {
      return false;
    }
    return h.hash(Body(row)) == rowHash.s;
  }

  // verify_chain of the audit tool
  method VerifyAuditChain(rows: seq<Row>, h: Setup) returns (ok: bool)
    ensures ok <==> Chained(rows, h) && forall i | 0 <= i < |rows| :: EmbeddedOk(rows[i], h)
  {
    var prev := h.genesis;
    for i := 0 to |rows|
      invariant Chained(rows[..i], h) && prev == Tail(rows[..i], h)
      invariant forall j | 0 <= j < i :: EmbeddedOk(rows[j], h)
    {
      var follows := VerifyAuditRow(rows[i], prev, h);
      if !follows {
        NotChained(rows, i, h);
        return false;
      }
      if !EmbeddedOk(rows[i], h) {
        return false;
      }
      assert rows[..i + 1][..i] == rows[..i] && rows[..i + 1][i] == rows[i];
      prev := rows[i]["hash"].s;
    }
    assert rows[..|rows|] == rows;
    return true;
  }

  // ----- observing -----

  const FORBIDDEN_KEYS := {"api_key", "private_key", "seed_phrase", "mnemonic", "password", "secret", "token"}

  // _check_forbidden_keys: no key at any depth is forbidden, in any case of letters
  predicate NoForbiddenKey(j: Json, forbidden: set<string>) {
    match j
    case Obj(fields) =>
      forall k | k in fields :: Lower(k) !in forbidden && NoForbiddenKey(fields[k], forbidden)
    case Arr(items) => forall i | 0 <= i < |items| :: NoForbiddenKey(items[i], forbidden)
    case _ => true
  }

  // A path that ends in an object with a forbidden key.
  ghost predicate LeadsToForbidden(j: Json, tokens: seq<string>, k: string, forbidden: set<string>) {
    var end := Patch.Walk(j, tokens);
    end.Ok? && end.value.Obj? && k in end.value.fields && Lower(k) in forbidden
  }

  lemma {:induction false} AllowedOnPaths(j: Json, tokens: seq<string>, k: string, forbidden: set<string>)
    requires NoForbiddenKey(j, forbidden)
    ensures !LeadsToForbidden(j, tokens, k, forbidden)
  {
    if tokens != [] && Patch.Child(j, tokens[0]).Ok? {
      AllowedOnPaths(Patch.Child(j, tokens[0]).value, tokens[1..], k, forbidden);
    }
  }

  lemma {:induction false} StepDown(j: Json, token: string, tokens: seq<string>, k: string, forbidden: set<string>)
    requires Patch.Child(j, token).Ok? && LeadsToForbidden(Patch.Child(j, token).value, tokens, k, forbidden)
    ensures LeadsToForbidden(j, [token] + tokens, k, forbidden)
  {
    assert ([token] + tokens)[1..] == tokens;
  }

  lemma {:induction false} ForbiddenHasPath(j: Json, forbidden: set<string>) returns (tokens: seq<string>, k: string)
    requires !NoForbiddenKey(j, forbidden)
    ensures LeadsToForbidden(j, tokens, k, forbidden)
  {
    if j.Obj? {
      var key :| key in j.fields && (Lower(key) in forbidden || !NoForbiddenKey(j.fields[key], forbidden));
      if Lower(key) in forbidden {
        tokens, k := [], key;
      } else {
        tokens, k := ForbiddenHasPath(j.fields[key], forbidden);
        StepDown(j, key, tokens, k, forbidden);
        tokens := [key] + tokens;
      }
    } else {
      var i: nat :| i < |j.items| && !NoForbiddenKey(j.items[i], forbidden);
      ParseIntDigits(i);
      tokens, k := ForbiddenHasPath(j.items[i], forbidden);
      StepDown(j, Digits(i), tokens, k, forbidden);
      tokens := [Digits(i)] + tokens;
    }
  }

  // The check passes exactly when no path into the value leads to a forbidden key.
  lemma {:induction false} NoForbiddenKeyExact(j: Json, forbidden: set<string>)
    ensures NoForbiddenKey(j, forbidden) <==> forall tokens, k :: !LeadsToForbidden(j, tokens, k, forbidden)
  {
    if NoForbiddenKey(j, forbidden) {
      forall tokens, k ensures !LeadsToForbidden(j, tokens, k, forbidden) { AllowedOnPaths(j, tokens, k, forbidden); }
    } else {
      var tokens, k := ForbiddenHasPath(j, forbidden);
    }
  }

  predicate NonEmptyText(j: Json) {
    j.Str? && j.s != ""
  }

  // The event schema: exactly these six properties, of these types.
  predicate Conforms(fields: Row) {
    && fields.Keys == {"event_id", "ts", "schema_id", "kind", "meta", "preview"}
    && NonEmptyText(fields["event_id"]) && NonEmptyText(fields["ts"]) && NonEmptyText(fields["kind"])
    && fields["schema_id"] == Str(SCHEMA_ID)
    && fields["meta"].Obj? && fields["preview"].Obj?
  }

  // One call: the event as given, the random id, and the two readings of the clock.
  datatype Call = Call(event: Json, freshId: string, eventTime: string, rowTime: string)

  function WithDefaults(call: Call): Row
    requires call.event.Obj?
  {
    var e := call.event.fields;
    var e1 := if "event_id" in e then e else e["event_id" := Str("obs_" + call.freshId)];
    var e2 := if "ts" in e1 then e1 else e1["ts" := Str(call.eventTime)];
    e2["schema_id" := Str(SCHEMA_ID)]
  }

  // _build_chain_record
  function RowWithoutHash(event: Row, prev: string, rowTime: string, h: Setup): Row {
    map["event_id" := Get(event, "event_id"),
        "ts" := Str(rowTime),
        "schema_id" := Str(SCHEMA_ID),
        "schema_hash" := Str(h.schemaHash),
        "canonical_event_hash" := Str(h.hash(Obj(event))),
        "prev_hash" := Str(prev)]
  }

  function ChainRow(event: Row, prev: string, rowTime: string, h: Setup): Row {
    var row := RowWithoutHash(event, prev, rowTime, h);
    row["hash" := Str(h.hash(Obj(row)))]
  }

  datatype Logs = Logs(events: seq<Json>, chain: seq<Row>)

  // The checks on the call itself.
  predicate Observable(call: Call, h: Setup) {
    call.event.Obj? && h.admits(WithDefaults(call))
  }

  // observe_event: one line on each log, or nothing.
  function Observed(logs: Logs, call: Call, h: Setup): Logs {
    if Observable(call, h) && Chained(logs.chain, h) then
      var event := WithDefaults(call);
      Logs(logs.events + [Obj(event)], logs.chain + [ChainRow(event, Tail(logs.chain, h), call.rowTime, h)])
    else logs
  }

  class Observer {
    var events: seq<Json>
    var chain: seq<Row>
    const h: Setup

    constructor (h: Setup)
      ensures events == [] && chain == [] && this.h == h
    {
      this.h := h;
      events, chain := [], [];
    }

    // Err is any RuntimeError; the value is the hash of the new row.
    method ObserveEvent(call: Call) returns (r: Result<string>)
      modifies this`events, this`chain
      ensures Logs(events, chain) == Observed(old(Logs(events, chain)), call, h)
      ensures r.Ok? <==> Observable(call, h) && Chained(old(chain), h)
      ensures r.Ok? ==> chain != [] && Get(chain[|chain| - 1], "hash") == Str(r.value)
    {
      if !call.event.Obj? {
        return Err;
      }
      var event := WithDefaults(call);
      if !h.admits(event) {
        return Err;
      }
      var ok := VerifyExistingChain(chain, h);
      if !ok {
        return Err;
      }
      var prev := Tail(chain, h);
      var row := ChainRow(event, prev, call.rowTime, h);
      events := events + [Obj(event)];
      chain := chain + [row];
      return Ok(row["hash"].s);
    }
  }

  // ----- every run -----

  function RunAll(logs: Logs, calls: seq<Call>, h: Setup): Logs {
    if calls == [] then logs else Observed(RunAll(logs, calls[..|calls| - 1], h), calls[|calls| - 1], h)
  }

  // Row i of the chain holds the id and the hash of event i, and no row embeds an event.
  ghost predicate Paired(logs: Logs, h: Setup) {
    && |logs.events| == |logs.chain|
    && forall i | 0 <= i < |logs.events| :: RowOf(logs.chain[i], logs.events[i], h)
  }

  ghost predicate RowOf(row: Row, event: Json, h: Setup) {
    && event.Obj? && Get(row, "event_id") == Get(event.fields, "event_id")
    && Get(row, "canonical_event_hash") == Str(h.hash(event))
    && "event" !in row
  }

  lemma ChainRowFollows(event: Row, prev: string, rowTime: string, h: Setup)
    ensures RowFollows(ChainRow(event, prev, rowTime, h), prev, h)
    ensures RowOf(ChainRow(event, prev, rowTime, h), Obj(event), h)
  {
    var row := RowWithoutHash(event, prev, rowTime, h);
    assert row["hash" := Str(h.hash(Obj(row)))] - {"hash"} == row;
  }

  lemma {:induction false} ObservedKeeps(logs: Logs, call: Call, h: Setup)
    requires Chained(logs.chain, h) && Paired(logs, h)
    ensures Chained(Observed(logs, call, h).chain, h) && Paired(Observed(logs, call, h), h)
    ensures |Observed(logs, call, h).chain| == |logs.chain| + (if Observable(call, h) then 1 else 0)
  {
    if Observable(call, h) {
      var event := WithDefaults(call);
      var row := ChainRow(event, Tail(logs.chain, h), call.rowTime, h);
      ChainRowFollows(event, Tail(logs.chain, h), call.rowTime, h);
      assert (logs.chain + [row])[..|logs.chain|] == logs.chain;
    }
  }

  function CountObservable(calls: seq<Call>, h: Setup): nat {
    if calls == [] then 0 else
    CountObservable(calls[..|calls| - 1], h) + (if Observable(calls[|calls| - 1], h) then 1 else 0)
  }

  // Every run from empty logs, rejected calls included: both verifiers accept the chain, the logs
  // pair up row by row, and exactly the calls that pass their own checks were recorded.
  lemma {:induction false} EveryRun(calls: seq<Call>, h: Setup)
    ensures var logs := RunAll(Logs([], []), calls, h);
            && Chained(logs.chain, h)
            && (forall i | 0 <= i < |logs.chain| :: EmbeddedOk(logs.chain[i], h))
            && Paired(logs, h)
            && |logs.chain| == CountObservable(calls, h)
  {
    if calls != [] {
      var n := |calls| - 1;
      EveryRun(calls[..n], h);
      ObservedKeeps(RunAll(Logs([], []), calls[..n], h), calls[n], h);
    }
    var logs := RunAll(Logs([], []), calls, h);
    forall i | 0 <= i < |logs.chain| ensures EmbeddedOk(logs.chain[i], h) {
      assert RowOf(logs.chain[i], logs.events[i], h);
    }
  }

  // ----- the tail hash fixes the chain -----

  function Bodies(rows: seq<Row>): set<Json> {
    set i | 0 <= i < |rows| :: Body(rows[i])
  }

  ghost predicate CollisionFree(h: Setup, values: set<Json>) {
    && (forall a, b | a in values && b in values :: h.hash(a) == h.hash(b) ==> a == b)
    && (forall a | a in values :: h.hash(a) != h.genesis)
  }

  // A row is its body and its hash.
  lemma RowFromBody(a: Row, b: Row)
    requires Body(a) == Body(b)
    requires "hash" in a && "hash" in b && a["hash"] == b["hash"]
    ensures a == b
  {
    forall k | k in a || k in b ensures k in a && k in b && a[k] == b[k] {
      if k != "hash" { assert k in a - {"hash"} <==> k in b - {"hash"}; }
    }
  }

  lemma SameRow(a: Row, b: Row, p: string, q: string, h: Setup)
    requires RowFollows(a, p, h) && RowFollows(b, q, h)
    requires h.hash(Body(a)) == h.hash(Body(b)) ==> Body(a) == Body(b)
    requires Get(a, "hash") == Get(b, "hash")
    ensures a == b && p == q
  {
    RowFromBody(a, b);
  }

  lemma BodiesOf(rows: seq<Row>)
    requires rows != []
    ensures Bodies(rows[..|rows| - 1]) <= Bodies(rows) && Body(rows[|rows| - 1]) in Bodies(rows)
  {
    forall x | x in Bodies(rows[..|rows| - 1]) ensures x in Bodies(rows) {
      var i :| 0 <= i < |rows| - 1 && Body(rows[..|rows| - 1][i]) == x;
      assert rows[..|rows| - 1][i] == rows[i];
    }
  }

  lemma {:induction false} TailIsNotGenesis(rows: seq<Row>, h: Setup, values: set<Json>)
    requires rows != [] && Chained(rows, h) && Bodies(rows) <= values && CollisionFree(h, values)
    ensures Tail(rows, h) != h.genesis
  {
    BodiesOf(rows);
  }

  lemma {:induction false} LastRowsSame(a: seq<Row>, b: seq<Row>, h: Setup, values: set<Json>)
    requires a != [] && b != [] && Chained(a, h) && Chained(b, h) && Tail(a, h) == Tail(b, h)
    requires Bodies(a) <= values && Bodies(b) <= values && CollisionFree(h, values)
    ensures a[|a| - 1] == b[|b| - 1] && Tail(a[..|a| - 1], h) == Tail(b[..|b| - 1], h)
  {
    BodiesOf(a);
    BodiesOf(b);
    SameRow(a[|a| - 1], b[|b| - 1], Tail(a[..|a| - 1], h), Tail(b[..|b| - 1], h), h);
  }

  // Two accepted chains that end in the same hash are identical row for row, as long as the hash
  // has no collision among their rows and never gives the genesis value.
  lemma {:induction false} TailFixesChain(a: seq<Row>, b: seq<Row>, h: Setup, values: set<Json>)
    requires Chained(a, h) && Chained(b, h)
    requires Tail(a, h) == Tail(b, h)
    requires Bodies(a) <= values && Bodies(b) <= values && CollisionFree(h, values)
    ensures a == b
    decreases |a|
  {
    if a == [] {
      if b != [] { TailIsNotGenesis(b, h, values); }
    } else if b == [] {
      TailIsNotGenesis(a, h, values);
    } else {
      LastRowsSame(a, b, h, values);
      BodiesOf(a);
      BodiesOf(b);
      TailFixesChain(a[..|a| - 1], b[..|b| - 1], h, values);
      assert a == a[..|a| - 1] + [a[|a| - 1]] && b == b[..|b| - 1] + [b[|b| - 1]];
    }
  }

  // Hashing canonical texts, a digest without collisions on the texts has none on the values.
  lemma {:induction false} KernelSetupInherits(digest: string -> string, schema: Json, values: set<Json>)
    requires forall a, b | a in values && b in values :: digest(Print(a)) == digest(Print(b)) ==> Print(a) == Print(b)
    requires forall a | a in values :: digest(Print(a)) != Zeros(64)
    ensures CollisionFree(KernelSetup(digest, schema), values)
  {
    var h := KernelSetup(digest, schema);
    forall a, b | a in values && b in values && h.hash(a) == h.hash(b) ensures a == b { PrintInjective(a, b); }
  }
}
