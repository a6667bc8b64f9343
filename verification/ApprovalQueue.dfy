// infra/storage/approval_queue_repo.py and the queue readers of jobs/bridge_approved_auto_proposals.py
// and jobs/bridge_queue_approvals_to_legacy.py: an append-only event log and three ways of merging it.

module QueueRecords {
  import opened Basics
  import opened JsonModel
  import opened Text

  type Record = map<string, Json>

  const ENQUEUE := "APPROVAL_ENQUEUE_V1"
  const UPDATE := "APPROVAL_UPDATE_V1"
  const DECISION := "APPROVAL_DECISION_V1"
  const PENDING := "PENDING"

  // s.upper(), exact wherever the result is compared with one of the three statuses: besides a to z,
  // only the dotless i and the long s have an ASCII letter as their upper case.
  function UpperChar(c: char): char {
    if 'a' <= c <= 'z' then (c as int - 32) as char
    else if c as int == 0x131 then 'I'
    else if c as int == 0x17F then 'S'
    else c
  }

  function Upper(s: string): string {
    if s == [] then [] else [UpperChar(s[0])] + Upper(s[1..])
  }

  // The status an update asks for; None is the ValueError.
  function StatusWord(status: string): Option<string> {
    var s := Upper(Strip(status));
    if s == PENDING || s == "APPROVED" || s == "REJECTED" then Some(s) else None
  }

  // ----- what is appended -----

  function EnqueueRecord(id: string, ts: string, proposal: Record): Record {
    map["record_type" := Str(ENQUEUE),
        "approval_id" := Str(id),
        "ts" := Str(ts),
        "kind" := Str("POLICY_PATCH_PROPOSAL_REVIEW"),
        "proposal_id" := Get(proposal, "proposal_id"),
        "org_id" := Get(proposal, "org_id"),
        "site_id" := Get(proposal, "site_id"),
        "channel" := Get(proposal, "channel"),
        "status" := Str(PENDING),
        "proposal" := Obj(proposal)]
  }

  function MarkRecord(id: string, ts: string, status: string, note: Json): Record {
    map["record_type" := Str(UPDATE),
        "approval_id" := Str(id),
        "ts" := Str(ts),
        "status" := Str(status),
        "note" := note]
  }

  function ReviewRecord(id: string, ts: string, status: string, note: Json, reviewer: string, role: string, metadata: Record): Record {
    map["record_type" := Str(UPDATE),
        "approval_id" := Str(id),
        "ts" := Str(ts),
        "status" := Str(status),
        "note" := note,
        "reviewer_id" := Str(reviewer),
        "reviewer_role" := Str(role),
        "metadata" := Obj(metadata)]
  }

  // ----- how each reader understands a record -----

  // The reader of the queue, of the proposal bridge and of the legacy bridge run the same loops with
  // these five things different.
  datatype Rules = Rules(
    id: Record -> Json,
    enqueue: Record -> bool,
    update: Record -> bool,
    fallback: Record -> bool,
    view: (Record, Record) -> Record)

  function ApprovalId(r: Record): Json {
    Get(r, "approval_id")
  }

  function Or(a: Json, b: Json): Json {
    if Truthy(a) then a else b
  }

  predicate IsEnqueue(r: Record) {
    Get(r, "record_type") == Str(ENQUEUE)
  }

  predicate IsUpdate(r: Record) {
    Get(r, "record_type") == Str(UPDATE)
  }

  // if upd.get(from) is not None: view[to] = upd.get(from)
  function Carry(view: Record, upd: Record, from: string, to: string): Record {
    if Get(upd, from) != Null then view[to := upd[from]] else view
  }

  function WithStatus(base: Record, upd: Record): Record {
    base["status" := if "status" in upd then upd["status"] else Get(base, "status")]["status_updated_ts" := Get(upd, "ts")]
  }

  function LegacyView(base: Record, upd: Record): Record {
    Carry(WithStatus(base, upd), upd, "note", "status_note")
  }

  function BridgeView(base: Record, upd: Record): Record {
    Carry(Carry(LegacyView(base, upd), upd, "reviewer_id", "reviewer_id"), upd, "reviewer_role", "reviewer_role")
  }

  function QueueView(base: Record, upd: Record): Record {
    Carry(BridgeView(base, upd), upd, "metadata", "review_metadata")
  }

  function BridgeType(r: Record): Json {
    Or(Or(Get(r, "record_type"), Get(r, "type")), Str(""))
  }

  predicate BridgeEnqueue(r: Record) {
    BridgeType(r) == Str(ENQUEUE) || ("proposal" in r && Get(r, "status") == Str(PENDING) && "kind" in r)
  }

  predicate BridgeUpdate(r: Record) {
    || BridgeType(r) == Str(UPDATE) || BridgeType(r) == Str(DECISION)
    || ("status" in r && "ts" in r && "approval_id" in r)
  }

  function QueueRules(): Rules {
    Rules(ApprovalId, IsEnqueue, IsUpdate, (r: Record) => false, QueueView)
  }

  function LegacyRules(): Rules {
    Rules(ApprovalId, IsEnqueue, IsUpdate, (r: Record) => false, LegacyView)
  }

  function BridgeRules(): Rules {
    Rules((r: Record) => Or(ApprovalId(r), Get(r, "id")), BridgeEnqueue, BridgeUpdate,
          (r: Record) => "proposal" in r && "status" in r, BridgeView)
  }

  // ----- all three understand what the queue appends -----

  ghost predicate AsEnqueue(r: Record, id: string, rules: Rules) {
    rules.id(r) == Str(id) && rules.enqueue(r) && Get(r, "status") == Str(PENDING)
  }

  ghost predicate AsUpdate(r: Record, id: string, status: string, rules: Rules) {
    rules.id(r) == Str(id) && !rules.enqueue(r) && rules.update(r) && "status" in r && r["status"] == Str(status)
  }

  ghost predicate Understands(rules: Rules) {
    && (forall id, ts, proposal | id != "" :: AsEnqueue(EnqueueRecord(id, ts, proposal), id, rules))
    && (forall id, ts, status, note | id != "" :: AsUpdate(MarkRecord(id, ts, status, note), id, status, rules))
    && (forall id, ts, status, note, who, role, metadata | id != "" ::
          AsUpdate(ReviewRecord(id, ts, status, note, who, role, metadata), id, status, rules))
    && (forall base, upd | "status" in upd :: Get(rules.view(base, upd), "status") == upd["status"])
  }

  lemma CarryKeepsStatus(view: Record, upd: Record, from: string, to: string)
    requires to != "status"
    ensures Get(Carry(view, upd, from, to), "status") == Get(view, "status")
  {
  }

  lemma ViewsTakeStatus(base: Record, upd: Record)
    requires "status" in upd
    ensures Get(LegacyView(base, upd), "status") == upd["status"]
    ensures Get(BridgeView(base, upd), "status") == upd["status"]
    ensures Get(QueueView(base, upd), "status") == upd["status"]
  {
    var v, w := LegacyView(base, upd), BridgeView(base, upd);
    CarryKeepsStatus(WithStatus(base, upd), upd, "note", "status_note");
    CarryKeepsStatus(v, upd, "reviewer_id", "reviewer_id");
    CarryKeepsStatus(Carry(v, upd, "reviewer_id", "reviewer_id"), upd, "reviewer_role", "reviewer_role");
    CarryKeepsStatus(w, upd, "metadata", "review_metadata");
  }

  lemma PlainReadsEnqueue(id: string, ts: string, proposal: Record)
    requires id != ""
    ensures AsEnqueue(EnqueueRecord(id, ts, proposal), id, QueueRules())
    ensures AsEnqueue(EnqueueRecord(id, ts, proposal), id, LegacyRules())
  {
  }

  lemma PlainReadsMark(id: string, ts: string, status: string, note: Json)
    requires id != ""
    ensures AsUpdate(MarkRecord(id, ts, status, note), id, status, QueueRules())
    ensures AsUpdate(MarkRecord(id, ts, status, note), id, status, LegacyRules())
  {
  }

  lemma PlainReadsReview(id: string, ts: string, status: string, note: Json, who: string, role: string, metadata: Record)
    requires id != ""
    ensures AsUpdate(ReviewRecord(id, ts, status, note, who, role, metadata), id, status, QueueRules())
    ensures AsUpdate(ReviewRecord(id, ts, status, note, who, role, metadata), id, status, LegacyRules())
  {
  }

  lemma BridgeReadsEnqueue(id: string, ts: string, proposal: Record)
    requires id != ""
    ensures AsEnqueue(EnqueueRecord(id, ts, proposal), id, BridgeRules())
  {
  }

  lemma BridgeReadsMark(id: string, ts: string, status: string, note: Json)
    requires id != ""
    ensures AsUpdate(MarkRecord(id, ts, status, note), id, status, BridgeRules())
  {
  }

  lemma BridgeReadsReview(id: string, ts: string, status: string, note: Json, who: string, role: string, metadata: Record)
    requires id != ""
    ensures AsUpdate(ReviewRecord(id, ts, status, note, who, role, metadata), id, status, BridgeRules())
  {
  }

  lemma {:induction false} QueueUnderstands()
    ensures Understands(QueueRules())
  {
    var rules := QueueRules();
    forall id, ts, proposal | id != "" ensures AsEnqueue(EnqueueRecord(id, ts, proposal), id, rules) {
      PlainReadsEnqueue(id, ts, proposal);
    }
    forall id, ts, status, note | id != "" ensures AsUpdate(MarkRecord(id, ts, status, note), id, status, rules) {
      PlainReadsMark(id, ts, status, note);
    }
    forall id, ts, status, note, who, role, metadata | id != ""
      ensures AsUpdate(ReviewRecord(id, ts, status, note, who, role, metadata), id, status, rules)
    {
      PlainReadsReview(id, ts, status, note, who, role, metadata);
    }
    forall base: Record, upd: Record | "status" in upd ensures Get(rules.view(base, upd), "status") == upd["status"] {
      ViewsTakeStatus(base, upd);
    }
  }

  lemma {:induction false} LegacyUnderstands()
    ensures Understands(LegacyRules())
  {
    var rules := LegacyRules();
    forall id, ts, proposal | id != "" ensures AsEnqueue(EnqueueRecord(id, ts, proposal), id, rules) {
      PlainReadsEnqueue(id, ts, proposal);
    }
    forall id, ts, status, note | id != "" ensures AsUpdate(MarkRecord(id, ts, status, note), id, status, rules) {
      PlainReadsMark(id, ts, status, note);
    }
    forall id, ts, status, note, who, role, metadata | id != ""
      ensures AsUpdate(ReviewRecord(id, ts, status, note, who, role, metadata), id, status, rules)
    {
      PlainReadsReview(id, ts, status, note, who, role, metadata);
    }
    forall base: Record, upd: Record | "status" in upd ensures Get(rules.view(base, upd), "status") == upd["status"] {
      ViewsTakeStatus(base, upd);
    }
  }

  lemma {:induction false} BridgeUnderstands()
    ensures Understands(BridgeRules())
  {
    var rules := BridgeRules();
    forall id, ts, proposal | id != "" ensures AsEnqueue(EnqueueRecord(id, ts, proposal), id, rules) {
      BridgeReadsEnqueue(id, ts, proposal);
    }
    forall id, ts, status, note | id != "" ensures AsUpdate(MarkRecord(id, ts, status, note), id, status, rules) {
      BridgeReadsMark(id, ts, status, note);
    }
    forall id, ts, status, note, who, role, metadata | id != ""
      ensures AsUpdate(ReviewRecord(id, ts, status, note, who, role, metadata), id, status, rules)
    {
      BridgeReadsReview(id, ts, status, note, who, role, metadata);
    }
    forall base: Record, upd: Record | "status" in upd ensures Get(rules.view(base, upd), "status") == upd["status"] {
      ViewsTakeStatus(base, upd);
    }
  }
}

module ApprovalQueue {
  import opened Basics
  import opened JsonModel
  import opened Text
  import opened Sorting
  import opened QueueRecords

  // ----- merging -----

  // A Python dict: a key stays where it was first put.
  datatype Dict = Dict(keys: seq<Json>, at: map<Json, Record>)

  const EMPTY := Dict([], map[])

  function Put(d: Dict, k: Json, r: Record): Dict {
    Dict(if k in d.at then d.keys else d.keys + [k], d.at[k := r])
  }

  ghost predicate Keyed(d: Dict) {
    Distinct(d.keys) && Elements(d.keys) == d.at.Keys
  }

  lemma PutKeyed(d: Dict, k: Json, r: Record)
    requires Keyed(d)
    ensures Keyed(Put(d, k, r))
  {
    assert k in d.keys <==> k in Elements(d.keys);
    assert forall x :: x in d.keys + [k] <==> x in d.keys || x == k;
  }

  datatype Tables = Tables(base: Dict, updates: map<Json, Record>)

  // The body of the first loop.
  function Read(t: Tables, r: Record, rules: Rules): Tables {
    var id := rules.id(r);
    if !Truthy(id) then t
    else if rules.enqueue(r) then t.(base := Put(t.base, id, r))
    else if rules.update(r) then t.(updates := t.updates[id := r])
    else if rules.fallback(r) && id !in t.base.at then t.(base := Put(t.base, id, r))
    else t
  }

  function ReadAll(log: seq<Record>, rules: Rules): Tables {
    if log == [] then Tables(EMPTY, map[]) else Read(ReadAll(log[..|log| - 1], rules), log[|log| - 1], rules)
  }

  lemma {:induction false} ReadAllKeyed(log: seq<Record>, rules: Rules)
    ensures Keyed(ReadAll(log, rules).base)
  {
    if log != [] {
      ReadAllKeyed(log[..|log| - 1], rules);
      var t, r := ReadAll(log[..|log| - 1], rules), log[|log| - 1];
      PutKeyed(t.base, rules.id(r), r);
    }
  }

  function View(t: Tables, id: Json, rules: Rules): Record
    requires id in t.base.at
  {
    if id in t.updates && t.updates[id] != map[] then rules.view(t.base.at[id], t.updates[id]) else t.base.at[id]
  }

  function Merged(log: seq<Record>, rules: Rules): Dict {
    var t := ReadAll(log, rules);
    Dict(t.base.keys, map id | id in t.base.at :: View(t, id, rules))
  }

  // The first loop of a reader.
  method ReadLog(log: seq<Record>, rules: Rules) returns (t: Tables)
    ensures t == ReadAll(log, rules)
  {
    t := Tables(EMPTY, map[]);
    for i := 0 to |log|
      invariant t == ReadAll(log[..i], rules)
    {
      assert log[..i + 1][..i] == log[..i];
      t := Read(t, log[i], rules);
    }
    assert log[..|log|] == log;
  }

  // The second loop.
  method ViewAll(t: Tables, rules: Rules) returns (merged: Dict)
    requires Keyed(t.base)
    ensures merged == Dict(t.base.keys, map id | id in t.base.at :: View(t, id, rules))
  {
    var keys, at := t.base.keys, map[];
    for i := 0 to |keys|
      invariant forall id :: id in at <==> id in keys[..i]
      invariant forall id | id in at :: id in t.base.at && at[id] == View(t, id, rules)
    {
      assert keys[i] in Elements(keys);
      assert keys[..i + 1] == keys[..i] + [keys[i]];
      at := at[keys[i] := View(t, keys[i], rules)];
    }
    assert keys[..|keys|] == keys;
    assert at.Keys == Elements(keys);
    merged := Dict(keys, at);
  }

  // _merge_latest_views, _merge_approval_queue_records and _merge_queue
  method Merge(log: seq<Record>, rules: Rules) returns (merged: Dict)
    ensures merged == Merged(log, rules)
  {
    var t := ReadLog(log, rules);
    ReadAllKeyed(log, rules);
    merged := ViewAll(t, rules);
  }

  // ----- the queue -----

  datatype Command =
    | Enqueue(id: string, ts: string, proposal: Record)
    | Mark(id: string, ts: string, status: string, note: Json)
    | Update(id: string, ts: string, status: string, note: Json, reviewer: string, role: string, metadata: Record)

  predicate Known(log: seq<Record>, id: string) {
    Str(id) in Merged(log, QueueRules()).at
  }

  // What a command appends, if anything.
  function Appended(log: seq<Record>, c: Command): Option<Record> {
    match c
    case Enqueue(id, ts, proposal) => Some(EnqueueRecord(id, ts, proposal))
    case Mark(id, ts, status, note) =>
      (match StatusWord(status)
       case Some(s) => Some(MarkRecord(id, ts, s, note))
       case None => None)
    case Update(id, ts, status, note, who, role, metadata) =>
      (match StatusWord(status)
       case Some(s) => if Known(log, id) then Some(ReviewRecord(id, ts, s, note, who, role, metadata)) else None
       case None => None)
  }

  function Step(log: seq<Record>, c: Command): seq<Record> {
    match Appended(log, c)
    case Some(r) => log + [r]
    case None => log
  }

  class FileBackedApprovalQueue {
    var log: seq<Record>

    constructor ()
      ensures log == []
    {
      log := [];
    }

    // enqueue, the random part of the id and the time being given
    method AddProposal(proposal: Record, freshHex: string, ts: string) returns (id: string)
      modifies this
      ensures id == "appr_" + freshHex
      ensures log == Step(old(log), Enqueue(id, ts, proposal))
    {
      id := "appr_" + freshHex;
      log := log + [EnqueueRecord(id, ts, proposal)];
    }

    // mark_status; false is the ValueError
    method MarkStatus(id: string, status: string, note: Json, ts: string) returns (ok: bool)
      modifies this
      ensures ok <==> StatusWord(status).Some?
      ensures log == Step(old(log), Mark(id, ts, status, note))
    {
      var word := StatusWord(status);
      if word.None? {
        return false;
      }
      log := log + [MarkRecord(id, ts, word.value, note)];
      return true;
    }

    // update_status; Err is the ValueError
    method UpdateStatus(id: string, status: string, note: Json, reviewer: string, role: string, metadata: Record, ts: string)
      returns (r: Result<bool>)
      modifies this
      ensures r == if StatusWord(status).None? then Err else Ok(Known(old(log), id))
      ensures r != Ok(true) ==> log == old(log)
      ensures log == Step(old(log), Update(id, ts, status, note, reviewer, role, metadata))
    {
      var word := StatusWord(status);
      if word.None? {
        return Err;
      }
      var base := GetById(id);
      if base.None? {
        return Ok(false);
      }
      log := log + [ReviewRecord(id, ts, word.value, note, reviewer, role, metadata)];
      return Ok(true);
    }

    // get_by_id
    method GetById(id: string) returns (r: Option<Record>)
      ensures r.Some? <==> Known(log, id)
      ensures r.Some? ==> r.value == Merged(log, QueueRules()).at[Str(id)]
    {
      var merged := Merge(log, QueueRules());
      return if Str(id) in merged.at then Some(merged.at[Str(id)]) else None;
    }

    // list_recent; text is Python's str
    method ListRecent(limit: int, status: string, text: Json -> string) returns (r: seq<Record>)
      ensures r == Recent(Merged(log, QueueRules()), limit, status, text)
    {
      if limit <= 0 {
        return [];
      }
      var merged := Merge(log, QueueRules());
      var items := Matching(Values(merged), status, text);
      items := Sorted(Newer(text), items);
      return if limit < |items| then items[..limit] else items;
    }
  }

  // ----- every run -----

  function LogOf(cmds: seq<Command>): seq<Record> {
    if cmds == [] then [] else Step(LogOf(cmds[..|cmds| - 1]), cmds[|cmds| - 1])
  }

  // Ids of new approvals are random: no command has used them before.
  ghost predicate FreshIds(cmds: seq<Command>) {
    forall j | 0 <= j < |cmds| && cmds[j].Enqueue? ::
      cmds[j].id != "" && forall i | 0 <= i < j :: cmds[i].id != cmds[j].id
  }

  // The status of an approval, told from the commands alone: pending once it is enqueued, then
  // whatever the last valid update of it said.
  function StatusOf(cmds: seq<Command>, id: string): Option<string> {
    if cmds == [] then None else
    var c, was := cmds[|cmds| - 1], StatusOf(cmds[..|cmds| - 1], id);
    if c.id != id then was
    else if c.Enqueue? then Some(PENDING)
    else if was.Some? && StatusWord(c.status).Some? then StatusWord(c.status)
    else was
  }

  // The approvals in the order they were enqueued.
  function EnqueuedIds(cmds: seq<Command>): seq<Json> {
    if cmds == [] then []
    else EnqueuedIds(cmds[..|cmds| - 1]) + (if cmds[|cmds| - 1].Enqueue? then [Str(cmds[|cmds| - 1].id)] else [])
  }

  ghost predicate Used(cmds: seq<Command>, id: string) {
    exists i :: 0 <= i < |cmds| && cmds[i].id == id
  }

  ghost predicate StatusIn(t: Tables, id: string, status: string) {
    && Str(id) in t.base.at
    && if Str(id) in t.updates then "status" in t.updates[Str(id)] && t.updates[Str(id)]["status"] == Str(status)
       else status == PENDING && Get(t.base.at[Str(id)], "status") == Str(PENDING)
  }

  ghost predicate Tracks(t: Tables, cmds: seq<Command>) {
    && t.base.keys == EnqueuedIds(cmds)
    && (forall k | k in t.base.at :: k.Str? && StatusOf(cmds, k.s).Some?)
    && (forall id | StatusOf(cmds, id).Some? :: StatusIn(t, id, StatusOf(cmds, id).value))
    && (forall k | k in t.updates :: k.Str? && Used(cmds, k.s))
  }

  lemma UsedStep(cmds: seq<Command>, c: Command)
    ensures forall id :: Used(cmds + [c], id) <==> Used(cmds, id) || id == c.id
  {
    forall id ensures Used(cmds + [c], id) <==> Used(cmds, id) || id == c.id {
      if Used(cmds, id) {
        var i :| 0 <= i < |cmds| && cmds[i].id == id;
        assert (cmds + [c])[i].id == id;
      }
      if id == c.id { assert (cmds + [c])[|cmds|].id == id; }
    }
  }

  lemma {:induction false} StatusOfStep(cmds: seq<Command>, c: Command, id: string)
    ensures StatusOf(cmds + [c], id) ==
            (if c.id != id then StatusOf(cmds, id)
             else if c.Enqueue? then Some(PENDING)
             else if StatusOf(cmds, id).Some? && StatusWord(c.status).Some? then StatusWord(c.status)
             else StatusOf(cmds, id))
    ensures EnqueuedIds(cmds + [c]) == EnqueuedIds(cmds) + (if c.Enqueue? then [Str(c.id)] else [])
  {
    assert (cmds + [c])[..|cmds|] == cmds;
  }

  lemma {:induction false} OnlyUsedHaveStatus(cmds: seq<Command>, id: string)
    requires FreshIds(cmds) && StatusOf(cmds, id).Some?
    ensures Used(cmds, id) && id != ""
  {
    var front, c := cmds[..|cmds| - 1], cmds[|cmds| - 1];
    assert cmds == front + [c];
    UsedStep(front, c);
    if StatusOf(front, id).Some? { OnlyUsedHaveStatus(front, id); }
  }

  lemma {:induction false} TracksEnqueue(t: Tables, cmds: seq<Command>, c: Command, r: Record, rules: Rules)
    requires Tracks(t, cmds) && FreshIds(cmds) && c.Enqueue? && c.id != "" && !Used(cmds, c.id)
    requires AsEnqueue(r, c.id, rules)
    ensures Tracks(Read(t, r, rules), cmds + [c])
  {
    var after := Read(t, r, rules);
    UsedStep(cmds, c);
    StatusOfStep(cmds, c, c.id);
    if StatusOf(cmds, c.id).Some? { OnlyUsedHaveStatus(cmds, c.id); }
    assert Str(c.id) !in t.base.at && Str(c.id) !in t.updates;
    forall k | k in after.base.at ensures k.Str? && StatusOf(cmds + [c], k.s).Some? {
      if k != Str(c.id) { StatusOfStep(cmds, c, k.s); }
    }
    forall id | StatusOf(cmds + [c], id).Some? ensures StatusIn(after, id, StatusOf(cmds + [c], id).value) {
      StatusOfStep(cmds, c, id);
      if id != c.id { assert StatusIn(t, id, StatusOf(cmds, id).value); }
    }
  }

  lemma {:induction false} UpdateKeepsStatusIn(t: Tables, cmds: seq<Command>, c: Command, r: Record, rules: Rules, id: string)
    requires Tracks(t, cmds) && !c.Enqueue? && c.id != "" && StatusWord(c.status).Some?
    requires AsUpdate(r, c.id, StatusWord(c.status).value, rules) && StatusOf(cmds + [c], id).Some?
    ensures StatusIn(Read(t, r, rules), id, StatusOf(cmds + [c], id).value)
  {
    StatusOfStep(cmds, c, id);
    assert StatusIn(t, id, StatusOf(cmds, id).value);
  }

  lemma {:induction false} TracksUpdate(t: Tables, cmds: seq<Command>, c: Command, r: Record, rules: Rules)
    requires Tracks(t, cmds) && !c.Enqueue? && c.id != "" && StatusWord(c.status).Some?
    requires AsUpdate(r, c.id, StatusWord(c.status).value, rules)
    ensures Tracks(Read(t, r, rules), cmds + [c])
  {
    var after := Read(t, r, rules);
    UsedStep(cmds, c);
    StatusOfStep(cmds, c, c.id);
    forall k | k in after.base.at ensures k.Str? && StatusOf(cmds + [c], k.s).Some? { StatusOfStep(cmds, c, k.s); }
    forall id | StatusOf(cmds + [c], id).Some? ensures StatusIn(after, id, StatusOf(cmds + [c], id).value) {
      UpdateKeepsStatusIn(t, cmds, c, r, rules, id);
    }
  }

  // A command that changes no status leaves the tables in step.
  lemma {:induction false} TracksNothing(t: Tables, cmds: seq<Command>, c: Command)
    requires Tracks(t, cmds) && !c.Enqueue?
    requires StatusOf(cmds, c.id).None? || StatusWord(c.status).None?
    ensures Tracks(t, cmds + [c])
  {
    UsedStep(cmds, c);
    forall id ensures StatusOf(cmds + [c], id) == StatusOf(cmds, id) { StatusOfStep(cmds, c, id); }
    StatusOfStep(cmds, c, c.id);
  }

  lemma FreshIdsStep(cmds: seq<Command>, c: Command)
    requires FreshIds(cmds + [c])
    ensures FreshIds(cmds)
    ensures c.Enqueue? ==> c.id != "" && !Used(cmds, c.id)
  {
    var all := cmds + [c];
    assert all[|cmds|] == c;
    forall j | 0 <= j < |cmds| && cmds[j].Enqueue?
      ensures cmds[j].id != "" && forall i | 0 <= i < j :: cmds[i].id != cmds[j].id
    {
      assert all[j] == cmds[j];
      forall i | 0 <= i < j ensures cmds[i].id != cmds[j].id { assert all[i] == cmds[i]; }
    }
    if c.Enqueue? {
      forall i | 0 <= i < |cmds| ensures cmds[i].id != c.id { assert all[i] == cmds[i]; }
    }
  }

  lemma ReadAllStep(log: seq<Record>, r: Record, rules: Rules)
    ensures ReadAll(log + [r], rules) == Read(ReadAll(log, rules), r, rules)
  {
    assert (log + [r])[..|log|] == log;
  }

  // What it takes to read the queue: to understand its records and to skip those without an id.
  ghost predicate Reader(rules: Rules) {
    Understands(rules) && forall ts, status, note :: !Truthy(rules.id(MarkRecord("", ts, status, note)))
  }

  lemma ThreeReaders()
    ensures Reader(QueueRules()) && Reader(LegacyRules()) && Reader(BridgeRules())
  {
    QueueUnderstands();
    LegacyUnderstands();
    BridgeUnderstands();
  }

  lemma TracksKnown(log: seq<Record>, cmds: seq<Command>, id: string)
    requires Tracks(ReadAll(log, QueueRules()), cmds)
    ensures Known(log, id) <==> StatusOf(cmds, id).Some?
  {
    if StatusOf(cmds, id).Some? { assert StatusIn(ReadAll(log, QueueRules()), id, StatusOf(cmds, id).value); }
  }

  lemma {:induction false} TracksCommand(log: seq<Record>, cmds: seq<Command>, c: Command, rules: Rules)
    requires FreshIds(cmds + [c]) && Reader(rules)
    requires Tracks(ReadAll(log, rules), cmds) && Tracks(ReadAll(log, QueueRules()), cmds)
    ensures Tracks(ReadAll(Step(log, c), rules), cmds + [c])
  {
    FreshIdsStep(cmds, c);
    TracksKnown(log, cmds, c.id);
    if c.id == "" && StatusOf(cmds, "").Some? { OnlyUsedHaveStatus(cmds, ""); }
    var t := ReadAll(log, rules);
    match Appended(log, c)
    case None => TracksNothing(t, cmds, c);
    case Some(r) =>
      ReadAllStep(log, r, rules);
      if c.Enqueue? {
        TracksEnqueue(t, cmds, c, r, rules);
      } else if c.id == "" {
        TracksNothing(t, cmds, c);
      } else {
        TracksUpdate(t, cmds, c, r, rules);
      }
  }

  lemma {:induction false} LogTracks(cmds: seq<Command>, rules: Rules)
    requires FreshIds(cmds) && Reader(rules)
    ensures Tracks(ReadAll(LogOf(cmds), rules), cmds)
  {
    if cmds != [] {
      var front, c := cmds[..|cmds| - 1], cmds[|cmds| - 1];
      assert cmds == front + [c];
      FreshIdsStep(front, c);
      ThreeReaders();
      LogTracks(front, rules);
      LogTracks(front, QueueRules());
      TracksCommand(LogOf(front), front, c, rules);
    }
  }

  ghost predicate TellsStatuses(m: Dict, cmds: seq<Command>) {
    && m.keys == EnqueuedIds(cmds)
    && (forall k | k in m.at :: k.Str?)
    && (forall id :: Str(id) in m.at <==> StatusOf(cmds, id).Some?)
    && (forall id | StatusOf(cmds, id).Some? :: Get(m.at[Str(id)], "status") == Str(StatusOf(cmds, id).value))
  }

  lemma MergedTells(log: seq<Record>, cmds: seq<Command>, rules: Rules)
    requires Understands(rules) && Tracks(ReadAll(log, rules), cmds)
    ensures TellsStatuses(Merged(log, rules), cmds)
  {
    var t, m := ReadAll(log, rules), Merged(log, rules);
    forall id | StatusOf(cmds, id).Some?
      ensures Str(id) in m.at && Get(m.at[Str(id)], "status") == Str(StatusOf(cmds, id).value)
    {
      assert StatusIn(t, id, StatusOf(cmds, id).value);
    }
  }

  // After every run of the queue all three readers list the same approvals in the same order and tell
  // the same status of each: pending, or what the last valid update of it asked for.
  lemma {:induction false} MergersAgree(cmds: seq<Command>)
    requires FreshIds(cmds)
    ensures TellsStatuses(Merged(LogOf(cmds), QueueRules()), cmds)
    ensures TellsStatuses(Merged(LogOf(cmds), LegacyRules()), cmds)
    ensures TellsStatuses(Merged(LogOf(cmds), BridgeRules()), cmds)
  {
    ThreeReaders();
    LogTracks(cmds, QueueRules());
    LogTracks(cmds, LegacyRules());
    LogTracks(cmds, BridgeRules());
    MergedTells(LogOf(cmds), cmds, QueueRules());
    MergedTells(LogOf(cmds), cmds, LegacyRules());
    MergedTells(LogOf(cmds), cmds, BridgeRules());
  }

  // update_status writes exactly when the approval was enqueued and the status is one of the three.
  lemma {:induction false} UpdateNeedsEnqueue(cmds: seq<Command>, c: Command)
    requires FreshIds(cmds) && c.Update?
    ensures Step(LogOf(cmds), c) == LogOf(cmds) <==> StatusOf(cmds, c.id).None? || StatusWord(c.status).None?
  {
    ThreeReaders();
    LogTracks(cmds, QueueRules());
    TracksKnown(LogOf(cmds), cmds, c.id);
    if Appended(LogOf(cmds), c).Some? { assert |Step(LogOf(cmds), c)| == |LogOf(cmds)| + 1; }
  }

  // ----- listing -----

  function Values(d: Dict): seq<Record> {
    seq(|d.keys|, i requires 0 <= i < |d.keys| => if d.keys[i] in d.at then d.at[d.keys[i]] else map[])
  }

  function Filter(items: seq<Record>, wanted: Record -> bool): seq<Record> {
    if items == [] then []
    else Filter(items[..|items| - 1], wanted) + (if wanted(items[|items| - 1]) then [items[|items| - 1]] else [])
  }

  function Matching(items: seq<Record>, status: string, text: Json -> string): seq<Record> {
    if status == "" then items
    else Filter(items, (r: Record) => Upper(if "status" in r then text(r["status"]) else "") == Upper(Strip(status)))
  }

  function Stamp(r: Record, text: Json -> string): string {
    text(Or(Get(r, "ts"), Str("")))
  }

  // The order of sort(key=_ts, reverse=True).
  function Newer(text: Json -> string): (Record, Record) -> bool {
    (a: Record, b: Record) => !Less(Stamp(a, text), Stamp(b, text))
  }

  function Recent(merged: Dict, limit: int, status: string, text: Json -> string): seq<Record> {
    if limit <= 0 then [] else Take(Sorted(Newer(text), Matching(Values(merged), status, text)), limit)
  }

  lemma NewerIsPreorder(text: Json -> string)
    ensures Preorder(Newer(text))
  {
    var newer := Newer(text);
    forall a, b ensures newer(a, b) || newer(b, a) { LessTotal(Stamp(a, text), Stamp(b, text)); }
    forall a, b, c | newer(a, b) && newer(b, c) ensures newer(a, c) {
      var x, y, z := Stamp(a, text), Stamp(b, text), Stamp(c, text);
      LessTotal(x, y);
      LessTotal(y, z);
      if Less(x, z) {
        if Less(y, x) { LessTransitive(y, x, z); }
      }
    }
  }

  lemma SplitInOrder(leq: (Record, Record) -> bool, items: seq<Record>, n: nat)
    requires InOrder(leq, items) && n <= |items|
    ensures InOrder(leq, items[..n])
    ensures multiset(items[..n]) + multiset(items[n..]) == multiset(items)
    ensures forall a, b | a in items[..n] && b in items[n..] :: leq(a, b)
  {
    assert items == items[..n] + items[n..];
    forall a, b | a in items[..n] && b in items[n..] ensures leq(a, b) {
      var i :| 0 <= i < n && items[i] == a;
      var j :| n <= j < |items| && items[j] == b;
    }
  }

  ghost predicate LeavesOut(leq: (Record, Record) -> bool, got: seq<Record>, rest: seq<Record>, all: seq<Record>) {
    multiset(got) + multiset(rest) == multiset(all) && forall a, b | a in got && b in rest :: leq(a, b)
  }

  lemma SameSize(xs: seq<Record>, ys: seq<Record>)
    requires multiset(xs) == multiset(ys)
    ensures |xs| == |ys|
  {
    assert |xs| == |multiset(xs)| == |multiset(ys)| == |ys|;
  }

  function Take(items: seq<Record>, limit: int): seq<Record>
    requires limit > 0
  {
    if limit < |items| then items[..limit] else items
  }

  lemma TakeLeavesOut(leq: (Record, Record) -> bool, items: seq<Record>, limit: int, all: seq<Record>)
    requires InOrder(leq, items) && limit > 0 && multiset(items) == multiset(all)
    ensures InOrder(leq, Take(items, limit))
    ensures |Take(items, limit)| == (if limit < |all| then limit else |all|)
    ensures exists rest :: LeavesOut(leq, Take(items, limit), rest, all)
  {
    SameSize(items, all);
    var n := if limit < |items| then limit else |items|;
    SplitInOrder(leq, items, n);
    assert items[..|items|] == items;
    assert LeavesOut(leq, items[..n], items[n..], all);
  }

  // The listing is newest first, as long as the limit allows, and leaves out nothing newer: it and
  // what it leaves out make up the matching approvals.
  lemma {:induction false} RecentIsNewest(merged: Dict, limit: int, status: string, text: Json -> string)
    requires limit > 0
    ensures var all := Matching(Values(merged), status, text);
            var got := Recent(merged, limit, status, text);
            && InOrder(Newer(text), got)
            && |got| == (if limit < |all| then limit else |all|)
            && exists rest :: LeavesOut(Newer(text), got, rest, all)
  {
    var all, leq := Matching(Values(merged), status, text), Newer(text);
    NewerIsPreorder(text);
    SortedSorts(leq, all);
    TakeLeavesOut(leq, Sorted(leq, all), limit, all);
  }
}
