// jobs/bridge_queue_approvals_to_legacy.py and jobs/bridge_approved_auto_proposals.py: carrying approved
// queue items over to the approvals log and to the proposals log.

module Selection {
  import opened JsonModel
  import opened Sorting
  import opened QueueRecords
  import opened ApprovalQueue

  // str(value) of Python, as far as it is used: a string is itself.
  ghost predicate TextOfStrings(text: Json -> string) {
    forall s :: text(Str(s)) == s
  }

  // The merged items with the wanted status, newest first, cut to the limit.
  function Selected(merged: Dict, status: string, limit: int, text: Json -> string): seq<Record> {
    var wanted := Upper(if status == "" then "APPROVED" else status);
    var items := Sorted(Newer(text), Filter(Values(merged), (r: Record) => Upper(text(Or(Get(r, "status"), Str("")))) == wanted));
    if limit > 0 then Take(items, limit) else items
  }
}

module LegacyBridge {
  import opened Basics
  import opened JsonModel
  import opened Text
  import opened QueueRecords
  import opened ApprovalQueue
  import opened Selection

  const PREFIX := "bridge: approve auto proposal"

  datatype Args = Args(status: string, reviewer: string, limit: int, dryRun: bool, consume: bool, now: string)

  function Comment(row: Record, text: Json -> string): string {
    text(Or(Get(row, "comment"), Str("")))
  }

  // A row this bridge wrote for the proposal and the reviewer, or one it cannot tell from it.
  predicate Bridged(row: Record, pid: Json, reviewer: string, text: Json -> string) {
    && Get(row, "proposal_id") == pid && Get(row, "reviewer") == Str(reviewer)
    && StartsWith(Comment(row, text), PREFIX)
  }

  predicate Written(rows: seq<Record>, pid: Json, reviewer: string, text: Json -> string) {
    exists i :: 0 <= i < |rows| && Bridged(rows[i], pid, reviewer, text)
  }

  // _already_written
  method AlreadyWritten(rows: seq<Record>, pid: Json, reviewer: string, text: Json -> string) returns (r: bool)
    ensures r <==> Written(rows, pid, reviewer, text)
  {
    for i := 0 to |rows|
      invariant !Written(rows[..i], pid, reviewer, text)
    {
      if Bridged(rows[i], pid, reviewer, text) {
        return true;
      }
    }
    assert rows[..|rows|] == rows;
    return false;
  }

  // _make_legacy_approval_record
  function PendingRow(pid: Json, args: Args): Record {
    map["proposal_id" := pid,
        "reviewer" := Str(args.reviewer),
        "decision" := Str("approved"),
        "status" := Str("PENDING"),
        "comment" := Str(PREFIX),
        "ts_iso" := Str(args.now)]
  }

  function ConsumedRow(pid: Json, args: Args): Record {
    PendingRow(pid, args)["status" := Str("CONSUMED")]["consumed_by" := Str("ops")]
      ["consumed_comment" := Str("bridge: consumed after apply")]["consumed_ts_iso" := Str(args.now)]
  }

  // The proposal id of an item, when it has one.
  function ProposalId(item: Record): Option<Json> {
    var proposal := Or(Get(item, "proposal"), Obj(map[]));
    if !proposal.Obj? then None else
    var pid := Get(proposal.fields, "proposal_id");
    if Truthy(pid) then Some(pid) else None
  }

  predicate Due(rows: seq<Record>, item: Record, args: Args, text: Json -> string) {
    ProposalId(item).Some? && !Written(rows, ProposalId(item).value, args.reviewer, text)
  }

  function RowsFor(pid: Json, args: Args): seq<Record> {
    if args.dryRun then []
    else if args.consume then [PendingRow(pid, args), ConsumedRow(pid, args)]
    else [PendingRow(pid, args)]
  }

  function Handle(rows: seq<Record>, item: Record, args: Args, text: Json -> string): seq<Record> {
    if Due(rows, item, args, text) then rows + RowsFor(ProposalId(item).value, args) else rows
  }

  function HandleAll(rows: seq<Record>, items: seq<Record>, args: Args, text: Json -> string): seq<Record> {
    if items == [] then rows else Handle(HandleAll(rows, items[..|items| - 1], args, text), items[|items| - 1], args, text)
  }

  // The ids the receipt reports as written.
  function Reported(rows: seq<Record>, items: seq<Record>, args: Args, text: Json -> string): seq<Json> {
    if items == [] then [] else
    var front, item := items[..|items| - 1], items[|items| - 1];
    Reported(rows, front, args, text)
      + (if Due(HandleAll(rows, front, args, text), item, args, text) then [ProposalId(item).value] else [])
  }

  function Items(queue: seq<Record>, args: Args, text: Json -> string): seq<Record> {
    Selected(Merged(queue, LegacyRules()), args.status, args.limit, text)
  }

  class Bridge {
    var rows: seq<Record>

    constructor (rows: seq<Record>)
      ensures this.rows == rows
    {
      this.rows := rows;
    }

    method Append(pid: Json, args: Args)
      modifies this
      ensures rows == old(rows) + RowsFor(pid, args)
    {
      if !args.dryRun {
        rows := rows + [PendingRow(pid, args)];
        if args.consume {
          rows := rows + [ConsumedRow(pid, args)];
        }
      }
    }

    // run
    method Run(queue: seq<Record>, args: Args, text: Json -> string) returns (written: seq<Json>)
      modifies this
      ensures rows == HandleAll(old(rows), Items(queue, args, text), args, text)
      ensures written == Reported(old(rows), Items(queue, args, text), args, text)
    {
      var merged := Merge(queue, LegacyRules());
      var items := Selected(merged, args.status, args.limit, text);
      written := [];
      for i := 0 to |items|
        invariant rows == HandleAll(old(rows), items[..i], args, text)
        invariant written == Reported(old(rows), items[..i], args, text)
      {
        assert items[..i + 1][..i] == items[..i];
        var pid := ProposalId(items[i]);
        if pid.Some? {
          var done := AlreadyWritten(rows, pid.value, args.reviewer, text);
          if !done {
            Append(pid.value, args);
            written := written + [pid.value];
          }
        }
      }
      assert items[..|items|] == items;
    }
  }

  // ----- what the bridge writes -----

  lemma RowsAreBridged(pid: Json, args: Args, text: Json -> string)
    requires TextOfStrings(text)
    ensures Bridged(PendingRow(pid, args), pid, args.reviewer, text)
    ensures Get(PendingRow(pid, args), "proposal_id") == pid && Get(PendingRow(pid, args), "reviewer") == Str(args.reviewer)
    ensures Get(ConsumedRow(pid, args), "status") != Str("PENDING")
  {
  }

  lemma WrittenGrows(rows: seq<Record>, more: seq<Record>, pid: Json, reviewer: string, text: Json -> string)
    requires Written(rows, pid, reviewer, text)
    ensures Written(rows + more, pid, reviewer, text)
  {
    var i :| 0 <= i < |rows| && Bridged(rows[i], pid, reviewer, text);
    assert (rows + more)[i] == rows[i];
  }

  lemma HandleWrites(rows: seq<Record>, item: Record, args: Args, text: Json -> string)
    requires TextOfStrings(text) && !args.dryRun && ProposalId(item).Some?
    ensures Written(Handle(rows, item, args, text), ProposalId(item).value, args.reviewer, text)
  {
    var pid := ProposalId(item).value;
    if Due(rows, item, args, text) {
      RowsAreBridged(pid, args, text);
      assert Handle(rows, item, args, text)[|rows|] == PendingRow(pid, args);
    }
  }

  lemma {:induction false} AllWritten(rows: seq<Record>, items: seq<Record>, args: Args, text: Json -> string, i: nat)
    requires TextOfStrings(text) && !args.dryRun && i < |items| && ProposalId(items[i]).Some?
    ensures Written(HandleAll(rows, items, args, text), ProposalId(items[i]).value, args.reviewer, text)
  {
    var n := |items| - 1;
    var before := HandleAll(rows, items[..n], args, text);
    if i < n {
      AllWritten(rows, items[..n], args, text, i);
      if Due(before, items[n], args, text) {
        WrittenGrows(before, RowsFor(ProposalId(items[n]).value, args), ProposalId(items[i]).value, args.reviewer, text);
      }
    } else {
      HandleWrites(before, items[n], args, text);
    }
  }

  lemma {:induction false} NothingDue(rows: seq<Record>, items: seq<Record>, args: Args, text: Json -> string)
    requires forall i | 0 <= i < |items| :: !Due(rows, items[i], args, text)
    ensures HandleAll(rows, items, args, text) == rows && Reported(rows, items, args, text) == []
  {
    if items != [] { NothingDue(rows, items[..|items| - 1], args, text); }
  }

  // Running the bridge again on the unchanged queue, for the same reviewer and the same selection,
  // writes nothing and reports nothing, whether or not either run consumes.
  lemma RerunWritesNothing(rows: seq<Record>, queue: seq<Record>, args: Args, again: Args, text: Json -> string)
    requires TextOfStrings(text) && !args.dryRun
    requires again == args.(dryRun := again.dryRun, consume := again.consume, now := again.now)
    ensures var once := HandleAll(rows, Items(queue, args, text), args, text);
            && HandleAll(once, Items(queue, again, text), again, text) == once
            && Reported(once, Items(queue, again, text), again, text) == []
  {
    var items := Items(queue, args, text);
    var once := HandleAll(rows, items, args, text);
    forall i | 0 <= i < |items| ensures !Due(once, items[i], again, text) {
      if ProposalId(items[i]).Some? { AllWritten(rows, items, args, text, i); }
    }
    NothingDue(once, items, again, text);
  }

  // The receipt counts what was appended.
  lemma {:induction false} ReportedIsAppended(rows: seq<Record>, items: seq<Record>, args: Args, text: Json -> string)
    ensures |HandleAll(rows, items, args, text)|
            == |rows| + (if args.dryRun then 0 else if args.consume then 2 else 1) * |Reported(rows, items, args, text)|
  {
    if items != [] { ReportedIsAppended(rows, items[..|items| - 1], args, text); }
  }

  // ----- over any runs -----

  predicate PendingBridged(row: Record, pid: Json, reviewer: string, text: Json -> string) {
    Bridged(row, pid, reviewer, text) && Get(row, "status") == Str("PENDING")
  }

  ghost predicate AtMostOne(rows: seq<Record>, pid: Json, reviewer: string, text: Json -> string) {
    forall i, j | 0 <= i < |rows| && 0 <= j < |rows| ::
      PendingBridged(rows[i], pid, reviewer, text) && PendingBridged(rows[j], pid, reviewer, text) ==> i == j
  }

  // The approvals log is also written by others, who do not use the comment of the bridge.
  datatype Event = Run(queue: seq<Record>, args: Args) | Append(row: Record)

  function After(rows: seq<Record>, events: seq<Event>, text: Json -> string): seq<Record> {
    if events == [] then rows else
    var before := After(rows, events[..|events| - 1], text);
    match events[|events| - 1]
    case Run(queue, args) => HandleAll(before, Items(queue, args, text), args, text)
    case Append(row) => before + [row]
  }

  ghost predicate OthersDiffer(events: seq<Event>, pid: Json, reviewer: string, text: Json -> string) {
    forall i | 0 <= i < |events| && events[i].Append? :: !PendingBridged(events[i].row, pid, reviewer, text)
  }

  lemma AppendKeeps(rows: seq<Record>, row: Record, pid: Json, reviewer: string, text: Json -> string)
    requires AtMostOne(rows, pid, reviewer, text)
    requires PendingBridged(row, pid, reviewer, text) ==> !Written(rows, pid, reviewer, text)
    ensures AtMostOne(rows + [row], pid, reviewer, text)
  {
  }

  lemma HandleKeeps(rows: seq<Record>, item: Record, args: Args, pid: Json, reviewer: string, text: Json -> string)
    requires TextOfStrings(text) && AtMostOne(rows, pid, reviewer, text)
    ensures AtMostOne(Handle(rows, item, args, text), pid, reviewer, text)
  {
    if Due(rows, item, args, text) && !args.dryRun {
      var id := ProposalId(item).value;
      RowsAreBridged(id, args, text);
      AppendKeeps(rows, PendingRow(id, args), pid, reviewer, text);
      if args.consume {
        AppendKeeps(rows + [PendingRow(id, args)], ConsumedRow(id, args), pid, reviewer, text);
        assert rows + [PendingRow(id, args)] + [ConsumedRow(id, args)] == rows + RowsFor(id, args);
      }
    } else if Due(rows, item, args, text) {
      assert rows + [] == rows;
    }
  }

  lemma {:induction false} HandleAllKeeps(
      rows: seq<Record>, items: seq<Record>, args: Args, pid: Json, reviewer: string, text: Json -> string)
    requires TextOfStrings(text) && AtMostOne(rows, pid, reviewer, text)
    ensures AtMostOne(HandleAll(rows, items, args, text), pid, reviewer, text)
  {
    if items != [] {
      HandleAllKeeps(rows, items[..|items| - 1], args, pid, reviewer, text);
      HandleKeeps(HandleAll(rows, items[..|items| - 1], args, text), items[|items| - 1], args, pid, reviewer, text);
    }
  }

  // Over any runs, with any queues, selections and reviewers, and whatever others append in between,
  // a proposal gets at most one pending row per reviewer from the bridge.
  lemma {:induction false} OnePendingRow(rows: seq<Record>, events: seq<Event>, pid: Json, reviewer: string, text: Json -> string)
    requires TextOfStrings(text) && AtMostOne(rows, pid, reviewer, text) && OthersDiffer(events, pid, reviewer, text)
    ensures AtMostOne(After(rows, events, text), pid, reviewer, text)
  {
    if events != [] {
      var front, e := events[..|events| - 1], events[|events| - 1];
      OnePendingRow(rows, front, pid, reviewer, text);
      var before := After(rows, front, text);
      match e
      case Run(queue, args) => HandleAllKeeps(before, Items(queue, args, text), args, pid, reviewer, text);
      case Append(row) => AppendKeeps(before, row, pid, reviewer, text);
    }
  }

  // ----- approvals are not used up -----

  // The reviewers whose approval an application counts.
  ghost function PendingReviewers(rows: seq<Record>, pid: Json): set<Json> {
    set row | row in rows && Counts(row, pid) :: Get(row, "reviewer")
  }

  predicate Counts(row: Record, pid: Json) {
    && Get(row, "proposal_id") == pid && Get(row, "decision") == Str("approved") && Get(row, "status") == Str("PENDING")
    && Truthy(Get(row, "reviewer"))
  }

  lemma ReviewersAppend(rows: seq<Record>, more: seq<Record>, pid: Json)
    ensures PendingReviewers(rows + more, pid) == PendingReviewers(rows, pid) + PendingReviewers(more, pid)
  {
    hide Counts;
    forall row ensures row in rows + more <==> row in rows || row in more {}
  }

  lemma {:induction false} HandleAllGrows(rows: seq<Record>, items: seq<Record>, args: Args, text: Json -> string, pid: Json)
    ensures PendingReviewers(rows, pid) <= PendingReviewers(HandleAll(rows, items, args, text), pid)
  {
    hide PendingReviewers, RowsFor, Written;
    if items != [] {
      var front, item := items[..|items| - 1], items[|items| - 1];
      HandleAllGrows(rows, front, args, text, pid);
      var before := HandleAll(rows, front, args, text);
      if Due(before, item, args, text) { ReviewersAppend(before, RowsFor(IdOf(item), args), pid); }
    }
  }

  function IdOf(item: Record): Json {
    if ProposalId(item).Some? then ProposalId(item).value else Null
  }

  // Over any runs, whatever others append in between, the reviewers that count for a proposal only grow.
  lemma {:induction false} ReviewersOnlyGrow(rows: seq<Record>, events: seq<Event>, text: Json -> string, pid: Json)
    ensures PendingReviewers(rows, pid) <= PendingReviewers(After(rows, events, text), pid)
  {
    hide PendingReviewers, HandleAll, Items;
    if events != [] {
      var front, e := events[..|events| - 1], events[|events| - 1];
      ReviewersOnlyGrow(rows, front, text, pid);
      var before := After(rows, front, text);
      match e
      case Run(queue, args) => HandleAllGrows(before, Items(queue, args, text), args, text, pid);
      case Append(row) => ReviewersAppend(before, [row], pid);
    }
  }

  // A pending row of the bridge is an approval by its reviewer; a consumed one is none.
  lemma RowsCount(pid: Json, args: Args, other: Json)
    ensures PendingReviewers(RowsFor(pid, args), other)
            == if !args.dryRun && other == pid && args.reviewer != "" then {Str(args.reviewer)} else {}
  {
    var row := PendingRow(pid, args);
    assert Counts(row, other) <==> other == pid && args.reviewer != "";
    ConsumedDoesNotCount(pid, args, other);
    ReviewersAppend([row], [ConsumedRow(pid, args)], other);
    assert [row] + [ConsumedRow(pid, args)] == [row, ConsumedRow(pid, args)];
    OneRowCounts(row, other);
    hide ConsumedRow, PendingRow, Counts, PendingReviewers;
  }

  lemma OneRowCounts(row: Record, pid: Json)
    ensures PendingReviewers([row], pid) == if Counts(row, pid) then {Get(row, "reviewer")} else {}
    ensures PendingReviewers([], pid) == {}
  {
  }

  // An item that was not written yet makes the reviewer of the run an approver of its proposal, and
  // changes no other approval.
  lemma {:induction false} HandledCounts(rows: seq<Record>, item: Record, args: Args, text: Json -> string, other: Json)
    ensures PendingReviewers(Handle(rows, item, args, text), other)
            == PendingReviewers(rows, other)
               + (if Due(rows, item, args, text) && !args.dryRun && other == IdOf(item) && args.reviewer != "" then {Str(args.reviewer)} else {})
  {
    hide PendingReviewers, Counts, PendingRow, ConsumedRow, Written;
    if Due(rows, item, args, text) {
      ReviewersAppend(rows, RowsFor(IdOf(item), args), other);
      RowsCount(IdOf(item), args, other);
    }
  }

  // The two logs tell the bridge and the application the same.
  ghost predicate SameToBoth(a: seq<Record>, b: seq<Record>, reviewer: string, text: Json -> string) {
    && (forall pid :: Written(a, pid, reviewer, text) <==> Written(b, pid, reviewer, text))
    && (forall pid :: PendingReviewers(a, pid) == PendingReviewers(b, pid))
  }

  lemma ConsumedDoesNotCount(pid: Json, args: Args, other: Json)
    ensures PendingReviewers([ConsumedRow(pid, args)], other) == {}
  {
  }

  lemma WrittenAppend(rows: seq<Record>, more: seq<Record>, pid: Json, reviewer: string, text: Json -> string)
    ensures Written(rows + more, pid, reviewer, text) <==> Written(rows, pid, reviewer, text) || Written(more, pid, reviewer, text)
  {
    hide Bridged;
    var all := rows + more;
    if Written(rows, pid, reviewer, text) {
      var i :| 0 <= i < |rows| && Bridged(rows[i], pid, reviewer, text);
      assert all[i] == rows[i];
    }
    if Written(more, pid, reviewer, text) {
      var i :| 0 <= i < |more| && Bridged(more[i], pid, reviewer, text);
      assert all[|rows| + i] == more[i];
    }
  }

  lemma ConsumedIsBridged(pid: Json, args: Args, other: Json, reviewer: string, text: Json -> string)
    ensures Bridged(ConsumedRow(pid, args), other, reviewer, text) <==> Bridged(PendingRow(pid, args), other, reviewer, text)
  {
  }

  lemma SameRows(a: seq<Record>, b: seq<Record>, pid: Json, args: Args, text: Json -> string)
    requires SameToBoth(a, b, args.reviewer, text)
    ensures SameToBoth(a + [PendingRow(pid, args), ConsumedRow(pid, args)], b + [PendingRow(pid, args)], args.reviewer, text)
  {
    hide PendingReviewers, Written, PendingRow, ConsumedRow;
    var p, c := [PendingRow(pid, args)], [ConsumedRow(pid, args)];
    assert [PendingRow(pid, args), ConsumedRow(pid, args)] == p + c;
    forall other ensures Written(a + (p + c), other, args.reviewer, text) <==> Written(b + p, other, args.reviewer, text) {
      WrittenAppend(a, p + c, other, args.reviewer, text);
      WrittenAppend(p, c, other, args.reviewer, text);
      WrittenAppend(b, p, other, args.reviewer, text);
      BothWritten(pid, args, other, args.reviewer, text);
    }
    forall other ensures PendingReviewers(a + (p + c), other) == PendingReviewers(b + p, other) {
      ReviewersAppend(a, p + c, other);
      ReviewersAppend(p, c, other);
      ReviewersAppend(b, p, other);
      ConsumedDoesNotCount(pid, args, other);
    }
  }

  lemma BothWritten(pid: Json, args: Args, other: Json, reviewer: string, text: Json -> string)
    ensures Written([ConsumedRow(pid, args)], other, reviewer, text) <==> Written([PendingRow(pid, args)], other, reviewer, text)
  {
    hide Bridged, PendingRow, ConsumedRow;
    ConsumedIsBridged(pid, args, other, reviewer, text);
    assert [ConsumedRow(pid, args)][0] == ConsumedRow(pid, args) && [PendingRow(pid, args)][0] == PendingRow(pid, args);
  }

  // Consuming marks nothing as used: with it and without it the same reviewers count afterwards.
  lemma {:induction false} ConsumingUsesNothing(rows: seq<Record>, items: seq<Record>, args: Args, text: Json -> string)
    ensures SameToBoth(HandleAll(rows, items, args.(consume := true), text), HandleAll(rows, items, args.(consume := false), text),
                       args.reviewer, text)
  {
    hide PendingReviewers, Written, PendingRow, ConsumedRow, ProposalId;
    var yes, no := args.(consume := true), args.(consume := false);
    if items != [] {
      var front, item := items[..|items| - 1], items[|items| - 1];
      ConsumingUsesNothing(rows, front, args, text);
      var a, b := HandleAll(rows, front, yes, text), HandleAll(rows, front, no, text);
      if Due(a, item, yes, text) {
        if args.dryRun {
          assert a + [] == a && b + [] == b;
        } else {
          SameRowArgs(IdOf(item), args);
          SameRows(a, b, IdOf(item), args, text);
        }
      }
    }
  }

  lemma SameRowArgs(pid: Json, args: Args)
    ensures forall c: bool :: PendingRow(pid, args.(consume := c)) == PendingRow(pid, args) && ConsumedRow(pid, args.(consume := c)) == ConsumedRow(pid, args)
  {
  }
}

module ProposalBridge {
  import opened Basics
  import opened JsonModel
  import opened Patch
  import opened PatchValues
  import opened PolicyStore
  import opened Approval
  import opened QueueRecords
  import opened ApprovalQueue
  import opened Selection

  datatype Args = Args(status: string, limit: int, dryRun: bool, allowDuplicates: bool, allowNoop: bool)

  // The latest policy, the digest, the clock, the evidence taken from a proposal, and Python's str.
  datatype World = World(
    version: nat,
    policy: Json,
    digest: string -> string,
    now: string,
    evidence: Record -> Json,
    text: Json -> string)

  // ----- converting one item -----

  predicate UsableOp(op: Json) {
    op.Obj? && Truthy(Get(op.fields, "op")) && Truthy(Get(op.fields, "path"))
  }

  function UsableOps(ops: seq<Json>): seq<Json> {
    if ops == [] then []
    else UsableOps(ops[..|ops| - 1]) + (if UsableOp(ops[|ops| - 1]) then [ops[|ops| - 1]] else [])
  }

  // _normalize_patch_ops
  function NormalizeOps(auto: Record): seq<Json> {
    var patch, ops := Get(auto, "patch"), Get(auto, "patch_ops");
    if patch.Arr? then UsableOps(patch.items)
    else if ops.Arr? then UsableOps(ops.items)
    else []
  }

  function FirstSixteen(s: string): string {
    if |s| <= 16 then s else s[..16]
  }

  function NewId(auto: Record, w: World): Json {
    Or(Get(auto, "proposal_id"), Str("pp_bridge_" + FirstSixteen(w.digest(Print(Obj(auto))))))
  }

  // _convert_one
  function Convert(auto: Record, w: World): Record {
    var ts := Or(Or(Get(auto, "ts_created"), Get(auto, "ts")), Str(w.now));
    var base: Record :=
      map["proposal_id" := NewId(auto, w),
          "ts_iso" := ts,
          "policy_target_version" := Int(w.version),
          "policy_target_sha256" := Str(Sha(w.digest, w.policy)),
          "evidence" := w.evidence(auto),
          "patch_ops" := Arr(NormalizeOps(auto))];
    base["artifact_hash" := Str(w.digest(ArtifactText(base, auto)))]
  }

  // What the artifact hash is taken over: the record without the hash, and a block that is not written.
  function ArtifactText(base: Record, auto: Record): string {
    var meta: Record :=
      map["bridged_from" := Str("approval_queue"),
          "auto_proposed_by" := Str("learning_os_v2"),
          "channel" := Get(auto, "channel"),
          "window_days" := Get(auto, "window_days")];
    Print(Obj(base["meta" := Obj(meta)]))
  }

  // The dry run: a patch that fails is kept, a patch that leaves the hash as it is is a no-op.
  function Noop(out: Record, w: World): bool {
    var ops := PatchOps(out);
    if ops.Err? then false else
    var patched := Apply(w.policy, ops.value);
    patched.Ok? && Sha(w.digest, patched.value) == Sha(w.digest, w.policy)
  }

  // The record as the dry run leaves it: the patch is run on a copy of the policy, but the values of
  // its operations are not copied.
  function AfterDryRun(out: Record, w: World): Record {
    var ops := PatchOps(out);
    if ops.Ok? then out["patch_ops" := Arr(AfterRun(w.policy, ops.value))] else out
  }

  // What an item asks to be written, before the check for duplicates.
  function Candidate(item: Record, args: Args, w: World): Option<Record> {
    var auto := Or(Get(item, "proposal"), Obj(map[]));
    if !auto.Obj? then None else
    var out := Convert(auto.fields, w);
    if Noop(out, w) && !args.allowNoop then None else Some(AfterDryRun(out, w))
  }

  function Id(r: Record): Json {
    Get(r, "proposal_id")
  }

  lemma ConvertFields(auto: Record, w: World)
    ensures Id(Convert(auto, w)) == NewId(auto, w)
    ensures Get(Convert(auto, w), "patch_ops") == Arr(NormalizeOps(auto))
  {
    hide NewId, NormalizeOps, ArtifactText, Sha;
  }

  lemma DryRunKeepsId(out: Record, w: World)
    ensures Id(AfterDryRun(out, w)) == Id(out)
  {
    assert "patch_ops"[1] == 'a' && "proposal_id"[1] == 'r';
  }

  lemma NewIdIsTruthy(auto: Record, w: World)
    ensures Truthy(NewId(auto, w))
  {
    assert ("pp_bridge_" + FirstSixteen(w.digest(Print(Obj(auto)))))[0] == 'p';
  }

  lemma CandidateHasId(item: Record, args: Args, w: World)
    requires Candidate(item, args, w).Some?
    ensures Truthy(Id(Candidate(item, args, w).value))
  {
    var auto := Or(Get(item, "proposal"), Obj(map[]));
    ConvertFields(auto.fields, w);
    NewIdIsTruthy(auto.fields, w);
    DryRunKeepsId(Convert(auto.fields, w), w);
  }

  function Candidates(items: seq<Record>, args: Args, w: World): (cs: seq<Option<Record>>)
    ensures |cs| == |items|
    ensures forall i | 0 <= i < |items| :: cs[i] == Candidate(items[i], args, w)
  {
    if items == [] then [] else
    Candidates(items[..|items| - 1], args, w) + [Candidate(items[|items| - 1], args, w)]
  }

  // ----- writing -----

  // A list or a dict cannot be looked up in a set: TypeError.
  predicate Hashable(j: Json) {
    !j.Arr? && !j.Obj?
  }

  // _load_existing_proposal_ids: the ids as text
  function ExistingIds(rows: seq<Record>, text: Json -> string): set<Json> {
    set r | r in rows && Truthy(Id(r)) :: Str(text(Id(r)))
  }

  // The log, existing_ids, and whether the run was cut short by an exception.
  datatype Progress = Progress(rows: seq<Record>, seen: set<Json>, raised: bool)

  function Handle(p: Progress, c: Option<Record>, args: Args): Progress {
    if p.raised || c.None? then p else
    var id := Id(c.value);
    if !args.allowDuplicates && !Hashable(id) then p.(raised := true)
    else if !args.allowDuplicates && id in p.seen then p
    else if args.dryRun then p
    else if !Hashable(id) then p.(rows := p.rows + [c.value], raised := true)
    else p.(rows := p.rows + [c.value], seen := p.seen + {id})
  }

  function HandleAll(p: Progress, cs: seq<Option<Record>>, args: Args): Progress
    decreases |cs|
  {
    if cs == [] then p else HandleAll(Handle(p, cs[0], args), cs[1..], args)
  }

  function Start(rows: seq<Record>, args: Args, text: Json -> string): Progress {
    Progress(rows, if args.allowDuplicates then {} else ExistingIds(rows, text), false)
  }

  function Items(queue: seq<Record>, args: Args, w: World): seq<Record> {
    Selected(Merged(queue, BridgeRules()), args.status, args.limit, w.text)
  }

  function RunResult(rows: seq<Record>, queue: seq<Record>, args: Args, w: World): Progress {
    HandleAll(Start(rows, args, w.text), Candidates(Items(queue, args, w), args, w), args)
  }

  class Bridge {
    var rows: seq<Record>

    constructor (rows: seq<Record>)
      ensures this.rows == rows
    {
      this.rows := rows;
    }

    // The body of the loop up to the check for duplicates.
    method Build(item: Record, args: Args, w: World) returns (c: Option<Record>)
      ensures c == Candidate(item, args, w)
    {
      var auto := Or(Get(item, "proposal"), Obj(map[]));
      if !auto.Obj? {
        return None;
      }
      var out := Convert(auto.fields, w);
      var noop := Noop(out, w);
      out := AfterDryRun(out, w);
      if noop && !args.allowNoop {
        return None;
      }
      return Some(out);
    }

    // run; false is the TypeError
    method Run(queue: seq<Record>, args: Args, w: World) returns (ok: bool)
      modifies this
      ensures rows == RunResult(old(rows), queue, args, w).rows
      ensures ok <==> !RunResult(old(rows), queue, args, w).raised
    {
      hide Candidate, Selected, Merged, ExistingIds;
      var merged := Merge(queue, BridgeRules());
      var items := Selected(merged, args.status, args.limit, w.text);
      var existing: set<Json> := {};
      if !args.allowDuplicates {
        existing := ExistingIds(rows, w.text);
      }
      ghost var cs := Candidates(items, args, w);
      for i := 0 to |items|
        invariant HandleAll(Start(old(rows), args, w.text), cs, args) == HandleAll(Progress(rows, existing, false), cs[i..], args)
      {
        var candidate := Build(items[i], args, w);
        if candidate.None? {
          continue;
        }
        var out := candidate.value;
        var id := Id(out);
        if !args.allowDuplicates {
          if !Hashable(id) {
            RaisedStays(Progress(rows, existing, true), cs[i + 1..], args);
            return false;
          }
          if id in existing {
            continue;
          }
        }
        if !args.dryRun {
          rows := rows + [out];
          if !Hashable(id) {
            RaisedStays(Progress(rows, existing, true), cs[i + 1..], args);
            return false;
          }
          existing := existing + {id};
        }
      }
      return true;
    }
  }

  lemma {:induction false} RaisedStays(p: Progress, cs: seq<Option<Record>>, args: Args)
    requires p.raised
    ensures HandleAll(p, cs, args) == p
  {
    if cs != [] { RaisedStays(p, cs[1..], args); }
  }

  // ----- ids stay distinct -----

  // No two proposals have the same string as id.
  ghost predicate DistinctIds(rows: seq<Record>) {
    forall i, j | 0 <= i < j < |rows| && Id(rows[i]).Str? :: Id(rows[i]) != Id(rows[j])
  }

  ghost predicate SeenAll(p: Progress) {
    forall r | r in p.rows && Id(r).Str? && Truthy(Id(r)) :: Id(r) in p.seen
  }

  ghost predicate HaveIds(cs: seq<Option<Record>>) {
    forall c | c in cs && c.Some? :: Truthy(Id(c.value))
  }

  lemma {:induction false} HandleAllDistinct(p: Progress, cs: seq<Option<Record>>, args: Args)
    requires !args.allowDuplicates && HaveIds(cs) && DistinctIds(p.rows) && SeenAll(p)
    ensures DistinctIds(HandleAll(p, cs, args).rows)
    decreases |cs|
  {
    if cs != [] {
      var q := Handle(p, cs[0], args);
      assert cs[0] in cs;
      assert forall r | r in p.rows :: Id(r).Str? && Truthy(Id(r)) ==> Id(r) in p.seen;
      HandleAllDistinct(q, cs[1..], args);
    }
  }

  lemma StartSeesAll(rows: seq<Record>, args: Args, text: Json -> string)
    requires TextOfStrings(text) && !args.allowDuplicates
    ensures SeenAll(Start(rows, args, text))
  {
    forall r | r in rows && Id(r).Str? && Truthy(Id(r)) ensures Id(r) in ExistingIds(rows, text) {
      assert Str(text(Id(r))) == Id(r);
    }
  }

  lemma CandidatesHaveIds(items: seq<Record>, args: Args, w: World)
    ensures HaveIds(Candidates(items, args, w))
  {
    var cs := Candidates(items, args, w);
    forall c | c in cs && c.Some? ensures Truthy(Id(c.value)) {
      var i :| 0 <= i < |cs| && cs[i] == c;
      CandidateHasId(items[i], args, w);
    }
  }

  datatype Event = Event(queue: seq<Record>, args: Args, world: World)

  function After(rows: seq<Record>, events: seq<Event>): seq<Record> {
    if events == [] then rows else
    var e := events[|events| - 1];
    RunResult(After(rows, events[..|events| - 1]), e.queue, e.args, e.world).rows
  }

  // Over any runs that disallow duplicates, with any queues and policies, no two proposals share a
  // string id.
  lemma {:induction false} IdsStayDistinct(rows: seq<Record>, events: seq<Event>)
    requires DistinctIds(rows)
    requires forall e | e in events :: !e.args.allowDuplicates && TextOfStrings(e.world.text)
    ensures DistinctIds(After(rows, events))
  {
    if events != [] {
      var front, e := events[..|events| - 1], events[|events| - 1];
      IdsStayDistinct(rows, front);
      var before := After(rows, front);
      StartSeesAll(before, e.args, e.world.text);
      CandidatesHaveIds(Items(e.queue, e.args, e.world), e.args, e.world);
      HandleAllDistinct(Start(before, e.args, e.world.text), Candidates(Items(e.queue, e.args, e.world), e.args, e.world), e.args);
    }
  }

  function Objects(rows: seq<Record>): seq<Json> {
    seq(|rows|, i requires 0 <= i < |rows| => Obj(rows[i]))
  }

  // So the first match that find_proposal takes is the only one.
  lemma {:induction false} FirstMatchIsOnly(rows: seq<Record>, pid: string, i: nat)
    requires DistinctIds(rows) && i < |rows| && Id(rows[i]) == Str(pid)
    ensures FindProposal(Objects(rows), pid) == Ok(rows[i])
  {
    assert Objects(rows)[0] == Obj(rows[0]);
    if i > 0 {
      assert Id(rows[0]) != Str(pid);
      FirstMatchIsOnly(rows[1..], pid, i - 1);
      assert Objects(rows)[1..] == Objects(rows[1..]);
    }
  }

  // ----- running again -----

  // Every candidate the run gets to has a string id.
  predicate StringIds(cs: seq<Option<Record>>) {
    cs == [] || (if cs[0].None? then StringIds(cs[1..])
                 else !Hashable(Id(cs[0].value)) || (Id(cs[0].value).Str? && StringIds(cs[1..])))
  }

  // The ids of the candidates a run gets to.
  function Reached(cs: seq<Option<Record>>): set<Json> {
    if cs == [] then {}
    else if cs[0].None? then Reached(cs[1..])
    else if !Hashable(Id(cs[0].value)) then {}
    else {Id(cs[0].value)} + Reached(cs[1..])
  }

  lemma {:induction false} AllSeenWritesNothing(p: Progress, cs: seq<Option<Record>>, args: Args)
    requires !args.allowDuplicates && Reached(cs) <= p.seen
    ensures HandleAll(p, cs, args).rows == p.rows
  {
    if p.raised {
      RaisedStays(p, cs, args);
    } else if cs != [] {
      var q := Handle(p, cs[0], args);
      if q.raised { RaisedStays(q, cs[1..], args); } else { AllSeenWritesNothing(q, cs[1..], args); }
    }
  }

  // Everything seen is in the log.
  ghost predicate SeenIsWritten(p: Progress, text: Json -> string) {
    p.seen <= ExistingIds(p.rows, text)
  }

  lemma HandleSeen(p: Progress, c: Option<Record>, args: Args, text: Json -> string)
    requires TextOfStrings(text) && !args.allowDuplicates && SeenIsWritten(p, text)
    requires c.Some? ==> Truthy(Id(c.value)) && (Hashable(Id(c.value)) ==> Id(c.value).Str?)
    ensures SeenIsWritten(Handle(p, c, args), text)
    ensures p.seen <= Handle(p, c, args).seen
  {
    var q := Handle(p, c, args);
    if q.rows != p.rows {
      assert q.rows == p.rows + [c.value];
      assert c.value in q.rows && Str(text(Id(c.value))) == Id(c.value);
      forall r | r in p.rows ensures r in q.rows {}
    }
  }

  lemma {:induction false} ReachedIsWritten(p: Progress, cs: seq<Option<Record>>, args: Args, text: Json -> string)
    requires TextOfStrings(text) && !args.allowDuplicates && !args.dryRun
    requires !p.raised && SeenIsWritten(p, text) && StringIds(cs) && HaveIds(cs)
    ensures p.seen + Reached(cs) <= ExistingIds(HandleAll(p, cs, args).rows, text)
    decreases |cs|
  {
    if cs != [] {
      assert cs[0] in cs;
      var q := Handle(p, cs[0], args);
      HandleSeen(p, cs[0], args, text);
      if q.raised {
        RaisedStays(q, cs[1..], args);
      } else {
        ReachedIsWritten(q, cs[1..], args, text);
      }
    }
  }

  lemma {:induction false} LogGrows(p: Progress, cs: seq<Option<Record>>, args: Args)
    ensures |HandleAll(p, cs, args).rows| >= |p.rows|
    decreases |cs|
  {
    if cs != [] { LogGrows(Handle(p, cs[0], args), cs[1..], args); }
  }

  lemma {:induction false} OtherIdsAreWritten(p: Progress, cs: seq<Option<Record>>, args: Args)
    requires !args.allowDuplicates && !args.dryRun && !p.raised && !StringIds(cs)
    requires forall x | x in p.seen :: x.Str?
    ensures |HandleAll(p, cs, args).rows| > |p.rows|
  {
    var q := Handle(p, cs[0], args);
    LogGrows(q, cs[1..], args);
    if cs[0].None? || q == p { OtherIdsAreWritten(p, cs[1..], args); }
  }

  // Two runs over the same items ask for the same ids, whatever the clock says.
  ghost predicate SameIds(cs: seq<Option<Record>>, ds: seq<Option<Record>>) {
    && |cs| == |ds|
    && forall i | 0 <= i < |cs| :: (cs[i].Some? <==> ds[i].Some?) && (cs[i].Some? ==> Id(cs[i].value) == Id(ds[i].value))
  }

  lemma {:induction false} SameIdsReach(cs: seq<Option<Record>>, ds: seq<Option<Record>>)
    requires SameIds(cs, ds)
    ensures StringIds(cs) == StringIds(ds) && Reached(cs) == Reached(ds)
  {
    if cs != [] { SameIdsReach(cs[1..], ds[1..]); }
  }

  lemma NoopByOps(x: Record, y: Record, w: World, now: string)
    requires Get(x, "patch_ops") == Get(y, "patch_ops")
    ensures Noop(x, w) == Noop(y, w.(now := now))
  {
    assert PatchOps(x) == PatchOps(y);
  }

  lemma ConvertIgnoresClock(auto: Record, w: World, now: string)
    ensures Id(Convert(auto, w)) == Id(Convert(auto, w.(now := now)))
    ensures Noop(Convert(auto, w), w) == Noop(Convert(auto, w.(now := now)), w.(now := now))
  {
    var v := w.(now := now);
    ConvertFields(auto, w);
    ConvertFields(auto, v);
    NoopByOps(Convert(auto, w), Convert(auto, v), w, now);
    assert NewId(auto, w) == NewId(auto, v);
  }

  lemma CandidateIgnoresClock(item: Record, args: Args, w: World, now: string)
    ensures var c, d := Candidate(item, args, w), Candidate(item, args, w.(now := now));
            (c.Some? <==> d.Some?) && (c.Some? ==> Id(c.value) == Id(d.value))
  {
    var auto := Or(Get(item, "proposal"), Obj(map[]));
    if auto.Obj? { ConvertIgnoresClock(auto.fields, w, now); }
  }

  lemma {:induction false} RerunOn(rows: seq<Record>, cs: seq<Option<Record>>, ds: seq<Option<Record>>, args: Args, text: Json -> string)
    requires TextOfStrings(text) && !args.allowDuplicates && !args.dryRun && HaveIds(cs) && SameIds(cs, ds)
    ensures var once := HandleAll(Start(rows, args, text), cs, args).rows;
            HandleAll(Start(once, args, text), ds, args).rows == once <==> StringIds(cs)
  {
    var once := HandleAll(Start(rows, args, text), cs, args).rows;
    SameIdsReach(cs, ds);
    if StringIds(cs) {
      ReachedIsWritten(Start(rows, args, text), cs, args, text);
      AllSeenWritesNothing(Start(once, args, text), ds, args);
    } else {
      OtherIdsAreWritten(Start(once, args, text), ds, args);
    }
  }

  // Rerunning the bridge later on the unchanged queue and policy writes nothing if and only if every
  // proposal it gets to has a string id: any other id, a number say, is written again on every run,
  // because the ids of the log are compared as text.
  lemma {:induction false} RerunExact(rows: seq<Record>, queue: seq<Record>, args: Args, w: World, later: string)
    requires TextOfStrings(w.text) && !args.allowDuplicates && !args.dryRun
    ensures var once := RunResult(rows, queue, args, w).rows;
            RunResult(once, queue, args, w.(now := later)).rows == once
            <==> StringIds(Candidates(Items(queue, args, w), args, w))
  {
    var items, again := Items(queue, args, w), w.(now := later);
    var cs, ds := Candidates(items, args, w), Candidates(items, args, again);
    CandidatesHaveIds(items, args, w);
    forall i | 0 <= i < |items| ensures (cs[i].Some? <==> ds[i].Some?) && (cs[i].Some? ==> Id(cs[i].value) == Id(ds[i].value)) {
      CandidateIgnoresClock(items[i], args, w, later);
    }
    RerunOn(rows, cs, ds, args, w.text);
  }
}
