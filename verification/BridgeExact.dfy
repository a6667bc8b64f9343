// What the two bridges do not leave out: every approval with the wanted status reaches the logs, and
// exactly which records one run appends.

module BridgeExact {
  import opened Basics
  import opened JsonModel
  import opened QueueRecords
  import opened ApprovalQueue
  import opened Selection
  import opened QueueProposals
  import opened BridgeSafety
  import L = LegacyBridge
  import P = ProposalBridge

  // ----- nothing wanted is left out of the selection -----

  lemma ValueOf(m: Dict, k: Json)
    requires Keyed(m) && k in m.at
    ensures m.at[k] in Values(m)
  {
    assert k in Elements(m.keys);
    var i :| 0 <= i < |m.keys| && m.keys[i] == k;
    assert Values(m)[i] == m.at[k];
  }

  lemma SelectedHas(merged: Dict, status: string, limit: int, text: Json -> string, x: Record)
    requires limit <= 0 && x in Values(merged) && Upper(text(Or(Get(x, "status"), Str("")))) == Wanted(status)
    ensures x in Selected(merged, status, limit, text)
  {
    var wanted := Wanted(status);
    var f := (r: Record) => Upper(text(Or(Get(r, "status"), Str("")))) == wanted;
    NewerIsPreorder(text);
    SortedKeeps(Newer(text), Filter(Values(merged), f), x);
    FilterKeeps(Values(merged), f, x);
  }

  lemma StandingItem(cmds: seq<Command>, rules: Rules, id: string) returns (x: Record)
    requires FreshIds(cmds) && Reader(rules) && KeepsProposal(rules) && StatusOf(cmds, id).Some?
    ensures x in Values(Merged(LogOf(cmds), rules)) && Stands(x, cmds, id)
  {
    LogTracks(cmds, rules);
    MergedTells(LogOf(cmds), cmds, rules);
    MergedKeyed(LogOf(cmds), rules);
    hide Understands, Merged, Keyed, FreshIds, StatusOf, Tracks, LogOf;
    var m := Merged(LogOf(cmds), rules);
    assert Str(id) in m.at;
    MergedStands(cmds, rules, Str(id));
    x := m.at[Str(id)];
    ValueOf(m, Str(id));
  }

  // Without a limit every approval with the wanted status is selected.
  lemma {:induction false} StandingSelected(cmds: seq<Command>, rules: Rules, status: string, limit: int, text: Json -> string, id: string)
    returns (x: Record)
    requires FreshIds(cmds) && Reader(rules) && KeepsProposal(rules) && TextOfStrings(text) && limit <= 0
    requires StatusOf(cmds, id) == Some(Wanted(status))
    ensures x in Selected(Merged(LogOf(cmds), rules), status, limit, text) && Stands(x, cmds, id)
  {
    hide Reader, KeepsProposal, Upper, Values, Selected, StatusOf, Merged, LogOf, FreshIds;
    x := StandingItem(cmds, rules, id);
    StatusOfIsUpper(cmds, id);
    SelectedHas(Merged(LogOf(cmds), rules), status, limit, text, x);
  }

  lemma MergedKeyed(log: seq<Record>, rules: Rules)
    ensures Keyed(Merged(log, rules))
  {
    ReadAllKeyed(log, rules);
  }

  // ----- the legacy bridge -----

  // What is written is written: a row for the proposal by the reviewer with the comment of the bridge.
  ghost predicate HasBridgeRow(rows: seq<Record>, pid: Json, reviewer: string, text: Json -> string) {
    exists row :: row in rows && Get(row, "proposal_id") == pid && Get(row, "reviewer") == Str(reviewer)
                  && "bridge: approve auto proposal" <= text(Or(Get(row, "comment"), Str("")))
  }

  lemma WrittenExact(rows: seq<Record>, pid: Json, reviewer: string, text: Json -> string)
    ensures L.Written(rows, pid, reviewer, text) <==> HasBridgeRow(rows, pid, reviewer, text)
  {
    if L.Written(rows, pid, reviewer, text) {
      var i :| 0 <= i < |rows| && L.Bridged(rows[i], pid, reviewer, text);
      assert rows[i] in rows;
    }
    if HasBridgeRow(rows, pid, reviewer, text) {
      var row :| row in rows && Get(row, "proposal_id") == pid && Get(row, "reviewer") == Str(reviewer)
                 && "bridge: approve auto proposal" <= text(Or(Get(row, "comment"), Str("")));
      var i :| 0 <= i < |rows| && rows[i] == row;
      assert L.Bridged(rows[i], pid, reviewer, text);
    }
  }

  // The pending row of the bridge, key by key.
  lemma PendingHolds(pid: Json, args: L.Args)
    ensures var p := L.PendingRow(pid, args);
            && Get(p, "proposal_id") == pid && Get(p, "reviewer") == Str(args.reviewer) && Get(p, "decision") == Str("approved")
            && Get(p, "status") == Str("PENDING") && Get(p, "comment") == Str("bridge: approve auto proposal")
            && Get(p, "ts_iso") == Str(args.now)
  {
    assert |"proposal_id"| == 11 && |"reviewer"| == 8 && |"decision"| == 8 && |"status"| == 6 && |"comment"| == 7 && |"ts_iso"| == 6;
    assert "decision"[0] == 'd' && "reviewer"[0] == 'r' && "status"[1] == 't' && "ts_iso"[1] == 's';
  }

  // The consumed one is the same but for its status and for when and by whom it was consumed.
  lemma ConsumedHolds(pid: Json, args: L.Args, key: string)
    ensures var p, c := L.PendingRow(pid, args), L.ConsumedRow(pid, args);
            Get(c, key) == (if key == "status" then Str("CONSUMED")
                            else if key == "consumed_by" then Str("ops")
                            else if key == "consumed_comment" then Str("bridge: consumed after apply")
                            else if key == "consumed_ts_iso" then Str(args.now)
                            else Get(p, key))
  {
    hide L.PendingRow;
    assert |"consumed_by"| == 11 && |"consumed_comment"| == 16 && |"consumed_ts_iso"| == 15 && |"status"| == 6;
  }

  lemma StandingId(item: Record, cmds: seq<Command>, id: string)
    requires Stands(item, cmds, id) && Truthy(Get(EnqueuedProposal(cmds, id), "proposal_id"))
    ensures L.ProposalId(item) == Some(Get(EnqueuedProposal(cmds, id), "proposal_id"))
  {
  }

  // An item whose proposal was not written before makes its reviewer an approver during the run.
  lemma {:induction false} ItemCounts(rows: seq<Record>, items: seq<Record>, args: L.Args, text: Json -> string, i: nat)
    requires TextOfStrings(text) && !args.dryRun && args.reviewer != "" && i < |items| && L.ProposalId(items[i]).Some?
    requires !L.Written(rows, L.ProposalId(items[i]).value, args.reviewer, text)
    ensures Str(args.reviewer) in L.PendingReviewers(L.HandleAll(rows, items, args, text), L.ProposalId(items[i]).value)
  {
    hide L.PendingReviewers, L.Written, L.Handle, L.PendingRow, L.ConsumedRow;
    var n, pid := |items| - 1, L.ProposalId(items[i]).value;
    var before := L.HandleAll(rows, items[..n], args, text);
    L.HandledCounts(before, items[n], args, text, pid);
    if i < n {
      ItemCounts(rows, items[..n], args, text, i);
    } else if L.Written(before, pid, args.reviewer, text) {
      WrittenCounts(rows, items[..n], args, text, pid);
    }
  }

  // What a run writes for a proposal and its reviewer counts.
  lemma {:induction false} WrittenCounts(rows: seq<Record>, items: seq<Record>, args: L.Args, text: Json -> string, pid: Json)
    requires TextOfStrings(text) && !args.dryRun && args.reviewer != ""
    requires !L.Written(rows, pid, args.reviewer, text) && L.Written(L.HandleAll(rows, items, args, text), pid, args.reviewer, text)
    ensures Str(args.reviewer) in L.PendingReviewers(L.HandleAll(rows, items, args, text), pid)
  {
    hide L.PendingReviewers, L.Written, L.RowsFor;
    if items != [] {
      var n := |items| - 1;
      var before := L.HandleAll(rows, items[..n], args, text);
      L.HandledCounts(before, items[n], args, text, pid);
      if L.Written(before, pid, args.reviewer, text) {
        WrittenCounts(rows, items[..n], args, text, pid);
      } else {
        var other := L.IdOf(items[n]);
        L.WrittenAppend(before, L.RowsFor(other, args), pid, args.reviewer, text);
        if other != pid { OtherRows(other, pid, args, text); }
      }
    }
  }

  lemma OtherRows(other: Json, pid: Json, args: L.Args, text: Json -> string)
    requires other != pid
    ensures !L.Written(L.RowsFor(other, args), pid, args.reviewer, text)
  {
    if L.Written(L.RowsFor(other, args), pid, args.reviewer, text) {
      var rows := L.RowsFor(other, args);
      var i :| 0 <= i < |rows| && L.Bridged(rows[i], pid, args.reviewer, text);
      RowIds(other, args, rows[i]);
      assert false;
    }
  }

  // Whatever the queue went through, after a run without a limit every proposal that was enqueued there
  // with the wanted status has a row of the bridge, and if it had none before, the reviewer of the run
  // is now one of its approvers.
  lemma {:induction false} ApprovedIsBridged(rows: seq<Record>, cmds: seq<Command>, args: L.Args, text: Json -> string, id: string)
    requires FreshIds(cmds) && TextOfStrings(text) && !args.dryRun && args.limit <= 0
    requires StatusOf(cmds, id) == Some(Wanted(args.status)) && Truthy(Get(EnqueuedProposal(cmds, id), "proposal_id"))
    ensures var pid := Get(EnqueuedProposal(cmds, id), "proposal_id");
            var after := L.HandleAll(rows, L.Items(LogOf(cmds), args, text), args, text);
            && HasBridgeRow(after, pid, args.reviewer, text)
            && (!HasBridgeRow(rows, pid, args.reviewer, text) && args.reviewer != "" ==>
                  Str(args.reviewer) in L.PendingReviewers(after, pid))
  {
    hide L.PendingReviewers, L.Written, L.HandleAll, Selected, Merged, LogOf, Stands, HasBridgeRow, StatusOf, KeepsProposal, L.ProposalId;
    var pid, items := Get(EnqueuedProposal(cmds, id), "proposal_id"), L.Items(LogOf(cmds), args, text);
    ThreeReaders();
    BridgesKeepProposal();
    var x := StandingSelected(cmds, LegacyRules(), args.status, args.limit, text, id);
    StandingId(x, cmds, id);
    var i :| 0 <= i < |items| && items[i] == x;
    L.AllWritten(rows, items, args, text, i);
    WrittenExact(rows, pid, args.reviewer, text);
    WrittenExact(L.HandleAll(rows, items, args, text), pid, args.reviewer, text);
    if !L.Written(rows, pid, args.reviewer, text) && args.reviewer != "" { ItemCounts(rows, items, args, text, i); }
  }

  // ----- the operations of a proposal -----

  ghost predicate IsOp(op: Json) {
    op.Obj? && Truthy(Get(op.fields, "op")) && Truthy(Get(op.fields, "path"))
  }

  // Those that name an operation and a path are kept, each in its place, the others dropped.
  lemma {:induction false} UsableOpsExact(a: seq<Json>, op: Json, b: seq<Json>)
    ensures P.UsableOps(a + [op] + b) == P.UsableOps(a) + (if IsOp(op) then [op] else []) + P.UsableOps(b)
    ensures P.UsableOps([]) == []
  {
    UsableAppend(a + [op], b);
    assert (a + [op])[..|a|] == a;
  }

  lemma {:induction false} UsableAppend(a: seq<Json>, b: seq<Json>)
    ensures P.UsableOps(a + b) == P.UsableOps(a) + P.UsableOps(b)
  {
    if b == [] {
      assert a + b == a;
    } else {
      var n := |b| - 1;
      UsableAppend(a, b[..n]);
      assert (a + b)[..|a| + n] == a + b[..n];
    }
  }

  // They are those of "patch", if that is a list, and otherwise those of "patch_ops".
  lemma OperationsFrom(auto: Record, items: seq<Json>)
    ensures Get(auto, "patch") == Arr(items) ==> P.NormalizeOps(auto) == P.UsableOps(items)
    ensures !Get(auto, "patch").Arr? && Get(auto, "patch_ops") == Arr(items) ==> P.NormalizeOps(auto) == P.UsableOps(items)
    ensures !Get(auto, "patch").Arr? && !Get(auto, "patch_ops").Arr? ==> P.NormalizeOps(auto) == []
  {
  }

  // What a proposal is converted to: its id, if it has one, and otherwise one made of its hash; its time of
  // creation, of writing, or of the run; the policy it is for; its evidence and its operations.
  lemma ConvertHolds(auto: Record, w: P.World)
    ensures var r, own, made, wrote := P.Convert(auto, w), Get(auto, "proposal_id"), Get(auto, "ts_created"), Get(auto, "ts");
            && Get(r, "proposal_id") == (if Truthy(own) then own else Str("pp_bridge_" + P.FirstSixteen(w.digest(Print(Obj(auto))))))
            && Get(r, "ts_iso") == (if Truthy(made) then made else if Truthy(wrote) then wrote else Str(w.now))
            && Get(r, "policy_target_version") == Int(w.version) && Get(r, "policy_target_sha256") == Str(w.digest(Print(w.policy)))
            && Get(r, "evidence") == w.evidence(auto) && Get(r, "patch_ops") == Arr(P.NormalizeOps(auto))
  {
    P.ConvertFields(auto, w);
    ConvertKeys();
    hide P.NormalizeOps, P.ArtifactText, Print, P.FirstSixteen, Truthy;
  }

  lemma ConvertKeys()
    ensures |"proposal_id"| == 11 && |"ts_iso"| == 6 && |"policy_target_version"| == 21 && |"policy_target_sha256"| == 20
    ensures |"evidence"| == 8 && |"patch_ops"| == 9 && |"artifact_hash"| == 13
  {
  }

  lemma SixteenOf(s: string)
    ensures |s| >= 16 ==> P.FirstSixteen(s) == s[..16]
    ensures |s| < 16 ==> P.FirstSixteen(s) == s
  {
  }

  // ----- what one run of the proposal bridge appends -----

  // The run gets as far as the first candidate whose id is a list or a dict.
  ghost predicate StopsAt(cs: seq<Option<Record>>, n: nat) {
    && n <= |cs|
    && (forall i | 0 <= i < n && cs[i].Some? :: !P.Id(cs[i].value).Arr? && !P.Id(cs[i].value).Obj?)
    && (n < |cs| ==> cs[n].Some? && (P.Id(cs[n].value).Arr? || P.Id(cs[n].value).Obj?))
  }

  // The id as text is in the log already.
  ghost predicate InLog(rows: seq<Record>, id: Json, text: Json -> string) {
    exists r :: r in rows && Truthy(P.Id(r)) && id == Str(text(P.Id(r)))
  }

  ghost predicate Asked(cs: seq<Option<Record>>, id: Json) {
    exists i :: 0 <= i < |cs| && cs[i].Some? && P.Id(cs[i].value) == id
  }

  // The candidates to append: all of them, or those whose id is neither in the log nor on an earlier one.
  ghost function ToAppend(rows: seq<Record>, cs: seq<Option<Record>>, duplicates: bool, text: Json -> string): seq<Record> {
    if cs == [] then [] else
    var front, c := cs[..|cs| - 1], cs[|cs| - 1];
    ToAppend(rows, front, duplicates, text)
      + (if c.Some? && (duplicates || !(InLog(rows, P.Id(c.value), text) || Asked(front, P.Id(c.value)))) then [c.value] else [])
  }

  // What the run has seen is what is in the log or was asked for.
  ghost predicate SeenIs(rows: seq<Record>, cs: seq<Option<Record>>, seen: set<Json>, text: Json -> string) {
    forall id :: id in seen <==> InLog(rows, id, text) || Asked(cs, id)
  }

  lemma AskedStep(cs: seq<Option<Record>>, c: Option<Record>, id: Json)
    ensures Asked(cs + [c], id) <==> Asked(cs, id) || (c.Some? && P.Id(c.value) == id)
  {
    var all := cs + [c];
    assert all[|cs|] == c;
    if Asked(cs, id) {
      var i :| 0 <= i < |cs| && cs[i].Some? && P.Id(cs[i].value) == id;
      assert all[i] == cs[i];
    }
  }

  lemma {:induction false} HandleAllAppend(p: P.Progress, a: seq<Option<Record>>, b: seq<Option<Record>>, args: P.Args)
    ensures P.HandleAll(p, a + b, args) == P.HandleAll(P.HandleAll(p, a, args), b, args)
    decreases |a|
  {
    hide P.Handle;
    if a == [] {
      assert a + b == b;
    } else {
      assert (a + b)[0] == a[0] && (a + b)[1..] == a[1..] + b;
      HandleAllAppend(P.Handle(p, a[0], args), a[1..], b, args);
    }
  }

  lemma HandleOne(p: P.Progress, c: Option<Record>, args: P.Args)
    ensures P.HandleAll(p, [c], args) == P.Handle(p, c, args)
  {
    assert [c][1..] == [];
  }

  // The run up to its end or the exception.
  lemma {:induction false} AppendedUpTo(rows: seq<Record>, cs: seq<Option<Record>>, args: P.Args, text: Json -> string)
    requires StopsAt(cs, |cs|) && !args.dryRun
    ensures var p := P.HandleAll(P.Start(rows, args, text), cs, args);
            && !p.raised && p.rows == rows + ToAppend(rows, cs, args.allowDuplicates, text)
            && (!args.allowDuplicates ==> SeenIs(rows, cs, p.seen, text))
  {
    if cs == [] {
      assert rows + [] == rows;
      StartSeen(rows, args, text);
    } else {
      var front, c := cs[..|cs| - 1], cs[|cs| - 1];
      AppendedUpTo(rows, front, args, text);
      HandleAllAppend(P.Start(rows, args, text), front, [c], args);
      var p := P.HandleAll(P.Start(rows, args, text), front, args);
      HandleOne(p, c, args);
      assert cs == front + [c];
      forall id ensures Asked(cs, id) <==> Asked(front, id) || (c.Some? && P.Id(c.value) == id) { AskedStep(front, c, id); }
      hide InLog, Asked, P.Start;
      var was := ToAppend(rows, front, args.allowDuplicates, text);
      assert forall x :: (rows + was) + [x] == rows + (was + [x]);
    }
  }

  lemma StartSeen(rows: seq<Record>, args: P.Args, text: Json -> string)
    ensures !args.allowDuplicates ==> SeenIs(rows, [], P.Start(rows, args, text).seen, text)
  {
  }

  // Up to the first id that is a list or a dict, a run appends the candidates in order, those with an id
  // that the log holds as text or an earlier candidate has only where duplicates are allowed.  With
  // duplicates allowed the candidate it stops at is still appended.  A dry run appends nothing.
  lemma {:induction false} AppendedExact(rows: seq<Record>, cs: seq<Option<Record>>, args: P.Args, text: Json -> string, n: nat)
    requires StopsAt(cs, n)
    ensures var p, dup := P.HandleAll(P.Start(rows, args, text), cs, args), args.allowDuplicates;
            && p.rows == (if args.dryRun then rows
                          else rows + ToAppend(rows, if n < |cs| && dup then cs[..n + 1] else cs[..n], dup, text))
            && (p.raised <==> n < |cs| && !(args.dryRun && dup))
  {
    if args.dryRun {
      DryRunAppends(P.Start(rows, args, text), cs, args, n);
    } else {
      AppendedUpTo(rows, cs[..n], args, text);
      if n < |cs| {
        var p := P.HandleAll(P.Start(rows, args, text), cs[..n], args);
        var q := P.Handle(p, cs[n], args);
        assert cs == cs[..n] + ([cs[n]] + cs[n + 1..]);
        HandleAllAppend(P.Start(rows, args, text), cs[..n], [cs[n]] + cs[n + 1..], args);
        HandleAllAppend(p, [cs[n]], cs[n + 1..], args);
        HandleOne(p, cs[n], args);
        P.RaisedStays(q, cs[n + 1..], args);
        assert cs[..n + 1][..n] == cs[..n];
      } else {
        assert cs[..n] == cs;
      }
    }
  }

  lemma {:induction false} DryRunAppends(p: P.Progress, cs: seq<Option<Record>>, args: P.Args, n: nat)
    requires args.dryRun && StopsAt(cs, n) && !p.raised
    ensures var q := P.HandleAll(p, cs, args); q.rows == p.rows && (q.raised <==> n < |cs| && !args.allowDuplicates)
    decreases |cs|
  {
    if cs != [] {
      var q := P.Handle(p, cs[0], args);
      if q.raised { P.RaisedStays(q, cs[1..], args); }
      else if n > 0 { DryRunAppends(q, cs[1..], args, n - 1); }
      else { DryRunWithDuplicates(q, cs[1..], args); }
    }
  }

  lemma {:induction false} DryRunWithDuplicates(p: P.Progress, cs: seq<Option<Record>>, args: P.Args)
    requires args.dryRun && args.allowDuplicates
    ensures P.HandleAll(p, cs, args) == p
  {
    if cs != [] { DryRunWithDuplicates(p, cs[1..], args); }
  }
}
