// What the two bridges carry over: only proposals that were enqueued, and only those whose last valid
// status is the wanted one.

module QueueProposals {
  import opened Basics
  import opened JsonModel
  import opened QueueRecords
  import opened ApprovalQueue

  // The proposal an approval was enqueued with.
  function EnqueuedProposal(cmds: seq<Command>, id: string): Record {
    if cmds == [] then map[] else
    var c := cmds[|cmds| - 1];
    if c.Enqueue? && c.id == id then c.proposal else EnqueuedProposal(cmds[..|cmds| - 1], id)
  }

  ghost predicate HoldsProposals(t: Tables, cmds: seq<Command>) {
    forall k | k in t.base.at :: k.Str? && Get(t.base.at[k], "proposal") == Obj(EnqueuedProposal(cmds, k.s))
  }

  ghost predicate KeepsProposal(rules: Rules) {
    forall base, upd :: Get(rules.view(base, upd), "proposal") == Get(base, "proposal")
  }

  lemma CarryKeepsProposal(view: Record, upd: Record, from: string, to: string)
    requires to != "proposal"
    ensures Get(Carry(view, upd, from, to), "proposal") == Get(view, "proposal")
  {
  }

  lemma ViewsKeepProposal(base: Record, upd: Record)
    ensures Get(LegacyView(base, upd), "proposal") == Get(base, "proposal")
    ensures Get(BridgeView(base, upd), "proposal") == Get(base, "proposal")
  {
    var v := LegacyView(base, upd);
    CarryKeepsProposal(WithStatus(base, upd), upd, "note", "status_note");
    CarryKeepsProposal(v, upd, "reviewer_id", "reviewer_id");
    CarryKeepsProposal(Carry(v, upd, "reviewer_id", "reviewer_id"), upd, "reviewer_role", "reviewer_role");
  }

  lemma BridgesKeepProposal()
    ensures KeepsProposal(LegacyRules()) && KeepsProposal(BridgeRules())
  {
    forall base: Record, upd: Record ensures Get(LegacyRules().view(base, upd), "proposal") == Get(base, "proposal") {
      ViewsKeepProposal(base, upd);
    }
    forall base: Record, upd: Record ensures Get(BridgeRules().view(base, upd), "proposal") == Get(base, "proposal") {
      ViewsKeepProposal(base, upd);
    }
  }

  lemma {:induction false} EnqueuedProposalStep(cmds: seq<Command>, c: Command, id: string)
    ensures EnqueuedProposal(cmds + [c], id) == if c.Enqueue? && c.id == id then c.proposal else EnqueuedProposal(cmds, id)
  {
    assert (cmds + [c])[..|cmds|] == cmds;
  }

  lemma EnqueueHoldsProposal(id: string, ts: string, proposal: Record)
    ensures Get(EnqueueRecord(id, ts, proposal), "proposal") == Obj(proposal)
  {
  }

  // Reading one more record keeps the base entries, and only an enqueue adds or replaces one.
  lemma ReadHolds(t: Tables, cmds: seq<Command>, c: Command, r: Record, rules: Rules)
    requires HoldsProposals(t, cmds) && (c.Enqueue? ==> c.id != "")
    requires if c.Enqueue? then AsEnqueue(r, c.id, rules) && Get(r, "proposal") == Obj(c.proposal)
             else !Truthy(rules.id(r)) || (!rules.enqueue(r) && rules.update(r))
    ensures HoldsProposals(Read(t, r, rules), cmds + [c])
  {
    var after := Read(t, r, rules);
    forall k | k in after.base.at
      ensures k.Str? && Get(after.base.at[k], "proposal") == Obj(EnqueuedProposal(cmds + [c], k.s))
    {
      assert k.Str?;
      EnqueuedProposalStep(cmds, c, k.s);
    }
  }

  lemma SameTablesHold(t: Tables, cmds: seq<Command>, c: Command)
    requires HoldsProposals(t, cmds) && !c.Enqueue?
    ensures HoldsProposals(t, cmds + [c])
  {
    forall k | k in t.base.at ensures Get(t.base.at[k], "proposal") == Obj(EnqueuedProposal(cmds + [c], k.s)) {
      EnqueuedProposalStep(cmds, c, k.s);
    }
  }

  // What a reader makes of the record a command appends.
  lemma AppendedReads(log: seq<Record>, c: Command, r: Record, rules: Rules)
    requires Reader(rules) && Appended(log, c) == Some(r) && (c.Enqueue? ==> c.id != "")
    requires c.Update? ==> c.id != ""
    ensures if c.Enqueue? then AsEnqueue(r, c.id, rules) && Get(r, "proposal") == Obj(c.proposal)
            else !Truthy(rules.id(r)) || (!rules.enqueue(r) && rules.update(r))
  {
    if c.Enqueue? {
      EnqueueHoldsProposal(c.id, c.ts, c.proposal);
    } else if c.id != "" {
      assert AsUpdate(r, c.id, StatusWord(c.status).value, rules);
    }
  }

  lemma {:induction false} CommandHolds(log: seq<Record>, cmds: seq<Command>, c: Command, rules: Rules)
    requires Reader(rules) && HoldsProposals(ReadAll(log, rules), cmds)
    requires c.Enqueue? || (c.Update? && Appended(log, c).Some?) ==> c.id != ""
    ensures HoldsProposals(ReadAll(Step(log, c), rules), cmds + [c])
  {
    hide Reader, HoldsProposals, Read, Known, StatusWord, AsEnqueue;
    match Appended(log, c)
    case None => SameTablesHold(ReadAll(log, rules), cmds, c);
    case Some(r) =>
      ReadAllStep(log, r, rules);
      AppendedReads(log, c, r, rules);
      ReadHolds(ReadAll(log, rules), cmds, c, r, rules);
  }

  lemma {:induction false} LogHoldsProposals(cmds: seq<Command>, rules: Rules)
    requires FreshIds(cmds) && Reader(rules)
    ensures HoldsProposals(ReadAll(LogOf(cmds), rules), cmds)
  {
    hide Reader, Tracks, Read, ReadAll, Step;
    if cmds != [] {
      var front, c := cmds[..|cmds| - 1], cmds[|cmds| - 1];
      assert cmds == front + [c];
      FreshIdsStep(front, c);
      LogHoldsProposals(front, rules);
      ThreeReaders();
      LogTracks(front, QueueRules());
      TracksKnown(LogOf(front), front, c.id);
      if StatusOf(front, c.id).Some? { OnlyUsedHaveStatus(front, c.id); }
      CommandHolds(LogOf(front), front, c, rules);
    } else {
      EmptyHolds(rules);
    }
  }

  lemma EmptyHolds(rules: Rules)
    ensures HoldsProposals(ReadAll([], rules), [])
  {
  }

  // An item of the merged queue is an enqueued approval with its proposal and its status.
  ghost predicate Stands(item: Record, cmds: seq<Command>, id: string) {
    && StatusOf(cmds, id).Some?
    && Get(item, "status") == Str(StatusOf(cmds, id).value)
    && Get(item, "proposal") == Obj(EnqueuedProposal(cmds, id))
  }

  lemma MergedStands(cmds: seq<Command>, rules: Rules, k: Json)
    requires FreshIds(cmds) && Reader(rules) && KeepsProposal(rules)
    requires k in Merged(LogOf(cmds), rules).at
    ensures k.Str? && Stands(Merged(LogOf(cmds), rules).at[k], cmds, k.s)
  {
    LogTracks(cmds, rules);
    MergedTells(LogOf(cmds), cmds, rules);
    LogHoldsProposals(cmds, rules);
  }
}

module BridgeSafety {
  import opened Basics
  import opened JsonModel
  import opened Text
  import opened Sorting
  import opened QueueRecords
  import opened ApprovalQueue
  import opened Selection
  import opened QueueProposals
  import opened PatchValues
  import L = LegacyBridge
  import P = ProposalBridge

  // ----- what is selected -----

  lemma {:induction false} FilterKeeps(items: seq<Record>, wanted: Record -> bool, x: Record)
    ensures x in Filter(items, wanted) <==> x in items && wanted(x)
  {
    if items != [] {
      var front, last := items[..|items| - 1], items[|items| - 1];
      assert items == front + [last];
      FilterKeeps(front, wanted, x);
    }
  }

  lemma {:induction false} SortedKeeps(leq: (Record, Record) -> bool, items: seq<Record>, x: Record)
    requires Preorder(leq)
    ensures x in Sorted(leq, items) <==> x in items
  {
    SortedSorts(leq, items);
    assert x in multiset(items) <==> x in multiset(Sorted(leq, items));
  }

  function Wanted(status: string): string {
    Upper(if status == "" then "APPROVED" else status)
  }

  lemma {:induction false} SelectedAre(merged: Dict, status: string, limit: int, text: Json -> string, x: Record)
    requires x in Selected(merged, status, limit, text)
    ensures x in Values(merged) && Upper(text(Or(Get(x, "status"), Str("")))) == Wanted(status)
  {
    var wanted := Wanted(status);
    var f := (r: Record) => Upper(text(Or(Get(r, "status"), Str("")))) == wanted;
    NewerIsPreorder(text);
    SortedKeeps(Newer(text), Filter(Values(merged), f), x);
    FilterKeeps(Values(merged), f, x);
  }

  lemma StatusesAreUpper(status: string)
    requires StatusWord(status).Some?
    ensures Upper(StatusWord(status).value) == StatusWord(status).value && StatusWord(status).value != ""
  {
    hide Strip;
    UpperTwice(Strip(status));
  }

  lemma UpperCharTwice(c: char)
    ensures UpperChar(UpperChar(c)) == UpperChar(c)
  {
  }

  lemma {:induction false} UpperTwice(s: string)
    ensures Upper(Upper(s)) == Upper(s)
  {
    if s != [] {
      UpperTwice(s[1..]);
      UpperCharTwice(s[0]);
      assert Upper(s)[1..] == Upper(s[1..]);
    }
  }

  lemma {:induction false} StatusOfIsUpper(cmds: seq<Command>, id: string)
    requires StatusOf(cmds, id).Some?
    ensures Upper(StatusOf(cmds, id).value) == StatusOf(cmds, id).value && StatusOf(cmds, id).value != ""
  {
    var front, c := cmds[..|cmds| - 1], cmds[|cmds| - 1];
    assert cmds == front + [c];
    StatusOfStep(front, c, id);
    if StatusOf(front, id).Some? { StatusOfIsUpper(front, id); }
    if !c.Enqueue? && StatusWord(c.status).Some? { StatusesAreUpper(c.status); }
    PendingIsUpper();
  }

  lemma PendingIsUpper()
    ensures Upper(PENDING) == PENDING && PENDING != ""
  {
    StatusWordOfPending();
  }

  lemma {:induction false} StatusWordOfPending()
    ensures Upper(PENDING) == PENDING
  {
    var s := PENDING;
    forall i | 0 <= i < |s| ensures UpperChar(s[i]) == s[i] {}
    UpperFixed(s);
  }

  lemma {:induction false} UpperFixed(s: string)
    requires forall i | 0 <= i < |s| :: UpperChar(s[i]) == s[i]
    ensures Upper(s) == s
  {
    if s != [] { UpperFixed(s[1..]); }
  }

  // A selected item stands for an approval whose status is the wanted one.
  lemma {:induction false} SelectedStands(cmds: seq<Command>, rules: Rules, status: string, limit: int, text: Json -> string, x: Record)
    returns (id: string)
    requires FreshIds(cmds) && Reader(rules) && KeepsProposal(rules) && TextOfStrings(text)
    requires x in Selected(Merged(LogOf(cmds), rules), status, limit, text)
    ensures Stands(x, cmds, id) && StatusOf(cmds, id) == Some(Wanted(status))
  {
    var m := Merged(LogOf(cmds), rules);
    SelectedAre(m, status, limit, text, x);
    LogTracks(cmds, rules);
    MergedTells(LogOf(cmds), cmds, rules);
    ReadAllKeyed(LogOf(cmds), rules);
    var i :| 0 <= i < |Values(m)| && Values(m)[i] == x;
    assert m.keys[i] in Elements(m.keys);
    var k := m.keys[i];
    MergedStands(cmds, rules, k);
    id := k.s;
    StatusOfIsUpper(cmds, id);
  }

  // ----- the legacy bridge -----

  // A row for a proposal whose approval has the wanted status.
  ghost predicate CarriesOver(row: Record, cmds: seq<Command>, status: string) {
    exists id :: StatusOf(cmds, id) == Some(Wanted(status))
                 && Get(row, "proposal_id") == Get(EnqueuedProposal(cmds, id), "proposal_id")
  }

  lemma RowIds(pid: Json, args: L.Args, row: Record)
    requires row in L.RowsFor(pid, args)
    ensures Get(row, "proposal_id") == pid
  {
  }

  lemma ProposalIdOf(item: Record, cmds: seq<Command>, id: string)
    requires Stands(item, cmds, id) && L.ProposalId(item).Some?
    ensures L.ProposalId(item).value == Get(EnqueuedProposal(cmds, id), "proposal_id")
  {
  }

  // An item that stands for an approval with the wanted status.
  ghost predicate StandsWith(item: Record, cmds: seq<Command>, status: string) {
    exists id :: Stands(item, cmds, id) && StatusOf(cmds, id) == Some(Wanted(status))
  }

  lemma {:induction false} LegacyCarriesOver(
      rows: seq<Record>, items: seq<Record>, cmds: seq<Command>, args: L.Args, text: Json -> string, i: nat)
    requires forall x | x in items :: StandsWith(x, cmds, args.status)
    requires |rows| <= i < |L.HandleAll(rows, items, args, text)|
    ensures CarriesOver(L.HandleAll(rows, items, args, text)[i], cmds, args.status)
  {
    var front, item := items[..|items| - 1], items[|items| - 1];
    var before, after := L.HandleAll(rows, front, args, text), L.HandleAll(rows, items, args, text);
    if i < |before| {
      assert after[i] == before[i];
      assert forall x | x in front :: x in items;
      LegacyCarriesOver(rows, front, cmds, args, text, i);
    } else {
      assert item in items;
      var id :| Stands(item, cmds, id) && StatusOf(cmds, id) == Some(Wanted(args.status));
      ProposalIdOf(item, cmds, id);
      RowIds(L.ProposalId(item).value, args, after[i]);
    }
  }

  // Whatever the queue went through, every row the legacy bridge appends is for a proposal that was
  // enqueued there and whose status is the wanted one, APPROVED unless asked otherwise.
  lemma {:induction false} OnlyApprovedIsBridged(rows: seq<Record>, cmds: seq<Command>, args: L.Args, text: Json -> string, i: nat)
    requires FreshIds(cmds) && TextOfStrings(text)
    requires |rows| <= i < |L.HandleAll(rows, L.Items(LogOf(cmds), args, text), args, text)|
    ensures CarriesOver(L.HandleAll(rows, L.Items(LogOf(cmds), args, text), args, text)[i], cmds, args.status)
  {
    ThreeReaders();
    BridgesKeepProposal();
    var items := L.Items(LogOf(cmds), args, text);
    forall x | x in items ensures StandsWith(x, cmds, args.status) {
      var id := SelectedStands(cmds, LegacyRules(), args.status, args.limit, text, x);
    }
    LegacyCarriesOver(rows, items, cmds, args, text, i);
  }

  // ----- the proposal bridge -----

  // The record made from a proposal, as the dry run leaves it; not a no-op on the policy unless those
  // are allowed.
  ghost predicate MadeFrom(row: Record, proposal: Record, args: P.Args, w: P.World) {
    && row == P.AfterDryRun(P.Convert(proposal, w), w)
    && (P.Noop(P.Convert(proposal, w), w) ==> args.allowNoop)
    && (TouchedAtMost(w.policy, P.NormalizeOps(proposal), 1) ==>
          (row == P.Convert(proposal, w) <==> Untouched(w.policy, P.NormalizeOps(proposal))))
  }

  // It is made from a proposal whose approval has the wanted status.
  ghost predicate Converted(row: Record, cmds: seq<Command>, args: P.Args, w: P.World) {
    exists id :: StatusOf(cmds, id) == Some(Wanted(args.status)) && MadeFrom(row, EnqueuedProposal(cmds, id), args, w)
  }

  // The dry run leaves the record as it was exactly when it leaves its operations.
  lemma DryRunKeeps(proposal: Record, w: P.World)
    ensures P.AfterDryRun(P.Convert(proposal, w), w) == P.Convert(proposal, w)
            <==> AfterRun(w.policy, P.NormalizeOps(proposal)) == P.NormalizeOps(proposal)
  {
    hide P.NewId, P.NormalizeOps, AfterRun;
    P.ConvertFields(proposal, w);
    var out, ops := P.Convert(proposal, w), P.NormalizeOps(proposal);
    assert Get(out, "patch_ops") == Arr(ops) && "patch_ops" in out;
    hide P.Convert;
    if ops == [] {
      AfterNothing(w.policy);
    } else {
      var left := out["patch_ops" := Arr(AfterRun(w.policy, ops))];
      assert left["patch_ops"] == Arr(AfterRun(w.policy, ops));
      if AfterRun(w.policy, ops) == ops { assert left == out; }
    }
  }

  lemma AfterNothing(policy: Json)
    ensures AfterRun(policy, []) == []
  {
  }

  lemma CandidateOf(item: Record, cmds: seq<Command>, id: string, args: P.Args, w: P.World)
    requires Stands(item, cmds, id) && P.Candidate(item, args, w).Some?
    ensures MadeFrom(P.Candidate(item, args, w).value, EnqueuedProposal(cmds, id), args, w)
  {
    hide P.Convert, P.Noop, P.AfterDryRun, P.NormalizeOps, AfterRun, TouchedAtMost;
    var p := EnqueuedProposal(cmds, id);
    if p == map[] { assert Or(Obj(p), Obj(map[])) == Obj(p); }
    assert Or(Get(item, "proposal"), Obj(map[])) == Obj(p);
    DryRunKeeps(p, w);
    if TouchedAtMost(w.policy, P.NormalizeOps(p), 1) { LeftAsItWas(w.policy, P.NormalizeOps(p)); }
  }

  lemma {:induction false} ProposalsConverted(p: P.Progress, cs: seq<Option<Record>>, args: P.Args, i: nat)
    requires |p.rows| <= i < |P.HandleAll(p, cs, args).rows|
    ensures Some(P.HandleAll(p, cs, args).rows[i]) in cs
    decreases |cs|
  {
    var q := P.Handle(p, cs[0], args);
    P.LogGrows(q, cs[1..], args);
    if i < |q.rows| {
      RowsStay(q, cs[1..], args, i);
    } else {
      ProposalsConverted(q, cs[1..], args, i);
    }
  }

  lemma {:induction false} RowsStay(p: P.Progress, cs: seq<Option<Record>>, args: P.Args, i: nat)
    requires i < |p.rows|
    ensures |P.HandleAll(p, cs, args).rows| > i && P.HandleAll(p, cs, args).rows[i] == p.rows[i]
    decreases |cs|
  {
    if cs != [] { RowsStay(P.Handle(p, cs[0], args), cs[1..], args, i); }
  }

  // Every proposal the bridge appends is made from one that was enqueued and has the wanted status.  It
  // is its conversion as the dry run leaves it, which is the conversion itself if and only if no
  // operation changes a value that an earlier one put in, as long as none is changed twice.
  lemma {:induction false} OnlyApprovedIsProposed(rows: seq<Record>, cmds: seq<Command>, args: P.Args, w: P.World, i: nat)
    requires FreshIds(cmds) && TextOfStrings(w.text)
    requires |rows| <= i < |P.RunResult(rows, LogOf(cmds), args, w).rows|
    ensures Converted(P.RunResult(rows, LogOf(cmds), args, w).rows[i], cmds, args, w)
  {
    ThreeReaders();
    BridgesKeepProposal();
    var items := P.Items(LogOf(cmds), args, w);
    var cs := P.Candidates(items, args, w);
    ProposalsConverted(P.Start(rows, args, w.text), cs, args, i);
    var row := P.RunResult(rows, LogOf(cmds), args, w).rows[i];
    var n :| 0 <= n < |cs| && cs[n] == Some(row);
    var id := SelectedStands(cmds, BridgeRules(), args.status, args.limit, w.text, items[n]);
    CandidateOf(items[n], cmds, id, args, w);
  }
}

// From the proposal bridge to the approval engine.
module BridgeToEngine {
  import opened Basics
  import opened JsonModel
  import opened Readable
  import opened Pointer
  import opened Patch
  import opened PatchValues
  import opened PatchRewrites
  import opened PolicyStore
  import opened Approval
  import opened QueueRecords
  import opened BridgeSafety
  import P = ProposalBridge

  function ProposalOf(item: Record): Json {
    Or(Get(item, "proposal"), Obj(map[]))
  }

  // The patch is accepted on the policy and gives the policy back.
  predicate LeavesPolicy(ops: seq<Json>, policy: Json) {
    ops != [] && Apply(policy, ops) == Ok(policy)
  }

  // The patched policy has another hash unless it is the same policy.
  ghost predicate HashTells(ops: seq<Json>, w: P.World) {
    var patched := Apply(w.policy, ops);
    patched.Ok? && Sha(w.digest, patched.value) == Sha(w.digest, w.policy) ==> Print(patched.value) == Print(w.policy)
  }

  lemma ConvertBase(auto: Record, w: P.World)
    ensures BaseHash(P.Convert(auto, w)) == Str(Sha(w.digest, w.policy))
    ensures PatchOps(P.Convert(auto, w)) == if P.NormalizeOps(auto) == [] then Err else Ok(P.NormalizeOps(auto))
  {
    hide P.NewId, P.NormalizeOps, Sha;
    P.ConvertFields(auto, w);
  }

  // The operations of an item as the dry run leaves them.
  function LeftOps(item: Record, w: P.World): seq<Json>
    requires ProposalOf(item).Obj?
  {
    AfterRun(w.policy, P.NormalizeOps(ProposalOf(item).fields))
  }

  lemma KeptRecord(item: Record, args: P.Args, w: P.World)
    requires P.Candidate(item, args, w).Some?
    ensures var out := P.Candidate(item, args, w).value;
            && P.Id(out) == P.NewId(ProposalOf(item).fields, w)
            && Get(out, "patch_ops") == Arr(LeftOps(item, w)) && BaseHash(out) == Str(Sha(w.digest, w.policy))
            && PatchOps(out) == if LeftOps(item, w) == [] then Err else Ok(LeftOps(item, w))
  {
    hide P.Convert, P.Noop, P.NormalizeOps, P.NewId, AfterRun, Sha;
    var auto := ProposalOf(item).fields;
    ConvertBase(auto, w);
    P.ConvertFields(auto, w);
    P.DryRunKeepsId(P.Convert(auto, w), w);
    AfterNothing(w.policy);
    assert "patch_ops"[1] == 'a' && "policy_target_sha256"[1] == 'o';
  }

  // An item is dropped exactly when its proposal is no dict, or when its patch leaves the latest policy
  // as it is and no-ops are not wanted.  What is kept has an id, its own if it has one, the policy it
  // was checked against as its base, and the usable operations in order as the dry run leaves them:
  // unchanged if and only if none changes a value that an earlier one put in, as long as none is
  // changed twice.
  lemma {:induction false} CandidateExact(item: Record, args: P.Args, w: P.World)
    requires ProposalOf(item).Obj? ==> HashTells(P.NormalizeOps(ProposalOf(item).fields), w)
    ensures P.Candidate(item, args, w).None? <==>
              !ProposalOf(item).Obj?
              || (!args.allowNoop && LeavesPolicy(P.NormalizeOps(ProposalOf(item).fields), w.policy))
    ensures P.Candidate(item, args, w).Some? ==>
              var out, own := P.Candidate(item, args, w).value, Get(ProposalOf(item).fields, "proposal_id");
              var ops := P.NormalizeOps(ProposalOf(item).fields);
              && Truthy(P.Id(out)) && (Truthy(own) ==> P.Id(out) == own)
              && BaseHash(out) == Str(Sha(w.digest, w.policy))
              && Get(out, "patch_ops") == Arr(LeftOps(item, w))
              && (TouchedAtMost(w.policy, ops, 1) ==> (LeftOps(item, w) == ops <==> Untouched(w.policy, ops)))
  {
    hide Apply, P.Convert, P.NormalizeOps, Print, P.AfterDryRun, AfterRun, TouchedAtMost;
    if ProposalOf(item).Obj? {
      var auto := ProposalOf(item).fields;
      var ops := P.NormalizeOps(auto);
      ConvertBase(auto, w);
      P.NewIdIsTruthy(auto, w);
      var patched := Apply(w.policy, ops);
      if patched.Ok? && Print(patched.value) == Print(w.policy) { PrintInjective(patched.value, w.policy); }
      if P.Candidate(item, args, w).Some? { KeptRecord(item, args, w); }
      if TouchedAtMost(w.policy, ops, 1) { LeftAsItWas(w.policy, ops); }
    }
  }

  // The bridged proposal is in the log under the requested id, its approvals are there, and the policy
  // is the one it was bridged at.
  ghost predicate Bridged(item: Record, args: P.Args, w: P.World, s: State, req: Request) {
    && P.Candidate(item, args, w).Some? && Latest(s.files) == Some((w.version, w.policy))
    && FindProposal(s.proposals, req.pid) == Ok(P.Candidate(item, args, w).value) && EnoughApprovals(s.rows, req)
  }

  // Applied by the engine to the policy it was bridged at, a bridged proposal is never refused for its
  // base, whatever the strategy: only the operations as they were left decide, if there are any.
  lemma {:induction false} BridgedDecides(item: Record, args: P.Args, w: P.World, s: State, req: Request)
    requires Bridged(item, args, w, s, req)
    ensures var plan := PlanOf(s, req, w.digest);
            && (plan.Ok? <==> LeftOps(item, w) != [] && Apply(w.policy, LeftOps(item, w)).Ok?)
            && (plan.Ok? ==> plan.value.before == w.policy && Ok(plan.value.after) == Apply(w.policy, LeftOps(item, w)))
  {
    hide Apply, P.Convert, P.NormalizeOps, Print, Latest, FindProposal, P.AfterDryRun, AfterRun;
    KeptRecord(item, args, w);
  }

  // If no operation changes a value that an earlier one put in, the approved patch itself decides, and
  // the proposal is written as a new policy, never as a no-op, unless the bridge was told to keep those.
  lemma {:induction false} BridgedApplies(item: Record, args: P.Args, w: P.World, s: State, req: Request)
    requires Bridged(item, args, w, s, req) && Untouched(w.policy, P.NormalizeOps(ProposalOf(item).fields))
    ensures var ops := P.NormalizeOps(ProposalOf(item).fields);
            var plan := PlanOf(s, req, w.digest);
            && (plan.Ok? <==> ops != [] && Apply(w.policy, ops).Ok?)
            && (plan.Ok? ==> plan.value.before == w.policy && Ok(plan.value.after) == Apply(w.policy, ops))
            && (plan.Ok? && !args.allowNoop ==> CommittedRow(req, plan.value, w.digest).status == APPLIED)
  {
    hide Apply, P.Convert, P.NormalizeOps, Print, P.AfterDryRun, AfterRun, TouchedAtMost, PlanOf, Latest, FindProposal;
    var ops := P.NormalizeOps(ProposalOf(item).fields);
    UntouchedIsAtMostOnce(w.policy, ops);
    LeftAsItWas(w.policy, ops);
    BridgedDecides(item, args, w, s, req);
    ConvertBase(ProposalOf(item).fields, w);
  }

  // ----- where the approved patch is not what is written -----

  // An item of the queue that carries the operations as its patch.
  function ItemOf(ops: seq<Json>): Record {
    map["proposal" := Obj(map["patch" := Arr(ops)])]
  }

  lemma MakeUsable(tokens: seq<string>, edit: Edit)
    requires Named(tokens)
    ensures P.UsableOp(Make(tokens, edit))
  {
    JoinNotRoot(tokens);
    assert |"op"| == 2 && |"path"| == 4 && |"value"| == 5;
  }

  lemma ItemOps(a: Json, b: Json)
    requires P.UsableOp(a) && P.UsableOp(b)
    ensures ProposalOf(ItemOf([a, b])).Obj? && P.NormalizeOps(ProposalOf(ItemOf([a, b])).fields) == [a, b]
  {
    hide P.UsableOp;
    assert [a, b][..1] == [a] && [a][..0] == [];
    assert P.UsableOps([]) == [];
    assert P.UsableOps([a]) == [a];
  }

  // An approved patch that changes the policy, is kept for that, and is written as a patch that does
  // not: applied by the engine to the same policy it is a no-op.  It empties a list of two equal items
  // and appends one.
  lemma {:induction false} ApprovedChangeBecomesNoop(k: string, x: Json, args: P.Args, w: P.World)
    requires k != "" && w.policy == Single(k, Arr([x, x])) && HashTells(Refill(k, x), w)
    ensures Apply(w.policy, Refill(k, x)).Ok? && Apply(w.policy, Refill(k, x)) != Ok(w.policy)
    ensures P.Candidate(ItemOf(Refill(k, x)), args, w).Some?
    ensures forall s, req | Bridged(ItemOf(Refill(k, x)), args, w, s, req) ::
              PlanOf(s, req, w.digest).Ok? && CommittedRow(req, PlanOf(s, req, w.digest).value, w.digest).status == APPLIED_NOOP
  {
    hide Make, Apply, AfterRun, P.NormalizeOps, P.Candidate, PlanOf, Bridged, P.UsableOp, ItemOf;
    MakeUsable([k], Assign(Arr([])));
    MakeUsable([k, "-"], Insert(x));
    ItemOps(Refill(k, x)[0], Refill(k, x)[1]);
    RefillUndoesItself(k, x);
    CandidateExact(ItemOf(Refill(k, x)), args, w);
    forall s, req | Bridged(ItemOf(Refill(k, x)), args, w, s, req)
      ensures PlanOf(s, req, w.digest).Ok? && CommittedRow(req, PlanOf(s, req, w.digest).value, w.digest).status == APPLIED_NOOP
    {
      BridgedDecides(ItemOf(Refill(k, x)), args, w, s, req);
    }
  }

  // An approved patch that is accepted, and is written as one that the engine refuses: it adds a dict
  // and removes a key from it.
  lemma {:induction false} ApprovedChangeIsRefused(f: map<string, Json>, k: string, m: string, x: Json, args: P.Args, w: P.World)
    requires k != "" && m != "" && w.policy == Obj(f)
    ensures Apply(w.policy, Strip(k, m, x)).Ok?
    ensures HashTells(Strip(k, m, x), w) && f[k := Obj(map[])] != f ==> P.Candidate(ItemOf(Strip(k, m, x)), args, w).Some?
    ensures forall s, req | Bridged(ItemOf(Strip(k, m, x)), args, w, s, req) :: PlanOf(s, req, w.digest).Err?
  {
    hide Make, Apply, AfterRun, P.NormalizeOps, P.Candidate, PlanOf, Bridged, P.UsableOp, ItemOf;
    MakeUsable([k], Insert(Single(m, x)));
    MakeUsable([k, m], Delete);
    ItemOps(Strip(k, m, x)[0], Strip(k, m, x)[1]);
    StripSpoilsItself(f, f, k, m, x);
    if HashTells(Strip(k, m, x), w) { CandidateExact(ItemOf(Strip(k, m, x)), args, w); }
    forall s, req | Bridged(ItemOf(Strip(k, m, x)), args, w, s, req) ensures PlanOf(s, req, w.digest).Err? {
      BridgedDecides(ItemOf(Strip(k, m, x)), args, w, s, req);
    }
  }

  // ----- the artifact hash -----

  // The artifact hash is taken before the dry run: it is that of the record as it is written exactly
  // when the run has left the record as it was.
  lemma {:induction false} ArtifactHashExact(auto: Record, w: P.World)
    ensures var out := P.Convert(auto, w);
            var row := P.AfterDryRun(out, w);
            && Get(row, "artifact_hash") == Str(w.digest(P.ArtifactText(out - {"artifact_hash"}, auto)))
            && (P.ArtifactText(row - {"artifact_hash"}, auto) == P.ArtifactText(out - {"artifact_hash"}, auto) <==> row == out)
  {
    hide P.NewId, P.NormalizeOps, AfterRun, Print, Sha;
    var out := P.Convert(auto, w);
    var row, hash := P.AfterDryRun(out, w), "artifact_hash";
    KeysApart();
    ConvertArtifact(auto, w);
    assert "meta" !in out && "meta" !in row && row[hash] == out[hash];
    hide P.Convert, P.AfterDryRun;
    if P.ArtifactText(row - {hash}, auto) == P.ArtifactText(out - {hash}, auto) {
      SameWithoutHash(row, out, auto);
    }
  }

  lemma KeysApart()
    ensures "artifact_hash" != "patch_ops" && "meta" != "patch_ops" && "meta" != "artifact_hash"
    ensures "meta" !in ["proposal_id", "ts_iso", "policy_target_version", "policy_target_sha256", "evidence"]
    ensures "artifact_hash" !in ["proposal_id", "ts_iso", "policy_target_version", "policy_target_sha256", "evidence"]
  {
    assert |"artifact_hash"| == 13 && |"patch_ops"| == 9 && |"meta"| == 4 && |"proposal_id"| == 11 && |"ts_iso"| == 6;
    assert |"policy_target_version"| == 21 && |"policy_target_sha256"| == 20 && |"evidence"| == 8;
  }

  lemma ConvertArtifact(auto: Record, w: P.World)
    ensures var out := P.Convert(auto, w);
            "artifact_hash" in out && "meta" !in out
            && out["artifact_hash"] == Str(w.digest(P.ArtifactText(out - {"artifact_hash"}, auto)))
  {
    hide P.NewId, P.NormalizeOps, Print, Sha, P.ArtifactText;
    KeysApart();
    var out := P.Convert(auto, w);
    var base: Record :=
      map["proposal_id" := P.NewId(auto, w),
          "ts_iso" := Or(Or(Get(auto, "ts_created"), Get(auto, "ts")), Str(w.now)),
          "policy_target_version" := Int(w.version),
          "policy_target_sha256" := Str(Sha(w.digest, w.policy)),
          "evidence" := w.evidence(auto),
          "patch_ops" := Arr(P.NormalizeOps(auto))];
    assert out - {"artifact_hash"} == base;
  }

  lemma SameWithoutHash(row: Record, out: Record, auto: Record)
    requires "artifact_hash" in row && "artifact_hash" in out && row["artifact_hash"] == out["artifact_hash"]
    requires "meta" !in row && "meta" !in out
    requires P.ArtifactText(row - {"artifact_hash"}, auto) == P.ArtifactText(out - {"artifact_hash"}, auto)
    ensures row == out
  {
    hide Print;
    var hash := "artifact_hash";
    var meta := Obj(map["bridged_from" := Str("approval_queue"), "auto_proposed_by" := Str("learning_os_v2"),
                        "channel" := Get(auto, "channel"), "window_days" := Get(auto, "window_days")]);
    var f, g := (row - {hash})["meta" := meta], (out - {hash})["meta" := meta];
    PrintInjective(Obj(f), Obj(g));
    assert f == g;
    forall k | k in row || k in out ensures k in row && k in out && row[k] == out[k] {
      if k != hash && k != "meta" { assert k in f && k in g && f[k] == g[k]; }
    }
  }
}
