// core/B_learning/approval.py: approvals, quorum and application of policy patches.

module Approval {
  import opened Basics
  import opened JsonModel
  import opened Patch
  import opened PolicyStore

  // ----- the approvals log -----

  const PENDING := "PENDING"
  const APPLIED := "APPLIED"
  const APPLIED_NOOP := "APPLIED_NOOP"

  // A policy version with its hash, as an applied record names the policy before and after.
  datatype Mark = Mark(version: nat, sha256: string)

  // One line of the approvals log.  Other tools append lines too, so the proposal id is any JSON
  // value; a missing reviewer is "".  Timestamps and receipts are not modelled.
  datatype Row = Row(
    proposalId: Json,
    decision: string,
    reviewer: string,
    status: string,
    comment: string,
    target: Json,
    before: Option<Mark>,
    after: Option<Mark>)

  predicate IsPendingApproval(row: Row, pid: string) {
    row.proposalId == Str(pid) && row.decision == "approved" && row.status == PENDING && row.reviewer != ""
  }

  // The distinct reviewers with a pending approval of the proposal.
  function PendingApprovers(rows: seq<Row>, pid: string): set<string> {
    set row | row in rows && IsPendingApproval(row, pid) :: row.reviewer
  }

  // ----- proposals -----

  // find_proposal: the first record with this id.  A record that is no object raises.
  function FindProposal(proposals: seq<Json>, pid: string): Result<map<string, Json>> {
    if proposals == [] then Err
    else if !proposals[0].Obj? then Err
    else if Get(proposals[0].fields, "proposal_id") == Str(pid) then Ok(proposals[0].fields)
    else FindProposal(proposals[1..], pid)
  }

  method FindProposalInLog(proposals: seq<Json>, pid: string) returns (r: Result<map<string, Json>>)
    ensures r == FindProposal(proposals, pid)
  {
    for i := 0 to |proposals|
      invariant FindProposal(proposals, pid) == FindProposal(proposals[i..], pid)
    {
      if !proposals[i].Obj? {
        return Err;
      }
      if Get(proposals[i].fields, "proposal_id") == Str(pid) {
        return Ok(proposals[i].fields);
      }
    }
    return Err;
  }

  // The operations of a proposal: dry_run_validate wants a non-empty list.
  function PatchOps(proposal: map<string, Json>): Result<seq<Json>> {
    var ops := Get(proposal, "patch_ops");
    if ops.Arr? && ops.items != [] then Ok(ops.items) else Err
  }

  function BaseHash(proposal: map<string, Json>): Json {
    Get(proposal, "policy_target_sha256")
  }

  // ----- the state and its two steps -----

  datatype State = State(files: Files, proposals: seq<Json>, rows: seq<Row>)

  function ApprovalRow(pid: string, reviewer: string, comment: string, proposal: map<string, Json>): Row {
    Row(Str(pid), "approved", reviewer, PENDING, comment, BaseHash(proposal), None, None)
  }

  function AppliedRow(pid: string, applier: string, comment: string, proposal: map<string, Json>,
                      status: string, before: Mark, after: Mark): Row {
    Row(Str(pid), "approved", applier, status, comment, BaseHash(proposal), Some(before), Some(after))
  }

  // approve_only
  function ApproveOnly(s: State, pid: string, reviewer: string, comment: string): State {
    match FindProposal(s.proposals, pid)
    case Ok(proposal) => s.(rows := s.rows + [ApprovalRow(pid, reviewer, comment, proposal)])
    case Err => s
  }

  datatype Request = Request(pid: string, applier: string, comment: string, minApprovals: int, strategy: string)

  // The approvals a request asks for are there.
  predicate EnoughApprovals(rows: seq<Row>, req: Request) {
    var approvers := PendingApprovers(rows, req.pid);
    !(req.minApprovals >= 2 && req.applier in approvers) && |approvers| >= req.minApprovals
  }

  // The checks before anything is written: the quorum, the latest policy, the proposal, the dry run
  // and the base hash.  The result is the proposal, the policy before and the policy after.
  datatype Plan = Plan(proposal: map<string, Json>, version: nat, before: Json, after: Json)

  function PlanAt(s: State, req: Request, digest: string -> string, latest: Option<(nat, Json)>): Result<Plan> {
    if !EnoughApprovals(s.rows, req) then Err
    else
      match latest
      case None => Err
      case Some((v, policy)) =>
        var proposal := FindProposal(s.proposals, req.pid);
        if proposal.Err? then Err else
        var ops := PatchOps(proposal.value);
        if ops.Err? then Err else
        var patched := Apply(policy, ops.value);
        if patched.Err? then Err else
        var base := BaseHash(proposal.value);
        if Truthy(base) && base != Str(Sha(digest, policy)) && req.strategy == "reject" then Err
        else Ok(Plan(proposal.value, v, policy, patched.value))
  }

  ghost function PlanOf(s: State, req: Request, digest: string -> string): Result<Plan> {
    PlanAt(s, req, digest, Latest(s.files))
  }

  function CommittedRow(req: Request, plan: Plan, digest: string -> string): Row {
    var before := Mark(plan.version, Sha(digest, plan.before));
    var after := Mark(plan.version + 1, Sha(digest, plan.after));
    if after.sha256 == before.sha256 then
      AppliedRow(req.pid, req.applier, req.comment, plan.proposal, APPLIED_NOOP, before, before)
    else
      AppliedRow(req.pid, req.applier, req.comment, plan.proposal, APPLIED, before, after)
  }

  // What is written: a new policy version unless the hash stays the same, and one row.
  ghost function Committed(s: State, req: Request, plan: Plan, digest: string -> string): State
    requires HasVersion(s.files)
  {
    var row := CommittedRow(req, plan, digest);
    var files := if row.status == APPLIED then Saved(s.files, plan.after) else s.files;
    State(files, s.proposals, s.rows + [row])
  }

  // apply_after_approvals: Err leaves everything as it was.
  ghost function ApplyAfterApprovals(s: State, req: Request, digest: string -> string): State {
    match PlanOf(s, req, digest)
    case Err => s
    case Ok(plan) => Committed(s, req, plan, digest)
  }

  // The application with the policy that was taken for the latest.
  ghost function AppliedAt(s: State, req: Request, digest: string -> string, latest: Option<(nat, Json)>): State
    requires LatestOne(s.files, latest)
  {
    if latest.Some? then LatestOneVersion(s.files, latest); AppliedWith(s, req, digest, latest) else s
  }

  ghost function AppliedWith(s: State, req: Request, digest: string -> string, latest: Option<(nat, Json)>): State
    requires HasVersion(s.files)
  {
    match PlanAt(s, req, digest, latest)
    case Err => s
    case Ok(plan) => Committed(s, req, plan, digest)
  }

  // ----- the code -----

  class Engine {
    var store: Store
    var proposals: seq<Json>
    var rows: seq<Row>

    ghost predicate Valid()
      reads this, store
    {
      store.Valid()
    }

    ghost function Now(): State
      reads this, store
    {
      State(store.files, proposals, rows)
    }

    constructor (store: Store, proposals: seq<Json>, rows: seq<Row>)
      ensures this.store == store
      ensures Now() == State(store.files, proposals, rows)
    {
      this.store := store;
      this.proposals := proposals;
      this.rows := rows;
    }

    // approve_only; Err is the KeyError of an unknown proposal
    method Approve(pid: string, reviewer: string, comment: string) returns (r: Result<Row>)
      modifies this`rows
      ensures Now() == ApproveOnly(old(Now()), pid, reviewer, comment)
      ensures r.Ok? <==> FindProposal(proposals, pid).Ok?
      ensures r.Ok? ==> rows == old(rows) + [r.value]
    {
      var proposal := FindProposalInLog(proposals, pid);
      if proposal.Err? {
        return Err;
      }
      var row := ApprovalRow(pid, reviewer, comment, proposal.value);
      rows := rows + [row];
      return Ok(row);
    }

    // The set comprehension over the log.
    method Approvers(pid: string) returns (approvers: set<string>)
      ensures approvers == PendingApprovers(rows, pid)
    {
      approvers := {};
      for i := 0 to |rows|
        invariant approvers == PendingApprovers(rows[..i], pid)
      {
        assert rows[..i + 1] == rows[..i] + [rows[i]];
        if IsPendingApproval(rows[i], pid) {
          approvers := approvers + {rows[i].reviewer};
        }
      }
      assert rows[..|rows|] == rows;
    }

    // Everything apply_after_approvals checks before it writes, dry_run_validate included.
    method Check(req: Request) returns (r: Result<Plan>)
      ensures exists latest :: LatestOne(store.files, latest) && r == PlanAt(Now(), req, store.digest, latest)
      ensures Valid() ==> r == PlanOf(Now(), req, store.digest)
    {
      hide HasVersion, OneFilePerVersion, Latest, LatestOne, Patch.Apply;
      ghost var taken := SomeLatest(store.files);
      var approvers := Approvers(req.pid);
      if req.minApprovals >= 2 && req.applier in approvers {
        return Err;
      }
      if |approvers| < req.minApprovals {
        return Err;
      }
      var latest := store.GetLatest();
      taken := Taken(latest);
      if latest.Err? {
        return Err;
      }
      var proposal := FindProposalInLog(proposals, req.pid);
      if proposal.Err? {
        return Err;
      }
      var ops := PatchOps(proposal.value);
      if ops.Err? {
        return Err;
      }
      var base := BaseHash(proposal.value);
      var mismatch := Truthy(base) && base != Str(latest.value.sha256);
      var patched := ApplyPatch(latest.value.policy, ops.value);
      if patched.Err? {
        return Err;
      }
      if mismatch && req.strategy == "reject" {
        return Err;
      }
      return Ok(Plan(proposal.value, latest.value.version, latest.value.policy, patched.value));
    }

    // apply_after_approvals
    method Apply(req: Request) returns (r: Result<Row>)
      modifies this`rows, store`files
      ensures exists latest :: LatestOne(old(store.files), latest)
                && Now() == AppliedAt(old(Now()), req, store.digest, latest)
                && (r.Ok? <==> PlanAt(old(Now()), req, store.digest, latest).Ok?)
      ensures old(Valid()) ==> Valid() && Now() == ApplyAfterApprovals(old(Now()), req, store.digest)
      ensures old(Valid()) ==> (r.Ok? <==> PlanOf(old(Now()), req, store.digest).Ok?)
      ensures r.Ok? ==> rows == old(rows) + [r.value]
    {
      var checked := Check(req);
      if checked.Err? {
        return Err;
      }
      var plan := checked.value;
      var row := Commit(req, plan);
      return Ok(row);
    }

    // The two ways an application ends: the no-op guard, and saving a new version.
    method Commit(req: Request, plan: Plan) returns (row: Row)
      requires HasVersion(store.files) && plan.version == Latest(store.files).value.0
      modifies this`rows, store`files
      ensures old(Valid()) ==> Valid()
      ensures Now() == Committed(old(Now()), req, plan, store.digest)
      ensures rows == old(rows) + [row]
    {
      var before := Mark(plan.version, Sha(store.digest, plan.before));
      if Sha(store.digest, plan.after) == before.sha256 {
        row := AppliedRow(req.pid, req.applier, req.comment, plan.proposal, APPLIED_NOOP, before, before);
      } else {
        var saved := store.SaveNewVersion(plan.after);
        var after := Mark(saved.value.version, saved.value.sha256);
        row := AppliedRow(req.pid, req.applier, req.comment, plan.proposal, APPLIED, before, after);
      }
      rows := rows + [row];
    }
  }
}
