// What holds over every run of the approval pipeline: the log explains the policy, and every
// application had its quorum.

module ApprovalRuns {
  import opened Basics
  import opened JsonModel
  import opened Patch
  import opened PolicyFiles
  import opened PolicyStore
  import opened Approval

  // ----- runs -----

  // The proposals log only grows; other tools may append rows, but only apply_after_approvals
  // writes rows that say a proposal was applied.
  datatype Command =
    | Approve(pid: string, reviewer: string, comment: string)
    | ApplyPolicy(req: Request)
    | Propose(record: Json)
    | OtherRow(row: Row)

  predicate SaysApplied(row: Row) {
    row.status == APPLIED || row.status == APPLIED_NOOP
  }

  predicate Allowed(cmd: Command) {
    cmd.OtherRow? ==> !SaysApplied(cmd.row)
  }

  ghost function Exec(s: State, cmd: Command, digest: string -> string): State {
    match cmd
    case Approve(pid, reviewer, comment) => ApproveOnly(s, pid, reviewer, comment)
    case ApplyPolicy(req) => ApplyAfterApprovals(s, req, digest)
    case Propose(record) => s.(proposals := s.proposals + [record])
    case OtherRow(row) => s.(rows := s.rows + [row])
  }

  ghost function RunAll(s: State, cmds: seq<Command>, digest: string -> string): State {
    if cmds == [] then s else
    Exec(RunAll(s, cmds[..|cmds| - 1], digest), cmds[|cmds| - 1], digest)
  }

  ghost predicate AllAllowed(cmds: seq<Command>) {
    forall i | 0 <= i < |cmds| :: Allowed(cmds[i])
  }

  // ----- replay -----

  function AppliedRows(rows: seq<Row>): seq<Row> {
    if rows == [] then [] else
    var front := AppliedRows(rows[..|rows| - 1]);
    if rows[|rows| - 1].status == APPLIED then front + [rows[|rows| - 1]] else front
  }

  // Folds apply_patch over the proposals the rows name, in order.
  function Replay(policy: Json, applied: seq<Row>, proposals: seq<Json>): Result<Json> {
    if applied == [] then Ok(policy) else
    var row := applied[|applied| - 1];
    var before := Replay(policy, applied[..|applied| - 1], proposals);
    if before.Err? || !row.proposalId.Str? then Err else
    var proposal := FindProposal(proposals, row.proposalId.s);
    if proposal.Err? then Err else
    var ops := PatchOps(proposal.value);
    if ops.Err? then Err else Apply(before.value, ops.value)
  }

  // Each row starts where the row before it ended: versions and hashes link.
  ghost predicate Linked(start: Mark, applied: seq<Row>, end: Mark) {
    if applied == [] then start == end else
    var row := applied[|applied| - 1];
    row.before.Some? && row.after == Some(end) && Linked(start, applied[..|applied| - 1], row.before.value)
  }

  lemma {:induction false} AppliedRowsAppend(rows: seq<Row>, row: Row)
    ensures AppliedRows(rows + [row]) == if row.status == APPLIED then AppliedRows(rows) + [row] else AppliedRows(rows)
  {
    assert (rows + [row])[..|rows|] == rows;
  }

  lemma {:induction false} FindProposalAppend(proposals: seq<Json>, more: Json, pid: string)
    requires FindProposal(proposals, pid).Ok?
    ensures FindProposal(proposals + [more], pid) == FindProposal(proposals, pid)
  {
    if proposals != [] {
      assert (proposals + [more])[1..] == proposals[1..] + [more];
      if Get(proposals[0].fields, "proposal_id") != Str(pid) { FindProposalAppend(proposals[1..], more, pid); }
    }
  }

  lemma {:induction false} ReplayAppend(policy: Json, applied: seq<Row>, proposals: seq<Json>, more: Json)
    requires Replay(policy, applied, proposals).Ok?
    ensures Replay(policy, applied, proposals + [more]) == Replay(policy, applied, proposals)
  {
    if applied != [] {
      ReplayAppend(policy, applied[..|applied| - 1], proposals, more);
      FindProposalAppend(proposals, more, applied[|applied| - 1].proposalId.s);
    }
  }

  // ----- the invariant -----

  ghost predicate Ready(s: State) {
    OneFilePerVersion(s.files) && HasVersion(s.files)
  }

  ghost function MarkOf(s: State, digest: string -> string): Mark
    requires Ready(s)
  {
    Mark(Latest(s.files).value.0, Sha(digest, Latest(s.files).value.1))
  }

  ghost function NewRows(s0: State, s: State): seq<Row>
    requires s0.rows <= s.rows
  {
    s.rows[|s0.rows|..]
  }

  ghost predicate Grown(s0: State, s: State) {
    && Ready(s0) && Ready(s) && s0.rows <= s.rows && s0.proposals <= s.proposals
    && forall name | name in s0.files && VersionOf(name).Some? ::
         name in s.files && s.files[name] == s0.files[name]
  }

  // How many of the applications since version v0 took effect: version numbers end at 9999.
  function Effective(v0: nat, applied: nat): (n: nat)
    ensures n <= applied
  {
    if v0 + applied <= 9999 then applied else if v0 <= 9999 then 9999 - v0 else 0
  }

  // The rows written since s0 explain the policy of s: those that took effect replay to it and link
  // to it, and any later one started from it again.
  ghost predicate Explained(s0: State, s: State, digest: string -> string)
    requires Grown(s0, s)
  {
    var applied := AppliedRows(NewRows(s0, s));
    var (v0, p0) := Latest(s0.files).value;
    var (v, p) := Latest(s.files).value;
    var n := Effective(v0, |applied|);
    && v == v0 + n
    && Replay(p0, applied[..n], s.proposals) == Ok(p)
    && Linked(MarkOf(s0, digest), applied[..n], MarkOf(s, digest))
    && forall i | n <= i < |applied| :: applied[i].before == Some(MarkOf(s, digest))
  }

  lemma NewRowsAppend(s0: State, rows: seq<Row>, row: Row)
    requires s0.rows <= rows
    ensures s0.rows <= rows + [row]
    ensures (rows + [row])[|s0.rows|..] == rows[|s0.rows|..] + [row]
  {
  }

  lemma ExecQuietRow(s0: State, s: State, row: Row, digest: string -> string)
    requires Grown(s0, s) && Explained(s0, s, digest)
    requires row.status != APPLIED
    ensures var s' := s.(rows := s.rows + [row]); Grown(s0, s') && Explained(s0, s', digest)
  {
    NewRowsAppend(s0, s.rows, row);
    AppliedRowsAppend(NewRows(s0, s), row);
  }

  lemma ExecPropose(s0: State, s: State, record: Json, digest: string -> string)
    requires Grown(s0, s) && Explained(s0, s, digest)
    ensures var s' := s.(proposals := s.proposals + [record]); Grown(s0, s') && Explained(s0, s', digest)
  {
    var applied := AppliedRows(NewRows(s0, s));
    var (v0, p0) := Latest(s0.files).value;
    ReplayAppend(p0, applied[..Effective(v0, |applied|)], s.proposals, record);
  }

  lemma AppliedGrown(s0: State, s: State, policy: Json, row: Row)
    requires Grown(s0, s)
    ensures Grown(s0, State(Saved(s.files, policy), s.proposals, s.rows + [row]))
  {
    SaveVisible(s.files, policy);
    forall name | name in s0.files && VersionOf(name).Some? ensures Saved(s.files, policy)[name] == s0.files[name] {
      SaveKeepsVersions(s.files, policy, name);
    }
    var name :| name in s.files && VersionOf(name).Some?;
    assert name in Saved(s.files, policy);
  }

  lemma {:induction false} OneMoreReplays(policy: Json, applied: seq<Row>, row: Row, proposals: seq<Json>)
    requires Replay(policy, applied, proposals).Ok?
    ensures Replay(policy, applied + [row], proposals) == Replay(Replay(policy, applied, proposals).value, [row], proposals)
  {
    assert (applied + [row])[..|applied|] == applied && [row][..0] == [];
  }

  lemma {:induction false} OneMoreLinks(start: Mark, applied: seq<Row>, middle: Mark, row: Row, end: Mark)
    requires Linked(start, applied, middle) && row.before == Some(middle) && row.after == Some(end)
    ensures Linked(start, applied + [row], end)
  {
    assert (applied + [row])[..|applied|] == applied;
  }

  // One more row that says APPLIED, and the policy it says.
  lemma AppliedExplained(s0: State, s: State, s': State, row: Row, digest: string -> string)
    requires Grown(s0, s) && Explained(s0, s, digest)
    requires Grown(s0, s') && s'.proposals == s.proposals && s'.rows == s.rows + [row]
    requires row.status == APPLIED && row.before == Some(MarkOf(s, digest))
    requires Replay(Latest(s.files).value.1, [row], s.proposals).Ok?
    requires var after := Replay(Latest(s.files).value.1, [row], s.proposals).value;
             var v := Latest(s.files).value.0;
             && row.after == Some(Mark(v + 1, Sha(digest, after)))
             && Latest(s'.files) == if v + 1 <= 9999 then Some((v + 1, after)) else Latest(s.files)
    requires Latest(s.files).value.0 <= 9999
    ensures Explained(s0, s', digest)
  {
    hide AppliedRows, Replay, Linked, LatestName, VersionOf;
    NewRowsAppend(s0, s.rows, row);
    var applied := AppliedRows(NewRows(s0, s));
    AppliedRowsAppend(NewRows(s0, s), row);
    var n := Effective(Latest(s0.files).value.0, |applied|);
    assert (applied + [row])[..n] == applied[..n] && (applied + [row])[..|applied| + 1] == applied + [row];
    if n == |applied| {
      assert applied[..n] == applied;
      OneMoreReplays(Latest(s0.files).value.1, applied, row, s.proposals);
      OneMoreLinks(MarkOf(s0, digest), applied, MarkOf(s, digest), row, row.after.value);
    }
  }

  // An application that changes the policy.
  lemma ExecApplied(s0: State, s: State, req: Request, plan: Plan, digest: string -> string)
    requires Grown(s0, s) && Explained(s0, s, digest)
    requires PlanOf(s, req, digest) == Ok(plan)
    requires Sha(digest, plan.after) != Sha(digest, plan.before)
    ensures var s' := Committed(s, req, plan, digest); Grown(s0, s') && Explained(s0, s', digest)
  {
    hide Explained, HasVersion, Saved, Effective;
    var row := CommittedRow(req, plan, digest);
    SaveVisible(s.files, plan.after);
    AppliedGrown(s0, s, plan.after, row);
    assert [row][..0] == [];
    AppliedExplained(s0, s, Committed(s, req, plan, digest), row, digest);
  }

  lemma ExecExplained(s0: State, s: State, cmd: Command, digest: string -> string)
    requires Grown(s0, s) && Explained(s0, s, digest) && Allowed(cmd)
    ensures Grown(s0, Exec(s, cmd, digest)) && Explained(s0, Exec(s, cmd, digest), digest)
  {
    match cmd
    case Approve(pid, reviewer, comment) =>
      if FindProposal(s.proposals, pid).Ok? {
        ExecQuietRow(s0, s, ApprovalRow(pid, reviewer, comment, FindProposal(s.proposals, pid).value), digest);
      }
    case Propose(record) => ExecPropose(s0, s, record, digest);
    case OtherRow(row) => ExecQuietRow(s0, s, row, digest);
    case ApplyPolicy(req) =>
      var p := PlanOf(s, req, digest);
      if p.Ok? {
        var plan := p.value;
        if Sha(digest, plan.after) == Sha(digest, plan.before) {
          ExecQuietRow(s0, s, CommittedRow(req, plan, digest), digest);
        } else {
          ExecApplied(s0, s, req, plan, digest);
        }
      }
  }

  // Replay explains the policy, over every run under any strategy: with k APPLIED rows written, the
  // version is the initial one plus k, folding apply_patch over the proposals those rows name gives
  // the latest policy, consecutive rows link version and hash, and no numbered file was rewritten.
  // That holds of the rows whose version numbers fit in four digits; later ones leave the policy as
  // it is.
  lemma {:induction false} ReplayExplains(s0: State, cmds: seq<Command>, digest: string -> string)
    requires Ready(s0) && AllAllowed(cmds)
    ensures Grown(s0, RunAll(s0, cmds, digest)) && Explained(s0, RunAll(s0, cmds, digest), digest)
  {
    if cmds == [] {
      assert NewRows(s0, s0) == [];
      LatestBound(s0.files);
    } else {
      var n := |cmds| - 1;
      ReplayExplains(s0, cmds[..n], digest);
      assert Allowed(cmds[n]);
      ExecExplained(s0, RunAll(s0, cmds[..n], digest), cmds[n], digest);
    }
  }
}
