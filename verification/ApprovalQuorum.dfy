// Where every applied row of the approvals log comes from: its quorum, its base hash, its effect.

module ApprovalQuorum {
  import opened Basics
  import opened JsonModel
  import opened Patch
  import opened PolicyStore
  import opened PolicyFiles
  import opened Approval
  import opened ApprovalRuns

  // Enough distinct reviewers approved the proposal in these rows; from two on, not the applier.
  ghost predicate Quorate(rows: seq<Row>, req: Request) {
    exists reviewers: set<string> ::
      && |reviewers| >= req.minApprovals
      && (req.minApprovals >= 2 ==> req.applier !in reviewers)
      && forall r | r in reviewers :: ApprovedBy(rows, req.pid, r)
  }

  ghost predicate ApprovedBy(rows: seq<Row>, pid: string, reviewer: string) {
    exists j | 0 <= j < |rows| ::
      && rows[j].status == PENDING && rows[j].decision == "approved"
      && rows[j].proposalId == Str(pid) && rows[j].reviewer == reviewer
  }

  lemma {:induction false} PlanIsQuorate(s: State, req: Request, digest: string -> string)
    requires PlanOf(s, req, digest).Ok?
    ensures Quorate(s.rows, req)
  {
    var reviewers := PendingApprovers(s.rows, req.pid);
    forall r | r in reviewers ensures ApprovedBy(s.rows, req.pid, r) {
      var row :| row in s.rows && IsPendingApproval(row, req.pid) && row.reviewer == r;
      var j :| 0 <= j < |s.rows| && s.rows[j] == row;
    }
  }

  // The row is what this request writes on this state, after all its checks passed.
  ghost predicate Origin(t: State, req: Request, rows: seq<Row>, row: Row, digest: string -> string) {
    && t.rows == rows
    && PlanOf(t, req, digest).Ok?
    && row == CommittedRow(req, PlanOf(t, req, digest).value, digest)
  }

  lemma {:induction false} ExecRows(s: State, cmd: Command, digest: string -> string)
    requires Allowed(cmd)
    ensures s.rows <= Exec(s, cmd, digest).rows
    ensures |Exec(s, cmd, digest).rows| <= |s.rows| + 1
    ensures var rows := Exec(s, cmd, digest).rows;
            |rows| == |s.rows| + 1 && SaysApplied(rows[|s.rows|]) ==>
              cmd.ApplyPolicy? && Origin(s, cmd.req, s.rows, rows[|s.rows|], digest)
  {
  }

  lemma {:induction false} LastStep(s0: State, cmds: seq<Command>, digest: string -> string)
    requires AllAllowed(cmds) && cmds != []
    ensures var t := RunAll(s0, cmds[..|cmds| - 1], digest);
            var rows := RunAll(s0, cmds, digest).rows;
            && t.rows <= rows && |rows| <= |t.rows| + 1
            && (|rows| == |t.rows| + 1 && SaysApplied(rows[|t.rows|]) ==>
                  && cmds[|cmds| - 1].ApplyPolicy?
                  && Origin(t, cmds[|cmds| - 1].req, t.rows, rows[|t.rows|], digest))
  {
    assert Allowed(cmds[|cmds| - 1]);
    ExecRows(RunAll(s0, cmds[..|cmds| - 1], digest), cmds[|cmds| - 1], digest);
  }

  ghost predicate OriginIn(s0: State, cmds: seq<Command>, digest: string -> string, rows: seq<Row>, i: nat, k: nat)
    requires i < |rows| && k < |cmds|
  {
    cmds[k].ApplyPolicy? && Origin(RunAll(s0, cmds[..k], digest), cmds[k].req, rows[..i], rows[i], digest)
  }

  lemma OriginKept(s0: State, cmds: seq<Command>, digest: string -> string, rows: seq<Row>, more: seq<Row>, i: nat, k: nat)
    requires cmds != [] && k < |cmds| - 1 && i < |rows| && rows <= more
    requires OriginIn(s0, cmds[..|cmds| - 1], digest, rows, i, k)
    ensures OriginIn(s0, cmds, digest, more, i, k)
  {
    hide Origin, RunAll;
    assert cmds[..|cmds| - 1][..k] == cmds[..k];
    assert rows[..i] == more[..i];
  }

  // A row that says a proposal was applied was written by an application whose checks all passed
  // on the log as it stood before that row.
  lemma {:induction false} AppliedRowOrigin(s0: State, cmds: seq<Command>, digest: string -> string, i: nat)
    returns (k: nat)
    requires AllAllowed(cmds)
    requires |s0.rows| <= i < |RunAll(s0, cmds, digest).rows|
    requires SaysApplied(RunAll(s0, cmds, digest).rows[i])
    ensures k < |cmds|
    ensures OriginIn(s0, cmds, digest, RunAll(s0, cmds, digest).rows, i, k)
  {
    LastStep(s0, cmds, digest);
    var front := cmds[..|cmds| - 1];
    var before, rows := RunAll(s0, front, digest).rows, RunAll(s0, cmds, digest).rows;
    if i < |before| {
      assert before[i] == rows[i];
      k := AppliedRowOrigin(s0, front, digest, i);
      OriginKept(s0, cmds, digest, before, rows, i, k);
    } else {
      k := |cmds| - 1;
      assert rows[..i] == before;
    }
  }

  // Quorum over every run: an APPLIED or APPLIED_NOOP row was written by one application, and with
  // its threshold m it is preceded by pending approvals of its proposal from at least m distinct
  // reviewers, the applier not among them when m >= 2; under "reject" its base hash, if the proposal
  // has one, is the hash of the policy before.
  lemma {:induction false} QuorumOverRuns(s0: State, cmds: seq<Command>, digest: string -> string, i: nat)
    requires AllAllowed(cmds)
    requires |s0.rows| <= i < |RunAll(s0, cmds, digest).rows|
    requires SaysApplied(RunAll(s0, cmds, digest).rows[i])
    ensures var rows := RunAll(s0, cmds, digest).rows;
            exists k: nat | k < |cmds| ::
              && OriginIn(s0, cmds, digest, rows, i, k)
              && rows[i].proposalId == Str(cmds[k].req.pid)
              && rows[i].reviewer == cmds[k].req.applier
              && Quorate(rows[..i], cmds[k].req)
              && (cmds[k].req.strategy == "reject" && Truthy(rows[i].target) ==> StartsAtBase(rows[i]))
  {
    var k := AppliedRowOrigin(s0, cmds, digest, i);
    PlanIsQuorate(RunAll(s0, cmds[..k], digest), cmds[k].req, digest);
  }

  // ----- strategy "reject" -----

  // The policy the row was applied to has the base hash of the proposal.
  ghost predicate StartsAtBase(row: Row) {
    row.before.Some? && Str(row.before.value.sha256) == row.target
  }

  // A row of a proposal with a base hash, written under "reject", was applied to a policy with that hash.
  lemma {:induction false} RejectMeansBase(s0: State, cmds: seq<Command>, digest: string -> string, i: nat, k: nat)
    requires i < |RunAll(s0, cmds, digest).rows| && k < |cmds|
    requires OriginIn(s0, cmds, digest, RunAll(s0, cmds, digest).rows, i, k)
    requires cmds[k].req.strategy == "reject" && Truthy(RunAll(s0, cmds, digest).rows[i].target)
    ensures StartsAtBase(RunAll(s0, cmds, digest).rows[i])
  {
  }

  // An APPLIED row changed the hash; an APPLIED_NOOP row did not.
  lemma {:induction false} AppliedChanges(s0: State, cmds: seq<Command>, digest: string -> string, i: nat)
    requires AllAllowed(cmds)
    requires |s0.rows| <= i < |RunAll(s0, cmds, digest).rows|
    requires SaysApplied(RunAll(s0, cmds, digest).rows[i])
    ensures var row := RunAll(s0, cmds, digest).rows[i];
            && row.before.Some? && row.after.Some?
            && (row.status == APPLIED <==> row.before.value.sha256 != row.after.value.sha256)
  {
    var k := AppliedRowOrigin(s0, cmds, digest, i);
  }

  ghost predicate AllChange(applied: seq<Row>) {
    forall i | 0 <= i < |applied| ::
      applied[i].before.Some? && applied[i].after.Some? && applied[i].before.value.sha256 != applied[i].after.value.sha256
  }

  lemma {:induction false} LinkedStep(start: Mark, applied: seq<Row>, end: Mark, k: nat)
    requires Linked(start, applied, end)
    requires 0 < k < |applied|
    ensures applied[k].before.Some? && applied[k].before == applied[k - 1].after
  {
    var n := |applied| - 1;
    if k < n {
      LinkedStep(start, applied[..n], applied[n].before.value, k);
    } else {
      assert applied[..n][n - 1] == applied[n - 1];
    }
  }

  // Between two applications to the same policy hash, some application led back to that hash: a
  // proposal tied to its base cannot apply again until the policy content returns to the base.
  lemma {:induction false} ReturnsToBase(start: Mark, applied: seq<Row>, end: Mark, i: nat, j: nat)
    requires Linked(start, applied, end) && AllChange(applied)
    requires i < j < |applied|
    requires applied[i].before.value.sha256 == applied[j].before.value.sha256
    ensures exists k | i < k < j :: applied[k].after.value.sha256 == applied[j].before.value.sha256
  {
    LinkedStep(start, applied, end, j);
    assert applied[j - 1].after.value.sha256 == applied[j].before.value.sha256;
    assert j - 1 != i;
  }

  lemma {:induction false} AppliedRowsFrom(rows: seq<Row>)
    ensures forall k | 0 <= k < |AppliedRows(rows)| ::
              AppliedRows(rows)[k] in rows && AppliedRows(rows)[k].status == APPLIED
  {
    if rows != [] { AppliedRowsFrom(rows[..|rows| - 1]); }
  }

  lemma AllAppliedChange(s0: State, cmds: seq<Command>, digest: string -> string)
    requires AllAllowed(cmds) && s0.rows <= RunAll(s0, cmds, digest).rows
    ensures AllChange(AppliedRows(NewRows(s0, RunAll(s0, cmds, digest))))
  {
    var rows := NewRows(s0, RunAll(s0, cmds, digest));
    var applied := AppliedRows(rows);
    AppliedRowsFrom(rows);
    forall k | 0 <= k < |applied|
      ensures applied[k].before.Some? && applied[k].after.Some?
      ensures applied[k].before.value.sha256 != applied[k].after.value.sha256
    {
      var m :| 0 <= m < |rows| && rows[m] == applied[k];
      AppliedChanges(s0, cmds, digest, |s0.rows| + m);
    }
  }

  // The same over runs: the APPLIED rows of a run, as long as the version numbers last.
  lemma {:induction false} SamePolicyNeedsReturn(s0: State, cmds: seq<Command>, digest: string -> string, i: nat, j: nat)
    requires Ready(s0) && AllAllowed(cmds)
    requires s0.rows <= RunAll(s0, cmds, digest).rows
    requires var applied := AppliedRows(NewRows(s0, RunAll(s0, cmds, digest)));
             Latest(s0.files).value.0 + |applied| <= 9999 && i < j < |applied|
    ensures var applied := AppliedRows(NewRows(s0, RunAll(s0, cmds, digest)));
            && AllChange(applied)
            && (applied[i].before.value.sha256 == applied[j].before.value.sha256 ==>
                  exists k | i < k < j :: applied[k].after.value.sha256 == applied[j].before.value.sha256)
  {
    var s := RunAll(s0, cmds, digest);
    var applied := AppliedRows(NewRows(s0, s));
    ReplayExplains(s0, cmds, digest);
    assert applied[..|applied|] == applied;
    AllAppliedChange(s0, cmds, digest);
    if applied[i].before.value.sha256 == applied[j].before.value.sha256 {
      ReturnsToBase(MarkOf(s0, digest), applied, MarkOf(s, digest), i, j);
    }
  }

  // The logs only grow.
  lemma {:induction false} LogsGrow(s0: State, cmds: seq<Command>, digest: string -> string, k: nat)
    requires k <= |cmds|
    ensures RunAll(s0, cmds[..k], digest).rows <= RunAll(s0, cmds, digest).rows
    ensures RunAll(s0, cmds[..k], digest).proposals <= RunAll(s0, cmds, digest).proposals
    decreases |cmds|
  {
    if k < |cmds| {
      var n := |cmds| - 1;
      LogsGrow(s0, cmds[..n], digest, k);
      assert cmds[..n][..k] == cmds[..k];
      StepGrows(RunAll(s0, cmds[..n], digest), cmds[n], digest);
    } else {
      assert cmds[..k] == cmds;
    }
  }

  lemma {:induction false} StepGrows(s: State, cmd: Command, digest: string -> string)
    ensures s.rows <= Exec(s, cmd, digest).rows && s.proposals <= Exec(s, cmd, digest).proposals
  {
    hide PlanOf, CommittedRow;
  }

  lemma {:induction false} FoundStays(proposals: seq<Json>, more: seq<Json>, pid: string)
    requires FindProposal(proposals, pid).Ok? && proposals <= more
    ensures FindProposal(more, pid) == FindProposal(proposals, pid)
  {
    if Get(proposals[0].fields, "proposal_id") != Str(pid) { FoundStays(proposals[1..], more[1..], pid); }
  }

  // A row written by application k stands where the log of the run before k ends.
  lemma {:induction false} OriginPlaces(s0: State, cmds: seq<Command>, digest: string -> string, i: nat, k: nat)
    requires i < |RunAll(s0, cmds, digest).rows| && k < |cmds|
    requires OriginIn(s0, cmds, digest, RunAll(s0, cmds, digest).rows, i, k)
    ensures var t, row := RunAll(s0, cmds[..k], digest), RunAll(s0, cmds, digest).rows[i];
            && cmds[k].ApplyPolicy? && |t.rows| == i && t.rows == RunAll(s0, cmds, digest).rows[..i]
            && row.proposalId == Str(cmds[k].req.pid)
            && FindProposal(t.proposals, cmds[k].req.pid).Ok?
            && row.target == BaseHash(FindProposal(t.proposals, cmds[k].req.pid).value)
            && Latest(t.files).Some?
            && row.before == Some(Mark(Latest(t.files).value.0, Sha(digest, Latest(t.files).value.1)))
  {
  }

  lemma {:induction false} LogsGrowTo(s0: State, cmds: seq<Command>, digest: string -> string, k: nat, l: nat)
    requires AllAllowed(cmds) && k <= l <= |cmds|
    ensures RunAll(s0, cmds[..k], digest).rows <= RunAll(s0, cmds[..l], digest).rows
    ensures RunAll(s0, cmds[..k], digest).proposals <= RunAll(s0, cmds[..l], digest).proposals
  {
    hide RunAll;
    LogsGrow(s0, cmds[..l], digest, k);
    assert cmds[..l][..k] == cmds[..k];
  }

  // Of two rows of the log the earlier one was written by an earlier application, on logs that the
  // later one saw as well.
  lemma {:induction false} EarlierOrigin(s0: State, cmds: seq<Command>, digest: string -> string, i: nat, j: nat, ki: nat, kj: nat)
    requires AllAllowed(cmds) && i < j < |RunAll(s0, cmds, digest).rows| && ki < |cmds| && kj < |cmds|
    requires OriginIn(s0, cmds, digest, RunAll(s0, cmds, digest).rows, i, ki)
    requires OriginIn(s0, cmds, digest, RunAll(s0, cmds, digest).rows, j, kj)
    ensures RunAll(s0, cmds[..ki], digest).proposals <= RunAll(s0, cmds[..kj], digest).proposals
  {
    hide *;
    OriginPlaces(s0, cmds, digest, i, ki);
    OriginPlaces(s0, cmds, digest, j, kj);
    if kj < ki {
      LogsGrowTo(s0, cmds, digest, kj, ki);
    } else {
      LogsGrowTo(s0, cmds, digest, ki, kj);
    }
  }

  // The base hash of a proposal is the same in all its rows.
  lemma {:induction false} SameTarget(s0: State, cmds: seq<Command>, digest: string -> string, i: nat, j: nat, ki: nat, kj: nat)
    requires AllAllowed(cmds) && i < j < |RunAll(s0, cmds, digest).rows| && ki < |cmds| && kj < |cmds|
    requires OriginIn(s0, cmds, digest, RunAll(s0, cmds, digest).rows, i, ki)
    requires OriginIn(s0, cmds, digest, RunAll(s0, cmds, digest).rows, j, kj)
    requires RunAll(s0, cmds, digest).rows[i].proposalId == RunAll(s0, cmds, digest).rows[j].proposalId
    ensures RunAll(s0, cmds, digest).rows[i].target == RunAll(s0, cmds, digest).rows[j].target
  {
    hide *;
    EarlierOrigin(s0, cmds, digest, i, j, ki, kj);
    OriginPlaces(s0, cmds, digest, i, ki);
    OriginPlaces(s0, cmds, digest, j, kj);
    FoundStays(RunAll(s0, cmds[..ki], digest).proposals, RunAll(s0, cmds[..kj], digest).proposals, cmds[ki].req.pid);
  }

  // Where a row of the log stands among the APPLIED rows, and back.
  lemma {:induction false} AppliedIndex(rows: seq<Row>, i: nat)
    requires i < |rows| && rows[i].status == APPLIED
    ensures var a := |AppliedRows(rows[..i])|; a < |AppliedRows(rows)| && AppliedRows(rows)[a] == rows[i]
  {
    var n := |rows| - 1;
    if i < n {
      AppliedIndex(rows[..n], i);
      assert rows[..n][..i] == rows[..i];
    }
  }

  lemma {:induction false} AppliedPlace(rows: seq<Row>, a: nat) returns (m: nat)
    requires a < |AppliedRows(rows)|
    ensures m < |rows| && rows[m].status == APPLIED && rows[m] == AppliedRows(rows)[a] && |AppliedRows(rows[..m])| == a
  {
    var n := |rows| - 1;
    if rows[n].status == APPLIED && a == |AppliedRows(rows)| - 1 {
      m := n;
    } else {
      m := AppliedPlace(rows[..n], a);
      assert rows[..n][..m] == rows[..m];
    }
  }

  lemma {:induction false} AppliedCount(rows: seq<Row>, m: nat, i: nat)
    requires m <= i <= |rows|
    ensures |AppliedRows(rows[..m])| <= |AppliedRows(rows[..i])|
    ensures m < i && rows[m].status == APPLIED ==> |AppliedRows(rows[..m])| < |AppliedRows(rows[..i])|
    decreases i
  {
    if m < i {
      assert rows[..i][..i - 1] == rows[..i - 1];
      AppliedCount(rows, m, i - 1);
    }
  }

  // Some row in between led the policy to the target.
  ghost predicate ReturnedBetween(rows: seq<Row>, i: nat, j: nat, target: Json) {
    exists m | i < m < j && m < |rows| ::
      rows[m].status == APPLIED && rows[m].after.Some? && Str(rows[m].after.value.sha256) == target
  }

  lemma {:induction false} LinkedEnds(start: Mark, applied: seq<Row>, end: Mark)
    requires Linked(start, applied, end) && applied != []
    ensures applied[|applied| - 1].after == Some(end)
  {
  }

  // From an APPLIED row that took effect on, the last row that did leads to the policy of the state.
  lemma {:induction false} LastLeadsHere(s0: State, t: State, digest: string -> string, i: nat) returns (m: nat)
    requires Grown(s0, t) && Explained(s0, t, digest)
    requires |s0.rows| <= i < |t.rows| && t.rows[i].status == APPLIED
    requires t.rows[i].before.Some? && t.rows[i].before.value.version < 9999
    ensures i <= m < |t.rows| && t.rows[m].status == APPLIED
    ensures t.rows[m].after == Some(MarkOf(t, digest))
  {
    hide AppliedRows, Replay, Linked, LatestName, OneFilePerVersion;
    var rows, i' := NewRows(s0, t), i - |s0.rows|;
    var applied := AppliedRows(rows);
    AppliedIndex(rows, i');
    var n := Effective(Latest(s0.files).value.0, |applied|);
    var a := |AppliedRows(rows[..i'])|;
    assert a < n;
    LinkedEnds(MarkOf(s0, digest), applied[..n], MarkOf(t, digest));
    assert applied[..n][n - 1] == applied[n - 1];
    var m' := AppliedPlace(rows, n - 1);
    if m' < i' { AppliedCount(rows, m', i'); }
    m := m' + |s0.rows|;
  }

  // A proposal tied to its base cannot be applied again until the policy has returned to the base: of
  // two APPLIED rows of it, both written under "reject", some APPLIED row in between ends in the base
  // hash, if the first one took effect.
  lemma {:induction false} ReapplicationNeedsReturn(s0: State, cmds: seq<Command>, digest: string -> string, i: nat, j: nat, ki: nat, kj: nat)
    requires Ready(s0) && AllAllowed(cmds) && ki < |cmds| && kj < |cmds|
    requires |s0.rows| <= i < j < |RunAll(s0, cmds, digest).rows|
    requires OriginIn(s0, cmds, digest, RunAll(s0, cmds, digest).rows, i, ki) && cmds[ki].req.strategy == "reject"
    requires OriginIn(s0, cmds, digest, RunAll(s0, cmds, digest).rows, j, kj) && cmds[kj].req.strategy == "reject"
    requires var rows := RunAll(s0, cmds, digest).rows; Again(rows[i], rows[j])
    ensures var rows := RunAll(s0, cmds, digest).rows; ReturnedBetween(rows, i, j, rows[j].target)
  {
    hide RunAll, OriginIn, Explained, AppliedRows, PlanOf;
    var rows, t := RunAll(s0, cmds, digest).rows, RunAll(s0, cmds[..kj], digest);
    SameTarget(s0, cmds, digest, i, j, ki, kj);
    RejectMeansBase(s0, cmds, digest, i, ki);
    RejectMeansBase(s0, cmds, digest, j, kj);
    AppliedChanges(s0, cmds, digest, i);
    OriginPlaces(s0, cmds, digest, j, kj);
    ReplayExplains(s0, cmds[..kj], digest);
    assert t.rows[i] == rows[i];
    var m := LastLeadsHere(s0, t, digest, i);
    assert t.rows[m] == rows[m];
  }

  // Two APPLIED rows of one proposal with a base hash, the first from a version that could grow.
  ghost predicate Again(first: Row, second: Row) {
    && first.status == APPLIED && second.status == APPLIED
    && first.proposalId == second.proposalId && Truthy(first.target)
    && first.before.Some? && first.before.value.version < 9999
  }

  ghost predicate OnlyReject(cmds: seq<Command>) {
    forall i | 0 <= i < |cmds| :: cmds[i].ApplyPolicy? ==> cmds[i].req.strategy == "reject"
  }

  // The same for runs in which every application uses "reject".
  lemma {:induction false} RejectRunsNeedReturn(s0: State, cmds: seq<Command>, digest: string -> string, i: nat, j: nat)
    requires Ready(s0) && AllAllowed(cmds) && OnlyReject(cmds)
    requires |s0.rows| <= i < j < |RunAll(s0, cmds, digest).rows|
    requires var rows := RunAll(s0, cmds, digest).rows; Again(rows[i], rows[j])
    ensures var rows := RunAll(s0, cmds, digest).rows; ReturnedBetween(rows, i, j, rows[j].target)
  {
    hide RunAll, AppliedRows;
    var ki := AppliedRowOrigin(s0, cmds, digest, i);
    var kj := AppliedRowOrigin(s0, cmds, digest, j);
    ReapplicationNeedsReturn(s0, cmds, digest, i, j, ki, kj);
  }

  // ----- the bound of the version numbers -----

  // An application that changes the hash takes effect exactly while the latest version is below
  // 9999; at 9999 it still writes an APPLIED row, for a version nobody will read.
  lemma {:induction false} AppliedTakesEffect(s: State, req: Request, digest: string -> string)
    requires Ready(s) && PlanOf(s, req, digest).Ok?
    requires Sha(digest, PlanOf(s, req, digest).value.after) != Sha(digest, PlanOf(s, req, digest).value.before)
    ensures var plan := PlanOf(s, req, digest).value;
            var s' := ApplyAfterApprovals(s, req, digest);
            && s'.rows[|s.rows|].status == APPLIED
            && (Latest(s'.files) == Some((plan.version + 1, plan.after)) <==> plan.version < 9999)
            && (plan.version == 9999 ==> Latest(s'.files) == Some((9999, plan.before)))
  {
    SaveVisible(s.files, PlanOf(s, req, digest).value.after);
  }

  lemma ApproversStay(rows: seq<Row>, row: Row, pid: string)
    requires row.status != PENDING
    ensures PendingApprovers(rows + [row], pid) == PendingApprovers(rows, pid)
  {
    forall r | r in rows ensures r in rows + [row] {}
  }

  // The guarantee ends with the version numbers: right after it was applied under "reject", a
  // proposal with a base hash can be applied once more if and only if the version was already 9999.
  lemma {:induction false} ReapplyAtOnce(s: State, req: Request, digest: string -> string)
    requires Ready(s) && PlanOf(s, req, digest).Ok? && req.strategy == "reject"
    requires Truthy(BaseHash(PlanOf(s, req, digest).value.proposal))
    requires Sha(digest, PlanOf(s, req, digest).value.after) != Sha(digest, PlanOf(s, req, digest).value.before)
    ensures PlanOf(ApplyAfterApprovals(s, req, digest), req, digest).Ok? <==> PlanOf(s, req, digest).value.version == 9999
  {
    hide LatestName, OneFilePerVersion, PendingApprovers, Apply;
    var plan := PlanOf(s, req, digest).value;
    SaveVisible(s.files, plan.after);
    ApproversStay(s.rows, CommittedRow(req, plan, digest), req.pid);
  }

  // ----- approvals are not used up -----

  lemma ApproversOfMore(rows: seq<Row>, more: seq<Row>, pid: string)
    requires rows <= more
    ensures PendingApprovers(rows, pid) <= PendingApprovers(more, pid)
  {
    forall row | row in rows ensures row in more {}
  }

  // Over every run, whatever rows others append, the approvers of a proposal only grow: no application
  // takes one away.
  lemma {:induction false} ApproversOnlyGrow(s0: State, cmds: seq<Command>, digest: string -> string, k: nat, pid: string)
    requires k <= |cmds|
    ensures PendingApprovers(RunAll(s0, cmds[..k], digest).rows, pid) <= PendingApprovers(RunAll(s0, cmds, digest).rows, pid)
  {
    hide RunAll, PendingApprovers;
    LogsGrow(s0, cmds, digest, k);
    ApproversOfMore(RunAll(s0, cmds[..k], digest).rows, RunAll(s0, cmds, digest).rows, pid);
  }

  lemma SizeOfMore<T>(a: set<T>, b: set<T>)
    requires a <= b
    ensures |a| <= |b|
  {
    assert b == a + (b - a);
  }

  // So a request whose approvals were enough once finds them enough ever after, before and after it was
  // applied, unless its applier has approved too in the meantime, where that matters.
  lemma {:induction false} QuorumStays(s0: State, cmds: seq<Command>, digest: string -> string, k: nat, req: Request)
    requires k <= |cmds| && EnoughApprovals(RunAll(s0, cmds[..k], digest).rows, req)
    ensures var rows := RunAll(s0, cmds, digest).rows;
            EnoughApprovals(rows, req) <==> !(req.minApprovals >= 2 && req.applier in PendingApprovers(rows, req.pid))
  {
    hide RunAll, PendingApprovers;
    ApproversOnlyGrow(s0, cmds, digest, k, req.pid);
    SizeOfMore(PendingApprovers(RunAll(s0, cmds[..k], digest).rows, req.pid), PendingApprovers(RunAll(s0, cmds, digest).rows, req.pid));
  }

  // ----- exactly when an application goes through -----

  lemma ApproverExact(rows: seq<Row>, pid: string, reviewer: string)
    ensures reviewer in PendingApprovers(rows, pid) <==> reviewer != "" && ApprovedBy(rows, pid, reviewer)
  {
    if reviewer in PendingApprovers(rows, pid) {
      var row :| row in rows && IsPendingApproval(row, pid) && row.reviewer == reviewer;
      var j :| 0 <= j < |rows| && rows[j] == row;
    }
    if reviewer != "" && ApprovedBy(rows, pid, reviewer) {
      var j :| 0 <= j < |rows| && rows[j].status == PENDING && rows[j].decision == "approved"
               && rows[j].proposalId == Str(pid) && rows[j].reviewer == reviewer;
      assert rows[j] in rows && IsPendingApproval(rows[j], pid);
    }
  }

  ghost predicate AllApproved(rows: seq<Row>, pid: string, reviewers: set<string>) {
    forall r | r in reviewers :: r != "" && ApprovedBy(rows, pid, r)
  }

  // So many distinct reviewers approved the proposal, and from two on the applier is none of them.
  ghost predicate QuorumReached(rows: seq<Row>, pid: string, applier: string, threshold: int) {
    && (exists reviewers :: AllApproved(rows, pid, reviewers) && |reviewers| >= threshold)
    && (threshold >= 2 && applier != "" ==> !ApprovedBy(rows, pid, applier))
  }

  lemma EnoughExact(rows: seq<Row>, req: Request)
    ensures EnoughApprovals(rows, req) <==> QuorumReached(rows, req.pid, req.applier, req.minApprovals)
  {
    hide ApprovedBy, PendingApprovers;
    var approvers := PendingApprovers(rows, req.pid);
    forall r ensures r in approvers <==> r != "" && ApprovedBy(rows, req.pid, r) { ApproverExact(rows, req.pid, r); }
    assert AllApproved(rows, req.pid, approvers);
    if QuorumReached(rows, req.pid, req.applier, req.minApprovals) {
      var reviewers :| AllApproved(rows, req.pid, reviewers) && |reviewers| >= req.minApprovals;
      SizeOfMore(reviewers, approvers);
    }
  }

  // The first record with the id, and none before it that is no object.
  ghost predicate FoundAt(proposals: seq<Json>, pid: string, i: int) {
    && 0 <= i < |proposals| && proposals[i].Obj? && Get(proposals[i].fields, "proposal_id") == Str(pid)
    && forall j | 0 <= j < i :: proposals[j].Obj? && Get(proposals[j].fields, "proposal_id") != Str(pid)
  }

  lemma {:induction false} FindProposalExact(proposals: seq<Json>, pid: string)
    ensures FindProposal(proposals, pid).Ok? <==> exists i :: FoundAt(proposals, pid, i)
    ensures forall i | FoundAt(proposals, pid, i) :: FindProposal(proposals, pid) == Ok(proposals[i].fields)
  {
    if proposals != [] && proposals[0].Obj? {
      FindProposalExact(proposals[1..], pid);
      if Get(proposals[0].fields, "proposal_id") == Str(pid) {
        assert FoundAt(proposals, pid, 0);
      } else {
        forall i | FoundAt(proposals, pid, i) ensures FoundAt(proposals[1..], pid, i - 1) {
          assert forall j | 0 <= j < i - 1 :: proposals[1..][j] == proposals[j + 1];
        }
        forall i | FoundAt(proposals[1..], pid, i) ensures FoundAt(proposals, pid, i + 1) {
          assert proposals[i + 1] == proposals[1..][i];
          assert forall j | 0 < j < i + 1 :: proposals[j] == proposals[1..][j - 1];
        }
      }
    }
  }

  // What the record at this place asks for can be done to the policy.
  ghost predicate CanApply(proposal: map<string, Json>, policy: Json, strategy: string, digest: string -> string) {
    var ops, base := Get(proposal, "patch_ops"), Get(proposal, "policy_target_sha256");
    && ops.Arr? && ops.items != [] && Apply(policy, ops.items).Ok?
    && (strategy != "reject" || !Truthy(base) || base == Str(digest(Print(policy))))
  }

  // The record at this place is the proposal, and what it asks for can be done to the latest policy.
  ghost predicate FitsLatest(s: State, req: Request, digest: string -> string, i: int) {
    FoundAt(s.proposals, req.pid, i) && Latest(s.files).Some?
    && CanApply(s.proposals[i].fields, Latest(s.files).value.1, req.strategy, digest)
  }

  // The plan is for that record and the latest policy.
  ghost predicate IsPlanFor(plan: Plan, s: State, i: int)
    requires 0 <= i < |s.proposals| && s.proposals[i].Obj? && Latest(s.files).Some? && Get(s.proposals[i].fields, "patch_ops").Arr?
  {
    var (version, policy) := Latest(s.files).value;
    && plan.proposal == s.proposals[i].fields && plan.version == version && plan.before == policy
    && Ok(plan.after) == Apply(policy, Get(s.proposals[i].fields, "patch_ops").items)
  }

  // An application goes through if and only if enough distinct reviewers approved the proposal, the
  // applier not among them from two on, and the proposal is found with operations that apply to the
  // latest policy, which is its base, if it has one, unless the strategy is not to reject.
  lemma {:induction false} PlanExact(s: State, req: Request, digest: string -> string)
    ensures PlanOf(s, req, digest).Ok? <==>
              QuorumReached(s.rows, req.pid, req.applier, req.minApprovals) && exists i :: FitsLatest(s, req, digest, i)
    ensures forall i | PlanOf(s, req, digest).Ok? && FitsLatest(s, req, digest, i) :: IsPlanFor(PlanOf(s, req, digest).value, s, i)
  {
    hide EnoughApprovals, QuorumReached, FindProposal, Apply, Latest, Print;
    EnoughExact(s.rows, req);
    FindProposalExact(s.proposals, req.pid);
    if PlanOf(s, req, digest).Ok? {
      var i :| FoundAt(s.proposals, req.pid, i);
      assert FitsLatest(s, req, digest, i);
    }
  }

  // approve_only makes its reviewer an approver of the proposal, and changes no other approval.
  lemma {:induction false} ApprovingCounts(s: State, pid: string, reviewer: string, comment: string, other: string)
    ensures var t := ApproveOnly(s, pid, reviewer, comment);
            var found := exists i :: FoundAt(s.proposals, pid, i);
            PendingApprovers(t.rows, other)
            == PendingApprovers(s.rows, other) + (if found && other == pid && reviewer != "" then {reviewer} else {})
  {
    FindProposalExact(s.proposals, pid);
    var t := ApproveOnly(s, pid, reviewer, comment);
    if FindProposal(s.proposals, pid).Ok? {
      var row := ApprovalRow(pid, reviewer, comment, FindProposal(s.proposals, pid).value);
      assert t.rows == s.rows + [row] && (IsPendingApproval(row, other) <==> other == pid && reviewer != "");
      forall r ensures r in t.rows <==> r in s.rows || r == row {}
    }
  }

  // The one row an application writes: who applied what, as an approval that is no longer pending, with
  // the versions and hashes of the policy before and after.
  ghost predicate Records(row: Row, req: Request, plan: Plan, digest: string -> string) {
    var was, now := digest(Print(plan.before)), digest(Print(plan.after));
    && row.proposalId == Str(req.pid) && row.decision == "approved" && row.reviewer == req.applier && row.comment == req.comment
    && row.target == Get(plan.proposal, "policy_target_sha256")
    && row.before == Some(Mark(plan.version, was))
    && (now != was ==> row.status == "APPLIED" && row.after == Some(Mark(plan.version + 1, now)))
    && (now == was ==> row.status == "APPLIED_NOOP" && row.after == row.before)
  }

  // An application that goes through writes that row and, if and only if the hash changes, the file of
  // the next version; it approves nothing, and nothing else changes.
  lemma ApplicationWrites(s: State, req: Request, digest: string -> string, other: string)
    requires PlanOf(s, req, digest).Ok?
    ensures var plan, t := PlanOf(s, req, digest).value, ApplyAfterApprovals(s, req, digest);
            && t.proposals == s.proposals && |t.rows| == |s.rows| + 1 && s.rows <= t.rows
            && Records(t.rows[|s.rows|], req, plan, digest)
            && t.files == (if digest(Print(plan.after)) != digest(Print(plan.before))
                           then s.files[FileName(plan.version + 1) := plan.after] else s.files)
            && PendingApprovers(t.rows, other) == PendingApprovers(s.rows, other)
  {
    hide HasVersion, EnoughApprovals, FindProposal, Apply, Print, PendingApprovers;
    var plan := PlanOf(s, req, digest).value;
    ApproversStay(s.rows, CommittedRow(req, plan, digest), other);
  }
}
