# A verified model of the governance engine

The repository is a governance engine: policies are JSON documents that change only through approved
JSON patches, and everything that happens is written to append-only, hash-chained logs. This project
models its core in Dafny and proves what the core is for. Run `dafny verify dfyconfig.toml` to check it.

What is modelled, and what is proved about it:

* **JSON and its printed form** (`Json.dfy`, `Readable.dfy`, `JsonReader.dfy`, `Canonical.dfy`,
  `CanonicalForm.dfy`). Every hash is taken over the same printer: keys in code order, no spaces, minimal
  escapes. Printing is injective and undone by a reader of RFC 8259, so a hash without collisions determines
  the value; canonical JSON is equal for exactly the values with the same content, says what the value says,
  and refuses exactly the values it must refuse.
* **Pointers and patches** (`Pointer.dfy`, `Patch.dfy`, `PatchIndices.dfy`, `RfcPatch.dfy`,
  `PatchInverse.dfy`, `Allowlist.dfy`, `AllowlistLists.dfy`, `AllowlistExact.dfy`, `AllowlistShifts.dfy`).
  The interpreter is modelled as it runs: empty tokens are dropped, insert positions clamp, negative indices
  count from the end. It refines RFC 6902 with an exact account of where it is laxer. Escaped pointers read
  back; every accepted patch, negative and clamped indices included, has an inverse that restores the
  document; it is said exactly which operations, over all documents, change nothing outside the allowed
  prefixes.
* **Patches in place** (`PatchValues.dfy`, `PatchHeap.dfy`, `PatchSharing.dfy`, `PatchLoading.dfy`,
  `PatchRewrites.dfy`). The interpreter puts the value of an operation into the document uncopied and edits
  in place. Run on shared objects it gives the document that patching values gives, and it leaves in each
  operation the value that is followed from place to place; when that is the value it had is said exactly
  for all patches that change no value twice.
* **The policy pipeline** (`PolicyStore.dfy`, `Approval.dfy`, `ApprovalRuns.dfy`, `ApprovalQuorum.dfy`). A
  versioned store, the proposals log, the approvals log and the quorum rule as a state machine. It is said
  exactly when an application goes through and what it writes. Over every run each applied row had the
  quorum of the application that wrote it, and the applied rows replay to the latest policy, exactly as long
  as versions fit in four digits. A proposal tied to its base is not applied twice unless the policy
  returned to that base.
* **The approval queue and its bridges** (`ApprovalQueue.dfy`, `QueueExact.dfy`, `Listing.dfy`,
  `Bridges.dfy`, `BridgeSafety.dfy`, `BridgeExact.dfy`). Three readers of one event log tell the same
  statuses; what the bridges carry over are the approvals that were enqueued and approved, all of them, the
  proposal bridge's patches as its dry run leaves them; they can be rerun without writing twice, with the
  exact condition where the code falls short of that; a bridged proposal whose patch the dry run leaves
  alone fits the policy it was bridged at.
* **Hash chains** (`Hasher.dfy`, `EventIds.dfy`, `EventMaking.dfy`, `ChainWalk.dfy`, `ChainReport.dfy`,
  `Observe.dfy`, `Schemas.dfy`, `LogLines.dfy`, `StringLiterals.dfy`, `ObserveFiles.dfy`,
  `OverrideChain.dfy`, `OverrideOrder.dfy`, `OverrideFiles.dfy`). The verifiers accept exactly the chains
  that meet an independent description, event schemas included; a walk reports exactly what is wrong where;
  the last hash fixes the whole history, and runs of the writer keep the verifiers accepting, over rows
  always and over the text of the files under an exact condition.
* **Normalising and scanning** (`Sorting.dfy`, `LockReport.dfy`, `Scanner.dfy`). The lock-report digest is
  the same for exactly the reports that differ in nothing but volatile parts and order; the brace scanner
  cuts out exactly the first object.
* **Rate limiting** (`RateLimiter.dfy`). A pruned list of times decides as the full history would, as long
  as the clock does not go back behind a moment already pruned; without that exactly limits up to one hold.
* **Indicators** (`Indicators.dfy`, `Averages.dfy`, `Slope.dfy`), over exact reals. Two implementations of
  EMA and RSI compared, closed forms, bounds, symmetry, and the least-squares property of the slope.

`Basics.dfy` and `Text.dfy` hold the results, sequence facts and Python string operations the rest uses.

Conventions. A Python exception is `Err`, `None` or `false`; its message is not modelled. A log is a
sequence of records, a call is one atomic step, and times, random ids, Python's `str` and the digest are
parameters. Of a digest only its format is used, and, where a lemma says so, that it has no collision
among the finitely many texts that occur. Code that works by updating variables, lists, arrays or fields
is a method or a class here; its contract ties it to a specification function or predicate, and the
lemmas are about those.

Findings, where the code does less than one would expect of it, each with a proof:

* At policy version 9999 an applied patch is recorded as applied and saved under a name the store does not
  recognise (`ApprovalQuorum.AppliedTakesEffect`, `PolicyStore.SaveVisible`).
* The allowlist counts empty path segments and the interpreter drops them, so `/a//c` passes for the
  pattern `/a/*/c` and edits `/a/c` (`Allowlist.EmptySegmentEscapes`). Allowing one list position lets an
  insert shift all later ones (`AllowlistLists.ListInsertEscapes`). An operation keeps to the prefixes, over
  all documents, exactly when one of them covers the tokens that the interpreter reads, or the container
  they end in where it can insert into a list or remove from one (`AllowlistShifts.OperationExact`).
* An event shares its id with another exactly when one of its first five fields holds the unit separator, or
  a reference holds it and then its own name or that of the next reference, or the first reference holds a
  number and then its own name between separators (`EventIds.AmbiguousExact`).
* Chain files are written without escaping U+0085, U+2028 and U+2029 and read back with `splitlines`, so
  a log that holds one of them does not read back (`LogLines.LogReadsBack`). After a call of
  `observe_event` with such an event id, which the schema admits, every later call and both verifiers refuse
  the chain file; without one they never do (`ObserveFiles.EveryRunOverFiles`). The same holds of the
  override log and any text of an event, a reason say; and since appending checks neither ids nor
  references, the verifier may refuse what was appended for these too (`OverrideFiles.EveryRunOfAppends`).
* The proposal bridge writes the patch as its own dry run has left it. An approved patch that empties a list
  and refills it is kept because it changes the policy and written as one that does not; one that adds a
  dict and removes a key from it is written as one that the engine refuses
  (`BridgeToEngine.ApprovedChangeBecomesNoop`, `BridgeToEngine.ApprovedChangeIsRefused`). What is written is
  the approved patch exactly when no operation changes a value that an earlier one put in, as long as none
  is changed twice (`BridgeSafety.OnlyApprovedIsProposed`), and exactly then its artifact hash fits it
  (`BridgeToEngine.ArtifactHashExact`).
* The proposal bridge writes a proposal whose id is no string again on every run
  (`ProposalBridge.RerunExact`).
* The two RSIs disagree on a quiet series (`Rsi.FormsAgree`).
* With a clock that goes back, the rate limiter can let 2 * limit - 1 calls through at one moment
  (`RateLimiter.BackwardClockBreaksBound`): its bound holds for every clock exactly when the limit is at
  most one (`RateLimiter.AnyClockExact`).
* At version 9999 a proposal tied to its base can be applied again right away under strategy reject, and
  only there (`ApprovalQuorum.ReapplyAtOnce`).
* An approval is never used up: neither an application nor the CONSUMED row of the legacy bridge takes one
  from the quorum (`ApprovalQuorum.QuorumStays`, `LegacyBridge.ConsumingUsesNothing`).
* The override verifier looks neither at the order of a log nor at when an approval was given: there are
  accepted logs with an execution before its approval, in the log and in time
  (`OverrideOrder.ExecutionFirst`). The events of any accepted log, sealed again in any order, are an
  accepted log (`OverrideOrder.AnyOrderAccepted`); an order is sure exactly for logs of requests alone
  (`OverrideOrder.OrderSureExact`); the time of an execution is bounded by the end of the approval and
  nothing else (`OverrideOrder.ExecutionTimeExact`).

## Model

| member | source | states |
|---|---|---|
| JsonModel.SortedKeys | core/canonical_json.py:66-73 | the keys of a dict, all of them, each once, ascending; KeysInCodeOrder says in which order |
| JsonModel.KeysInCodeOrder | core/canonical_json.py:66-73 | of two keys the earlier is a proper prefix of the later, or has the smaller code where they first differ |
| JsonModel.AscendingUnique | core/canonical_json.py:66-73 | there is only one such order, so printing cannot depend on the order in which a dict was filled |
| JsonModel.IntTextInjective | core/canonical_json.py:66-73 | two integers with the same printed form are equal |
| JsonModel.QuoteReadable | core/canonical_json.py:66-73 | a printed string ends where its closing quote is, whatever follows, and determines the string |
| JsonReader.EscapeExact | core/canonical_json.py:66-73 | how a character is printed: by its two-character escape, if it has one and needs it, another control character in four small hex digits, any other as it is |
| Readable.ValueReadable | core/canonical_json.py:66-73 | a printed value in front of anything that may follow it is read back uniquely, and so is what follows |
| Readable.PrintInjective | core/policy_store/store.py:14-19 | two JSON values with the same printed form are the same value, dict order aside |
| JsonReader.PrintRoundTrip | core/policy_store/store.py:14-19 | a reader of RFC 8259 texts, written without the printer, reads from every printed value that value |
| JsonReader.ObjectLayout | core/canonical_json.py:66-73 | a dict is printed as its members, each once, in code order, key and value with a colon, between commas and braces |
| Canonical.Normalize | core/canonical_json.py:29-53 | the recursive normaliser, its dict branch filling a new dict, computes Norm or fails |
| Canonical.NormAccepts | core/canonical_json.py:38-53 | normalising succeeds exactly for values without floats, foreign types or non-string keys at any depth |
| Canonical.NormSame | core/canonical_json.py:29-53 | normal forms are equal exactly for values of the same content: dicts matched key by key in any order, a Decimal the same as its text |
| Canonical.CanonicalJsonExact | core/canonical_json.py:56-74 | equal canonical bytes if and only if the same content, for all accepted values |
| Canonical.CanonicalJsonFailsClosed | core/canonical_json.py:38-53 | canonical JSON exists exactly for the accepted values |
| CanonicalForm.NormExact | core/canonical_json.py:29-53 | normalising gives a JSON value if and only if that value says what the given one says: the same scalars, a Decimal as its text, item for item, key for key |
| CanonicalForm.CanonicalReads | core/canonical_json.py:56-74 | read as JSON, the canonical text of a value says what the value says |
| Canonical.ParseNoDuplicateKeys | core/canonical_json.py:12-18 | fails exactly when a key comes twice, and otherwise holds every pair and nothing else |
| Text.ParseIntDigits | core/B_learning/approval.py:65 | int() of a printed natural number is that number |
| Text.ParseNatExact | core/B_learning/approval.py:65 | int() reads exactly digits with single underscores between them, and these do not count |
| Text.SignExact | core/B_learning/approval.py:65 | a sign in front of a number makes it that number or its negative |
| Pointer.UnescapeEscape | core/B_learning/approval.py:44-45 | unescaping undoes escaping for every token, ones with ~, / and ~01 included |
| Pointer.UnescapeOrderMatters | core/B_learning/approval.py:45 | with the two replacements in the other order every token that starts with ~1 would come out wrong |
| Pointer.SplitJoinPointer | core/B_learning/approval.py:48-53 | splitting the joined escapes of any tokens returns the tokens without the empty ones |
| Pointer.PointerRoundTrip | core/B_learning/approval.py:48-53 | so splitting returns the tokens if and only if none is empty |
| Pointer.PathExact | core/B_learning/approval.py:48-53 | exactly the empty path and the paths that start with a slash are read |
| Patch.GetAt | core/B_learning/approval.py:71-78 | the loop over the tokens reaches what walking from the root reaches, or fails |
| Patch.ApplyPatch | core/B_learning/approval.py:89-134 | the loop over the operations computes Apply: all of them in order, or failure at the first that fails; what one operation does to a container is said by AddToList, ReachInList and EditAgrees |
| Patch.ApplyAppend | core/B_learning/approval.py:89-134 | applying two patches one after the other is applying their concatenation |
| PatchIndices.AddToList | core/B_learning/approval.py:108-114 | "add" on a list of any length: "-" appends; i inserts before item i, or appends from the length on; -k inserts before the k-th item from the end, or in front beyond it; no other token is accepted |
| PatchIndices.ReachInList | core/B_learning/approval.py:71-78 | a walk, "replace" and "remove" reach item i, and at -k the k-th item from the end, and fail on every other number, on "-" and on what is no number |
| PatchIndices.AddOperation | core/B_learning/approval.py:89-114 | the whole call on a list below a key, for every negative index |
| PatchInverse.DecodeExact | core/B_learning/approval.py:91-106 | a JSON value is accepted as an operation if and only if it holds what is written for that operation, among whatever else, and the path is not the root |
| RfcPatch.TokensAgree | core/B_learning/approval.py:48-53 | a pointer without empty tokens is split as RFC 6901 says |
| RfcPatch.ParentAgrees | core/B_learning/approval.py:108-132 | on one container the standard accepts an edit exactly when the code does and the index is standard, with the same result |
| RfcPatch.EditAgrees | core/B_learning/approval.py:56-134 | the same at any depth |
| RfcPatch.RunAgrees | core/B_learning/approval.py:89-134 | for pointers without empty tokens RFC 6902 accepts an operation if and only if the code does and every index is in range and in standard notation; both then give the same document |
| RfcPatch.ApplyRefinesRfc | core/B_learning/approval.py:89-134 | a patch of add, remove and replace without empty tokens, so none at the root, that RFC 6902 accepts is accepted by the code with the same result; what else the standard has, move, copy, test and the pointer to the whole document, the code refuses |
| PatchInverse.UndoParent | core/B_learning/approval.py:108-132 | every edit of a container, at any accepted index, is undone by its inverse edit |
| PatchInverse.InverseOpUndoes | core/B_learning/approval.py:89-134 | the inverse of an accepted operation is accepted on the changed document and restores it exactly |
| PatchInverse.PatchInvertible | core/B_learning/approval.py:89-134 | for every document and accepted patch, the reversed list of inverse operations restores the document |
| PatchInverse.ValueReadsBack | core/B_learning/approval.py:108-124 | after an add or replace the value stands where the operation put it |
| PatchValues.OutsideStays | core/B_learning/approval.py:100-132 | a value of the document that an edit does not reach into stands unchanged where its place has moved: items behind an insert or a removal shift |
| PatchValues.InsideChanges | core/B_learning/approval.py:100-132 | a value that an edit reaches into stays in its place, and is another one afterwards if and only if the document is |
| PatchValues.LeftAsItWas | core/B_learning/approval.py:89-134 | for patches that change no inserted value more than once: the run leaves the operations as they were, when it fails midway too, if and only if it changes none of the values it has put into the document |
| PatchHeap.EditDeep | core/B_learning/approval.py:56-68 | an edit of one object in place turns a document without shared parts into the edited document, again without shared parts, made of the old objects and those of the inserted value |
| PatchHeap.FollowsDeep | core/B_learning/approval.py:100-132 | every object of the document stands afterwards where its place has moved, or is out of the document, unchanged and with no object in common with it |
| PatchSharing.RunAgrees | core/B_learning/approval.py:89-134 | on shared objects a patch succeeds exactly when it does on values, and the document is the same |
| PatchSharing.ValuesHeld | core/B_learning/approval.py:101-132 | after a run on shared objects, failed ones included, the value of each operation is the one that AfterRun follows from place to place |
| PatchSharing.ApplyInPlace | core/B_learning/approval.py:89-134 | the loop over the operations, changing one object each time: success, document and operations as said |
| PatchLoading.CanBeLoaded | core/B_learning/approval.py:27-37 | every document and patch can be loaded into objects of which none is shared |
| PatchRewrites.RefillUndoesItself | core/B_learning/approval.py:89-134 | a patch that changes the document and that its own run turns into one that does not |
| PatchRewrites.StripSpoilsItself | core/B_learning/approval.py:89-134 | a patch accepted on every dict that its own run turns into one refused on every dict |
| PatchRewrites.TouchedTwiceMayReturn | core/B_learning/approval.py:89-134 | a value changed twice may be as before, so the exact condition ends there |
| Allowlist.IsAllowedPath | core/learning/proposals.py:188-211 | the nested loops answer whether some prefix matches segment by segment, * matching any |
| Allowlist.ValidateOps | core/learning/proposals.py:213-228 | accepts exactly the non-empty lists of well-formed operations on allowed paths |
| Allowlist.AllowedExact | core/learning/proposals.py:188-211 | on written paths: allowed if and only if the pieces start as those of a prefix do, "*" for any piece; never without the leading slash |
| Allowlist.ValidExact | core/learning/proposals.py:213-228 | what the interpreter accepts as an operation is valid exactly when its path is allowed; of other kinds those of RFC 6902 and no more |
| Allowlist.StepFrame | core/B_learning/approval.py:100-132 | one allowed operation changes no location unrelated to the allowed prefixes, and no shape a match depends on |
| Allowlist.AllowlistFrame | core/learning/proposals.py:213-228 | an accepted patch without empty segments that edits lists only by replace leaves every location that is neither under a match nor above one as it was |
| Allowlist.EmptySegmentEscapes | core/learning/proposals.py:195-210 | with an empty segment that fails, for any plain names |
| AllowlistLists.ListInsertEscapes | core/learning/proposals.py:213-228 | and with an insert into a list it fails too: an item turns up at a position no prefix covers |
| AllowlistExact.CoversRelates | core/learning/proposals.py:195-210 | what overlaps a location that a prefix covers, agreeing with it as far as both go and having only * beyond, is related to that prefix |
| AllowlistExact.AllowedIsCovered | core/learning/proposals.py:188-211 | an allowed path without empty segments is covered by an allowed prefix once the interpreter has split it |
| AllowlistExact.ContainerFrame | core/B_learning/approval.py:100-132 | any edit, of lists too, changes nothing at a location that does not overlap the container it edits |
| AllowlistExact.GuardedFrame | core/B_learning/approval.py:89-134 | a patch whose operations are each covered as it runs, tokens for edits outside lists and containers otherwise, leaves every unrelated location as it was |
| AllowlistExact.LeafEscapes | core/B_learning/approval.py:100-132 | for tokens no prefix covers there is a document with a leaf below them that is unrelated to every prefix and that the edit changes |
| AllowlistExact.FramedExact | core/B_learning/approval.py:100-132 | over all documents where it edits no list but by replacing an item, an edit stays within the prefixes if and only if one of them covers its tokens |
| AllowlistShifts.FramedAnywhereExact | core/B_learning/approval.py:100-132 | over all documents, lists included, an edit stays within the prefixes if and only if one covers its tokens, or their container where the edit is no replace and its last token can be a list position |
| AllowlistShifts.OperationExact | core/B_learning/approval.py:89-134 | the same for an operation as it stands in a patch, whatever document it is applied to |
| PolicyFiles.FileNameVersion | core/policy_store/store.py:71 | the name a version is saved under reads back as that version if and only if it is at most 9999 |
| PolicyFiles.FileNameShape | core/policy_store/store.py:71 | the name written out: the prefix, zeros up to four digits, the number, the suffix |
| PolicyFiles.VersionExact | core/policy_store/store.py:11 | a name is recognised as a version if and only if it ends in the name written for it, perhaps with a newline behind, and the version has four digits |
| PolicyFiles.VersionBound | core/policy_store/store.py:11 | a recognised file name has a version of at most 9999 |
| PolicyStore.LatestBound | core/policy_store/store.py:53-59 | the latest version is at most 9999 |
| PolicyStore.SaveVisible | core/policy_store/store.py:68-73 | a saved policy is the latest one exactly while the version before is below 9999; at 9999 the latest stays what it was |
| PolicyStore.SaveKeepsVersions | core/policy_store/store.py:68-73 | saving rewrites no file that had a recognised version |
| PolicyStore.Inserted | core/policy_store/store.py:50 | inserting into a sorted list keeps it sorted and adds just the item |
| PolicyStore.SortByVersion | core/policy_store/store.py:50 | the sorted list is ascending and a permutation of the listing |
| PolicyStore.Store.ListVersions | core/policy_store/store.py:42-51 | lists exactly the recognised files, ascending by version |
| PolicyStore.Store.GetLatest | core/policy_store/store.py:53-59 | returns a recognised file of the highest version with its policy and hash, the one there is unless two files share that version, or fails when there is none |
| PolicyStore.Store.SaveNewVersion | core/policy_store/store.py:68-73 | adds one file, for the latest version plus one, and changes nothing else, whatever the directory holds |
| Approval.FindProposalInLog | core/B_learning/approval.py:164-168 | the loop finds the first record with the id, or fails |
| Approval.Engine.Approve | core/B_learning/approval.py:195-213 | appends one pending row of a known proposal, or changes nothing |
| Approval.Engine.Approvers | core/B_learning/approval.py:227-233 | the set of reviewers with a pending approval of the proposal |
| Approval.Engine.Check | core/B_learning/approval.py:227-256 | fails or yields the plan, exactly as the checks of the specification do; with two files of the highest version, for one of them; PlanExact says when that is |
| Approval.Engine.Commit | core/B_learning/approval.py:298-401 | writes one row, and a new policy version unless the hash stays the same, whatever the directory holds |
| Approval.Engine.Apply | core/B_learning/approval.py:216-401 | one application as a whole: the new state, and no change when a check fails; with two files of the highest version, for one of them; PlanExact and ApplicationWrites say when and what |
| ApprovalRuns.FindProposalAppend | core/B_learning/approval.py:164-168 | appending to the proposals log changes no proposal that was found before |
| ApprovalRuns.ReplayExplains | core/B_learning/approval.py:195-401 | over every run, under any strategy: the version is the initial one plus the number of APPLIED rows, folding the patches they name from the initial policy gives the latest policy, their hashes and versions link, and no version was rewritten; beyond version 9999 that holds of the rows that still took effect, and later ones start from the same policy |
| ApprovalQuorum.AppliedRowOrigin | core/B_learning/approval.py:216-401 | every row that says applied was written by an application whose checks passed on the log before it |
| ApprovalQuorum.QuorumOverRuns | core/B_learning/approval.py:227-256 | the application that wrote an APPLIED or APPLIED_NOOP row, with its threshold m, found pending approvals of that proposal from m distinct reviewers before the row, the applier not among them when m >= 2, and under reject the base hash of the proposal was that of the policy before |
| ApprovalQuorum.RejectMeansBase | core/B_learning/approval.py:253-256 | a row of a proposal with a base hash, written under reject whatever others used, has that hash as its before-hash |
| ApprovalQuorum.AppliedChanges | core/B_learning/approval.py:298-348 | APPLIED rows, and only those, have different hashes before and after |
| ApprovalQuorum.ReturnsToBase | core/B_learning/approval.py:350-399 | between two applications to the same policy hash another application led back to it |
| ApprovalQuorum.SamePolicyNeedsReturn | core/B_learning/approval.py:350-399 | over every run two APPLIED rows with the same hash before have one between them that led back to it |
| ApprovalQuorum.ReapplicationNeedsReturn | core/B_learning/approval.py:216-401 | over every run: of two APPLIED rows of one proposal with a base hash, both written under reject, the first from a version below 9999, an APPLIED row between them led to that base hash |
| ApprovalQuorum.RejectRunsNeedReturn | core/B_learning/approval.py:216-401 | the same of any two APPLIED rows of a proposal in a run whose applications all use reject |
| ApprovalQuorum.ReapplyAtOnce | core/B_learning/approval.py:216-401 | right after a change under reject a proposal with a base hash can be applied again if and only if the version was 9999 |
| ApprovalQuorum.AppliedTakesEffect | core/B_learning/approval.py:350-399 | an application that changes the hash becomes the latest policy if and only if the version is below 9999 |
| ApprovalQuorum.ApproversOnlyGrow | core/B_learning/approval.py:227-233 | over every run, whatever rows others append, the approvers of a proposal only grow |
| ApprovalQuorum.QuorumStays | core/B_learning/approval.py:227-241 | so a request whose approvals were enough once finds them enough ever after, if and only if, where it matters, its applier has not approved too |
| ApprovalQuorum.PlanExact | core/B_learning/approval.py:216-401 | an application goes through if and only if enough distinct non-empty reviewers approved the proposal, the applier not among them from two on, there is a latest policy, the proposal is found with operations that apply to it, and the policy is its base, if it has one, or the strategy is not to reject; what is then applied is that proposal to that policy |
| ApprovalQuorum.ApplicationWrites | core/B_learning/approval.py:298-401 | what it writes: one row, field by field, the file of the next version if and only if the hash changes, and nothing that counts as an approval |
| ApprovalQuorum.ApprovingCounts | core/B_learning/approval.py:195-213 | approving makes the reviewer an approver of that proposal if it is found and the name not empty, and changes no other approval |
| ApprovalQuorum.FindProposalExact | core/B_learning/approval.py:164-168 | the proposal found is the first record with the id, if no record before it is no object |
| LockReport.ScrubDocument | tools/ci/build_lock_report.py:9-66 | the recursive walk computes Scrub |
| LockReport.ScrubDict | tools/ci/build_lock_report.py:11-40 | the loop keeps exactly the keys that are not volatile, each with its scrubbed value |
| LockReport.ScrubList | tools/ci/build_lock_report.py:42-54 | the items scrubbed, then sorted by printed form |
| LockReport.VolatileExact | tools/ci/build_lock_report.py:14-38 | which keys are dropped: those on the lists, in any case of letters, and those that end in id or path |
| LockReport.ScrubStringExact | tools/ci/build_lock_report.py:56-64 | which strings are replaced, and by what: a path below the temporary directory, one with it inside, occurrence by occurrence, and one below a home directory |
| LockReport.ListInCodeOrder | tools/ci/build_lock_report.py:42-54 | the items of a scrubbed list stand in the code order of their printed forms |
| LockReport.SettledStays | tools/ci/build_lock_report.py:9-66 | a report without volatile parts and with its lists in order is left as it is |
| LockReport.ByTextIsTotal | tools/ci/build_lock_report.py:46-51 | the printed form orders any two values and tells different ones apart |
| LockReport.ScrubSame | tools/ci/build_lock_report.py:9-66 | scrubbed forms are equal exactly for reports that are the same up to volatile keys, volatile text and list order |
| LockReport.DigestCanonical | tools/ci/build_lock_report.py:69-74 | the hashed texts are equal if and only if the reports are the same in that sense |
| Sorting.OrderUnique | tools/ci/build_lock_report.py:46-51 | two sorted lists of the same items are equal when the key tells items apart |
| Sorting.SortedForgetsOrder | tools/ci/build_lock_report.py:46-51 | sorting forgets the order of its input and nothing else |
| Scanner.ScanObject | tools/local/llm_generate_intent.py:108-135 | the loop with its depth, string and escape flags stops where the automaton stops, or nowhere |
| Scanner.ExtractJsonObject | tools/local/llm_generate_intent.py:88-138 | the whole text when it is an object, else the first brace-balanced candidate when that is, else failure |
| Scanner.ObjectCloses | tools/local/llm_generate_intent.py:111-127 | every JSON object text is read to its last brace and no further, whatever follows |
| Scanner.CandidateIsObject | tools/local/llm_generate_intent.py:102-128 | behind text without an opening brace, the candidate is exactly the object |
| Scanner.ExtractsTheObject | tools/local/llm_generate_intent.py:88-138 | and the call returns what that object parses to, unless the whole text parses as an object |
| Scanner.CutOffFails | tools/local/llm_generate_intent.py:104-138 | an object that is cut off anywhere, or no object, gives a failure unless the whole text parses as one |
| Scanner.WholeText | tools/local/llm_generate_intent.py:94-100 | a text that parses as an object gives that object |
| Hasher.JoinInjective | core/hasher.py:51-62 | fields without the separator are read back from the joined text, with their number |
| Hasher.ArtifactRefsFingerprint | core/hasher.py:23-33 | the loop joins the five locked references in their order, null as empty |
| Hasher.FingerprintWritten | core/hasher.py:23-33 | the fingerprint written out: each name with its value, nothing for null, in their order |
| Hasher.EventTextWritten | core/hasher.py:51-65 | the text hashed for an event id, field by field |
| Hasher.ChainTextWritten | core/hasher.py:79-80 | the text hashed for a chain hash, the previous one left out where there is none |
| Hasher.ChainTextReadable | core/hasher.py:68-80 | the text of a chain hash determines all its parts, and whether there was a previous hash |
| Hasher.PayloadHashReadable | core/hasher.py:16-20 | equal payload hashes without a collision mean equal normalised payloads |
| Hasher.EventTextReadable | core/hasher.py:36-65 | when no field of one event holds the separator, another event has the same text of its id if and only if all fields are equal, references up to null versus empty |
| Hasher.EventIdAmbiguous | core/hasher.py:51-65 | a separator in any of the first five fields makes a different event share the id |
| Hasher.EventIdExact | core/hasher.py:36-65 | for separator-free references and payload hash: another event, with any payload hash, shares the text if and only if one of the first five fields holds the separator |
| EventIds.OneReading | core/hasher.py:36-65 | an event with none of these separators shares its text with no event of another key, among those whose payload hash holds no separator |
| EventIds.AmbiguousExact | core/hasher.py:23-65 | for any event, references with separators included: another key shares the text if and only if one of the first five fields holds the separator, a reference holds it before its own name or the next one, or the first reference holds it before a number and its own name |
| ChainWalk.WalkAndVerify | core/chain_walker.py:9-68 | the loop with its four variables computes the findings of WalkAll; ReportExact says what it is |
| ChainWalk.WalkExact | core/chain_walker.py:24-66 | no failure is reported if and only if every event is valid, of one snapshot, contiguous when strict, linked by id, and hashed onto the last chain hash before it |
| ChainReport.ReportExact | core/chain_walker.py:9-68 | for every chain, failing ones included: a finding is in the report if and only if its condition holds at that position, successes exactly at the valid events with the snapshot of the first valid one, references being the last accepted event before and the number of those; each once, by position and in the order of the checks |
| EventMaking.ValidExact | core/validator.py:69-252 | an event is valid if and only if the hasher makes it from its content and the content is fit: type known with the keys it needs, texts with a visible character, times in order, a number from one on, a reference unless it is an audit event |
| EventMaking.MadeExact | core/validator.py:69-252 | so of the events a producer makes with the hasher those with fit content are valid and no others |
| ChainWalk.LastHashFixesHistory | core/chain_walker.py:53-64 | two failure-free chains that carry chain hashes and end in the same one have the same length, event ids and normalised payloads |
| ChainWalk.KnownLockIsSha | core/validator.py:14 | the schema hash the code pins has the format the argument needs |
| ChainWalk.KnownHistoryFixed | core/chain_walker.py:53-64 | so the last chain hash fixes the history under the constants of the code |
| Observe.VerifyExistingChain | tools/observe/observe_event.py:101-117 | accepts exactly the chains in which every row follows the one before |
| Observe.ChainedExact | tools/observe/observe_event.py:101-117 | such a chain, row by row: the hash of the row before, the hash of the schema, and the hash of the row without its own |
| Observe.VerifyAuditRow | tools/audit/verify_audit_chain.py:58-69 | the checks on one row amount to following the hash before |
| Observe.VerifyAuditChain | tools/audit/verify_audit_chain.py:40-79 | accepts exactly the same chains, with embedded events matching their hashes |
| ObserveSchema.EmbeddedExact | tools/audit/verify_audit_chain.py:71-77 | an embedded event passes exactly with its own hash beside it, a row without one always |
| Observe.NoForbiddenKeyExact | tools/observe/observe_event.py:90-98 | the check passes if and only if no path into the event leads to a forbidden key |
| Text.LowerExact | tools/observe/observe_event.py:93 | a text in lower case is an ASCII word exactly when it is that word in any case of letters |
| ObserveSchema.SchemaExact | tools/observe/observe_event.py:38-52 | the check of an event is what its JSON Schema says, read by an interpreter of the keywords it uses |
| ObserveSchema.KernelAdmits | tools/observe/observe_event.py:55-98 | the setup of the code: admitted are exactly the events that meet the schema and lead to no forbidden key; hashes are of printed forms, from 64 zeros on |
| ObserveSchema.DefaultsExact | tools/observe/observe_event.py:148-152 | key by key, what the call adds to an event |
| ObserveSchema.RowExact | tools/observe/observe_event.py:120-130 | key by key, what a new row holds, its own hash over all the rest |
| Observe.Observer.ObserveEvent | tools/observe/observe_event.py:133-183 | one line on each log and the hash of the new row, or an error and no change |
| Observe.ObservedKeeps | tools/observe/observe_event.py:133-183 | one call keeps the chain accepted and the logs paired |
| Observe.EveryRun | tools/observe/observe_event.py:133-183 | over every run from empty logs of rows, rejected calls included: both verifiers accept, the logs pair up row by row, and exactly the calls that pass their own checks are recorded; the files themselves are the matter of ObserveFiles.EveryRunOverFiles |
| Observe.TailFixesChain | tools/observe/observe_event.py:101-117 | two accepted chains with the same last hash are identical row for row |
| Observe.KernelSetupInherits | tools/observe/observe_event.py:55-65 | a digest without collisions on the printed texts has none on the values |
| LogLines.CutFile | tools/observe/observe_event.py:76 | a file of printed lines is cut into one line per entry plus one per separator character it holds |
| LogLines.SplitLinesExact | tools/observe/observe_event.py:76 | how a text is cut: at the first of the ten break characters or CR LF, one line before it; nothing behind the last |
| LogLines.LogReadsBack | tools/observe/observe_event.py:76-87 | a log reads back line by line if and only if no string or key in it holds U+0085, U+2028 or U+2029 |
| StringLiterals.ValueTidy | core/canonical_json.py:66-73 | in the printed form of any value every literal is closed, and every U+0085, U+2028 or U+2029 stands inside one |
| StringLiterals.TailOpen | core/canonical_json.py:66-73 | what stands behind such a character is refused as a text of its own: it ends inside a literal or has a backslash outside one |
| ObserveFiles.IterJsonl | tools/observe/observe_event.py:72-87 | the loop over the lines of a file yields the rows they hold, or fails when one line is no JSON object |
| ObserveFiles.ReadChainExact | tools/observe/observe_event.py:72-87 | a file reads back as these rows if and only if it has as many lines, none blank, and each line, stripped, parses to its row |
| ObserveFiles.AuditFile | tools/audit/verify_audit_chain.py:40-79 | accepts exactly the files that read back as chains with embedded events matching their hashes |
| ObserveFiles.FileObserver.ObserveEvent | tools/observe/observe_event.py:133-183 | adds one printed line to each file, or refuses and changes neither, when the event or the chain file as it reads back fails its checks |
| ObserveFiles.PlainChainReads | tools/observe/observe_event.py:72-87 | a file of rows without line separators reads back as these rows |
| ObserveFiles.BadChainUnread | tools/observe/observe_event.py:72-87 | a file whose last row holds U+0085, U+2028 or U+2029 does not read back: the first piece of the line ends inside a string |
| ObserveFiles.EveryRunOverFiles | tools/observe/observe_event.py:133-183 | over every run from empty files: they hold exactly the calls taken; both verifiers accept if and only if no call that passes its own checks has an event id with a line separator; then every such call is recorded, and otherwise the first such id is the last call taken |
| ObserveFiles.KernelIsPlain | tools/observe/observe_event.py:55-65 | the setup of the code meets what the run needs, for any digest that prints no line separators |
| OverrideSchema.Decode | tools/override/schema_override_event.py:178-223 | an event that meets the schema has a hash, and a previous hash or GENESIS, in the format of hashes, and they are the ones read |
| Shapes.DecodeExact | tools/override/schema_override_event.py:62-223 | an event is accepted if and only if it fits the table of shapes of its type and the common one, with the key auth present |
| Shapes.DecodeReads | tools/override/schema_override_event.py:62-223 | and it is read as its own id, author, time, type, references and end |
| OverrideChain.ReadEvents | tools/audit/verify_override_chain.py:66-101 | the first loop accepts exactly the logs of valid events linked from GENESIS by their own hashes |
| OverrideChain.IndexEvents | tools/audit/verify_override_chain.py:103-108 | succeeds exactly when the ids are distinct, and then finds each event under its id |
| OverrideChain.CheckRefs | tools/audit/verify_override_chain.py:110-152 | the checks on one event pass exactly when its references hold in the log |
| OverrideChain.CheckAllRefs | tools/audit/verify_override_chain.py:110-152 | the loop passes exactly when they hold for all events |
| OverrideChain.RefsExact | tools/audit/verify_override_chain.py:110-152 | where ids are distinct, the references of an event hold if and only if looking them up finds what they name: a request, by someone else for an approval or a rejection; an approval of that request that has not ended for an execution |
| OverrideChain.VerifyChain | tools/audit/verify_override_chain.py:46-158 | accepts exactly the sound logs, and reports their length, first and last hash |
| OverrideChain.ExecutedWasAuthorised | tools/audit/verify_override_chain.py:110-152 | every executed override of an accepted log has exactly one request and one approval of that request, by someone else, given before it expires, and was executed no later than that |
| OverrideChain.RefsIgnoreOrder | tools/audit/verify_override_chain.py:110-152 | the references do not depend on the order of the log |
| OverrideChain.TailFixesLog | tools/audit/verify_override_chain.py:79-98 | two accepted logs with the same last hash are the same log |
| OverrideChain.TailFixesOverrideLog | tools/override/schema_override_event.py:106-110 | the same for the schema as it is, whose checks give the formats the argument needs |
| OverrideOrder.ResealedSound | tools/audit/verify_override_chain.py:66-152 | valid events linked and hashed in the order given are accepted if and only if their ids are distinct and their references hold |
| OverrideOrder.AcceptedIsSealed | tools/audit/verify_override_chain.py:79-98 | linking and hashing the events of an accepted log again gives that log |
| OverrideOrder.OrderDoesNotMatter | tools/audit/verify_override_chain.py:66-152 | valid events are accepted in one order, once sealed in it, if and only if they are in any other |
| OverrideOrder.AnyOrderAccepted | tools/audit/verify_override_chain.py:66-152 | the events of an accepted log, sealed in any order, are an accepted log that says the same |
| OverrideOrder.OrderSureExact | tools/audit/verify_override_chain.py:103-152 | in every order an accepted log can be sealed in each event stands behind those it names, if and only if all events are requests |
| OverrideOrder.ExecutionTimeExact | tools/audit/verify_override_chain.py:130-152 | an execution set to any time and sealed again is accepted if and only if that time is not after the end of its approval: the times of the request and of the approval are not compared with it |
| OverrideOrder.ExecutionFirst | tools/audit/verify_override_chain.py:46-158 | for any digest that gives 64 hex digits there is an accepted log with an execution before its request and its approval, and with a time before them if one likes |
| OverrideFiles.VerifyFile | tools/audit/verify_override_chain.py:46-158 | accepts exactly the files whose lines that are not blank read back as a sound log |
| OverrideFiles.NonblankExact | tools/audit/verify_override_chain.py:50-62 | lines of white space do not count, all others do, each in its place |
| OverrideFiles.ReadLogExact | tools/audit/verify_override_chain.py:50-62 | a file reads back as a log if and only if each line that counts parses to the event in its place |
| OverrideFiles.OverrideLog.Append | tools/override/override_append.py:180-236 | appends the event sealed behind the last line that is not blank, or refuses and changes nothing |
| OverrideFiles.AppendedEvent | tools/override/override_append.py:180-220 | what is written for an event: its own keys, null for a missing signature, the previous hash, and the hash of that and of the printed event without its own |
| OverrideFiles.LastLineExact | tools/override/override_append.py:81-93 | the line an append follows is the last one that is not blank |
| OverrideFiles.PlainLogReads | tools/audit/verify_override_chain.py:50-62 | a log without line separators reads back as it was written |
| OverrideFiles.BadLogUnread | tools/override/override_append.py:81-93 | once the last event holds a line separator, the verifier cannot read the file and the next append cannot read its last line |
| OverrideFiles.EveryRunOfAppends | tools/override/override_append.py:180-236 | over every run of appends from an empty file: it holds exactly the events taken, sealed in order; the verifier accepts it if and only if no valid event holds a line separator, some event was taken, ids are distinct and references hold; an append is refused if and only if the event is invalid or an earlier valid one holds such a character |
| RateLimiter.Limiter.CheckAndRecord | core/learning_os/rate_limiter.py:21-31 | prunes, decides and records as Recorded and Allowed say |
| RateLimiter.ListAgrees | core/learning_os/rate_limiter.py:22-25 | the pruned list has as many times as the full history has accepted calls, from any cutoff above which nothing was pruned |
| RateLimiter.DecisionCounts | core/learning_os/rate_limiter.py:24-28 | as long as the clock does not go back behind a moment already pruned, a call is allowed if and only if fewer than limit accepted calls of the full history lie from a period before it on |
| RateLimiter.DecisionExact | core/learning_os/rate_limiter.py:24-28 | with a clock that does not go back, a call is allowed if and only if the closed interval ending now holds fewer than limit accepted calls of the full history |
| RateLimiter.WindowBound | core/learning_os/rate_limiter.py:21-31 | every closed interval of length period holds at most limit accepted calls, none when the limit is not positive, as long as the clock does not go back behind a moment already pruned |
| RateLimiter.OnePerWindow | core/learning_os/rate_limiter.py:21-31 | with a limit of at most one that holds for every clock |
| RateLimiter.BackwardClockBreaksBound | core/learning_os/rate_limiter.py:21-31 | with a clock that goes back, twice the limit less one are accepted at one moment, for every limit and period |
| RateLimiter.AnyClockExact | core/learning_os/rate_limiter.py:21-31 | so the bound holds for every sequence of calls if and only if the limit is at most one |
| RateLimiter.KeysAreIndependent | core/learning_os/rate_limiter.py:22 | what a key may do depends on the calls of that key alone |
| Emitter.EmitProposalIfAllowed | core/learning_os/proposal_emitter.py:21-64 | gate, validation, limiter and writer in that order, with the state after each outcome |
| Emitter.NoBudgetUsed | core/learning_os/proposal_emitter.py:41-56 | after every run the limiter stands as if gated and invalid proposals had never been submitted |
| Emitter.WrittenAreAccepted | core/learning_os/proposal_emitter.py:56-64 | in every interval the writer was called as often as the limiter accepted |
| Emitter.WriterBound | core/learning_os/proposal_emitter.py:56-64 | so the writer obeys the bound of the limiter over every run, as long as the clock of the requests that reach the limiter does not go back behind a moment already pruned |
| Emitter.WriterExact | core/learning_os/proposal_emitter.py:21-64 | with a clock that does not go back, a proposal is written if and only if it needs no human, is valid, and fewer than limit of its key were written in the period that ends now; it is the one line added |
| Emitter.OneWritten | core/learning_os/proposal_emitter.py:56-64 | with a limit of at most one it does for every clock |
| QueueRecords.QueueUnderstands | infra/storage/approval_queue_repo.py:194-223 | the queue reader recognises everything the queue writes and takes the status of an update |
| QueueRecords.LegacyUnderstands | jobs/bridge_queue_approvals_to_legacy.py:52-73 | so does the reader of the legacy bridge |
| QueueRecords.BridgeUnderstands | jobs/bridge_approved_auto_proposals.py:65-102 | so does the reader of the proposal bridge, with its fallbacks |
| QueueExact.StatusExact | infra/storage/approval_queue_repo.py:94-103 | a status is accepted if and only if it is one of the three words in any case with white space around it, and stands for that word |
| QueueExact.EnqueueHolds | infra/storage/approval_queue_repo.py:75-92 | what the record of a new approval holds |
| QueueExact.UpdateHolds | infra/storage/approval_queue_repo.py:94-156 | what the records of the two kinds of update hold |
| QueueExact.ViewExact | infra/storage/approval_queue_repo.py:205-225 | key by key, what an update changes in the view of each reader |
| QueueExact.PlainRulesExact | infra/storage/approval_queue_repo.py:191-202 | what the queue and the legacy bridge take a record for |
| QueueExact.BridgeRulesExact | jobs/bridge_approved_auto_proposals.py:65-83 | what the proposal bridge takes a record for, its second keys and its fallbacks included |
| QueueExact.TablesExact | jobs/bridge_approved_auto_proposals.py:65-87 | for every log, records of others included: each approval is read from the last record that enqueues it, or else the first that stands for one, and updated by the last update |
| QueueExact.MergedExact | jobs/bridge_approved_auto_proposals.py:89-103 | so the merged approval is the view of that record under that update, or the record itself |
| ApprovalQueue.ReadLog | infra/storage/approval_queue_repo.py:191-203 | the first loop collects enqueues and latest updates |
| ApprovalQueue.ViewAll | infra/storage/approval_queue_repo.py:205-225 | the second loop merges each enqueue with its latest update, keeping the order |
| ApprovalQueue.Merge | jobs/bridge_approved_auto_proposals.py:52-103 | both loops together, for any of the three readers |
| ApprovalQueue.FileBackedApprovalQueue.AddProposal | infra/storage/approval_queue_repo.py:75-92 | appends one enqueue record under the new id |
| ApprovalQueue.FileBackedApprovalQueue.MarkStatus | infra/storage/approval_queue_repo.py:94-113 | appends an update of any id, or fails on a status that is none of the three |
| ApprovalQueue.FileBackedApprovalQueue.UpdateStatus | infra/storage/approval_queue_repo.py:115-156 | appends an update of a known id; otherwise the log is unchanged |
| ApprovalQueue.FileBackedApprovalQueue.GetById | infra/storage/approval_queue_repo.py:227-232 | the merged view of a known id, or none |
| ApprovalQueue.FileBackedApprovalQueue.ListRecent | infra/storage/approval_queue_repo.py:234-253 | the listing of Recent |
| ApprovalQueue.MergersAgree | infra/storage/approval_queue_repo.py:181-225 | after every run with fresh ids all three readers list the same approvals in the same order with the same status: pending, or that of the last valid update |
| ApprovalQueue.UpdateNeedsEnqueue | infra/storage/approval_queue_repo.py:137-140 | an update leaves the log unchanged if and only if the approval was never enqueued or the status is invalid |
| ApprovalQueue.RecentIsNewest | infra/storage/approval_queue_repo.py:234-253 | the listing is newest first, as long as the limit allows, and with what it leaves out, none of it newer, makes up the matching approvals |
| Listing.RecentExact | infra/storage/approval_queue_repo.py:234-253 | the listing is the matching approvals by time in code order, latest first, ties as they were enqueued, as many as the limit allows, none for a limit below one |
| Listing.SelectedExact | jobs/bridge_approved_auto_proposals.py:206-213 | the same for what the bridges select, all of it when the limit is below one |
| LegacyBridge.AlreadyWritten | jobs/bridge_queue_approvals_to_legacy.py:81-100 | true exactly when some row of the log is a bridged one of the proposal and reviewer |
| LegacyBridge.Bridge.Run | jobs/bridge_queue_approvals_to_legacy.py:125-181 | the loop over the selected items appends what HandleAll says and reports what Reported says |
| LegacyBridge.RerunWritesNothing | jobs/bridge_queue_approvals_to_legacy.py:125-181 | running again on the unchanged queue with the same selection and reviewer writes and reports nothing |
| LegacyBridge.ReportedIsAppended | jobs/bridge_queue_approvals_to_legacy.py:156-181 | the receipt counts what was appended: one row each, two when consuming, none in a dry run |
| LegacyBridge.OnePendingRow | jobs/bridge_queue_approvals_to_legacy.py:156-181 | over any runs, and whatever others append in between, at most one pending bridged row per proposal and reviewer |
| LegacyBridge.ReviewersOnlyGrow | jobs/bridge_queue_approvals_to_legacy.py:156-181 | over any runs, whatever others append in between, the reviewers whose approval of a proposal counts only grow |
| LegacyBridge.ConsumingUsesNothing | jobs/bridge_queue_approvals_to_legacy.py:156-181 | a run that consumes leaves the same reviewers counting as one that does not |
| LegacyBridge.HandledCounts | jobs/bridge_queue_approvals_to_legacy.py:156-181 | an item not written before makes the reviewer an approver of its proposal and changes no other approval; consuming adds none |
| BridgeExact.WrittenExact | jobs/bridge_queue_approvals_to_legacy.py:81-100 | what counts as written before |
| BridgeExact.PendingHolds | jobs/bridge_queue_approvals_to_legacy.py:103-122 | the pending row, key by key |
| BridgeExact.ConsumedHolds | jobs/bridge_queue_approvals_to_legacy.py:182-190 | the consumed row, key by key |
| BridgeExact.ApprovedIsBridged | jobs/bridge_queue_approvals_to_legacy.py:136-181 | whatever the queue went through, after a run without a limit every proposal enqueued with the wanted status has its row, and the reviewer is an approver of it unless it had one before |
| ProposalBridge.Bridge.Run | jobs/bridge_approved_auto_proposals.py:185-270 | the loop over the selected items appends what HandleAll says, each record as its dry run leaves it, up to an exception |
| ProposalBridge.IdsStayDistinct | jobs/bridge_approved_auto_proposals.py:259-270 | over any runs that disallow duplicates no two proposals share a string id |
| ProposalBridge.FirstMatchIsOnly | core/B_learning/approval.py:164-168 | so the first match of find_proposal is the only one |
| ProposalBridge.RerunExact | jobs/bridge_approved_auto_proposals.py:106-108 | rerunning on the unchanged queue and policy writes nothing if and only if every proposal reached has a string id |
| BridgeExact.AppendedExact | jobs/bridge_approved_auto_proposals.py:259-270 | up to the first id that is a list or a dict a run appends the candidates in order, those with an id that is in the log as text or on an earlier candidate only where duplicates are allowed; a dry run appends nothing |
| BridgeExact.UsableOpsExact | jobs/bridge_approved_auto_proposals.py:111-120 | operations that are dicts with a kind and a path are kept, each in its place, the others dropped |
| BridgeExact.OperationsFrom | jobs/bridge_approved_auto_proposals.py:111-120 | they are taken from patch, if that is a list, and otherwise from patch_ops |
| BridgeExact.ConvertHolds | jobs/bridge_approved_auto_proposals.py:146-182 | the record a proposal is converted to, key by key |
| QueueProposals.LogHoldsProposals | infra/storage/approval_queue_repo.py:75-92 | after every run each approval still holds the proposal it was enqueued with |
| BridgeSafety.SelectedStands | jobs/bridge_approved_auto_proposals.py:206-213 | a selected item stands for an enqueued approval whose last valid status is the wanted one |
| BridgeSafety.OnlyApprovedIsBridged | jobs/bridge_queue_approvals_to_legacy.py:136-181 | after every run of the queue, each row the legacy bridge appends is for an enqueued proposal whose status is the wanted one, APPROVED unless asked otherwise |
| BridgeSafety.OnlyApprovedIsProposed | jobs/bridge_approved_auto_proposals.py:206-270 | each proposal the other bridge appends is the conversion of such a proposal as the dry run leaves it, and no no-op unless those are allowed; as long as no inserted value is changed twice, it is the conversion itself if and only if none is changed |
| BridgeToEngine.CandidateExact | jobs/bridge_approved_auto_proposals.py:222-257 | an item is dropped before the check for duplicates if and only if its proposal is no dict, or no-ops are not wanted and its usable operations are accepted on the latest policy and give it back; what is kept has an id, its own if it has one, the hash of that policy as its base, and the usable operations as the dry run leaves them, with the condition under which that is as they were |
| BridgeToEngine.BridgedDecides | core/B_learning/approval.py:216-401 | a bridged proposal with its approvals, applied to the policy it was bridged at, is never refused for its base: the operations as they were left decide |
| BridgeToEngine.BridgedApplies | core/B_learning/approval.py:216-401 | if no operation changes a value that an earlier one put in, the approved patch itself decides, and it is written as a new policy, never as a no-op, unless the bridge was told to keep those |
| BridgeToEngine.ApprovedChangeBecomesNoop | jobs/bridge_approved_auto_proposals.py:222-267 | without that condition an approved patch that changes the policy, and is kept for it, is applied as a no-op: it empties a list of two equal items and appends one |
| BridgeToEngine.ApprovedChangeIsRefused | jobs/bridge_approved_auto_proposals.py:222-267 | and one that is accepted is refused by the engine: it adds a dict and removes a key from it |
| BridgeToEngine.ArtifactHashExact | jobs/bridge_approved_auto_proposals.py:146-182 | the artifact hash is taken before the dry run, and is taken over the text of the written record if and only if the run left the record as it was |
| Ema.Series | sdk/ta/indicators.py:14-33 | the array loop writes nothing before the first full window and the recursion's value from there on |
| Ema.Scalar | sentinel_domain/features/indicators.py:7-14 | the loop folds the values behind the seed, or there is no value |
| Ema.ScalarIsLast | sentinel_domain/features/indicators.py:7-14 | the fold gives the last value of the series form |
| Ema.EmaBetween | sdk/ta/indicators.py:25-33 | every value lies between any bounds of the prices before it |
| Ema.EmaLagsLines | sdk/ta/indicators.py:24-31 | on prices along a line every value trails by exactly (period - 1) / 2 steps, which ties the seed to the weight 2 / (period + 1) |
| Averages.EmaClosedForm | sdk/ta/indicators.py:24-31 | every value in closed form: the seed and each later price with its weight |
| Rsi.Series | sdk/ta/indicators.py:36-83 | the array loop writes the smoothed averages' value from position period on; AveragesClosedForm and RsiIsShare say which that is |
| Rsi.Scalar | sentinel_domain/features/indicators.py:17-41 | the loop computes the last smoothed averages and their value; the same as in the series form |
| Rsi.RsiBetween | sdk/ta/indicators.py:59-81 | the index lies between 0 and 100 |
| Rsi.AveragesBetween | sdk/ta/indicators.py:56-73 | the smoothed averages lie between the smallest and the largest rise, or fall, so far |
| Rsi.AveragesZero | sdk/ta/indicators.py:56-73 | both averages are zero if and only if no price moved within their reach |
| Averages.AveragesClosedForm | sdk/ta/indicators.py:56-73 | both averages in closed form: the seed times ((n - 1) / n) to the steps since, plus each later rise, or fall, over n times the same power |
| Averages.RsiIsShare | sdk/ta/indicators.py:59-81 | the index is the share of the average rise in the sum of both averages |
| Rsi.FormsAgree | sentinel_domain/features/indicators.py:38-41 | the two forms agree if and only if some price moved; otherwise they say 50 and 100 |
| Rsi.NegatedMirrors | sdk/ta/indicators.py:36-83 | negating the series gives 100 minus the index |
| Vwap.Series | sdk/ta/indicators.py:86-120 | the loop writes turnover over volume so far for traded rows, nothing for others, and fails exactly on a negative volume |
| Vwap.VwapBetween | sdk/ta/indicators.py:86-120 | the average lies between the lowest low and the highest high of the rows traded so far |
| Averages.VwapIsWeighted | sdk/ta/indicators.py:86-120 | the average is that of the typical prices weighted by volume |
| Slope.Trend | sdk/ta/indicators.py:145-169 | the loop computes the slope of the last window present values, and fails exactly when the window is below 2 or too few values are present |
| Slope.PresentExact | sdk/ta/indicators.py:151 | a missing value does not count, any other keeps its place |
| Slope.OnlyLastCount | sdk/ta/indicators.py:154 | of the values that are there only the last ones count, whatever stands before them |
| Slope.DenominatorPositive | sdk/ta/indicators.py:167-168 | the check for a zero denominator never fires |
| Slope.ErrorAboveBest | sdk/ta/indicators.py:155-169 | how much larger the squared error of any line is than that of the line with this slope through the means |
| Slope.LeastSquares | sdk/ta/indicators.py:155-169 | no line has a smaller squared error, and no other line has the same |
| Slope.ExactOnLines | sdk/ta/indicators.py:155-169 | values on a line give back its slope and intercept exactly |

## Left out

Not modelled, with the reason:

- Files, fsync, crashes between saving a policy and appending its row, concurrent processes: a log is a
  sequence and a call is one step. Line splitting is modelled for chain files and the override log only
  (`LogLines.dfy`, `ObserveFiles.dfy`, `OverrideFiles.dfy`), where a missing file counts as an empty one; the
  audit tools refuse a missing one.
- Clocks, random ids and the parsing of timestamps: parameters.
- SHA-256 and UTF-8: the digest is a parameter on texts; absence of collisions is assumed only on the
  finite set of texts that a lemma names. Lone surrogates, which JSON escapes can name and UTF-8 refuses, are
  no characters of the model.
- Rounding, infinities and NaN in the indicators and the limiter: exact reals. Floats inside JSON are kept
  as the text the printer gives them; non-numeric prices, which raise, are excluded by type.
- Arguments of another type than their annotation says, where the code checks that.
- Error messages, receipts written to disk and the channel put into them, printed reports.
- Receipts of the approval engine, which can hold operations as its own run left them; replay uses the
  proposals log.
- Python's equality of 1, 1.0 and True, and booleans where the code accepts any int (sequence numbers,
  ids in dicts): JSON values are compared as values.
- Digits and letters outside ASCII in `int()`, `lower()` and `upper()`: exact only where the result is
  compared with ASCII text, as the code does.
- Directory listings with two files for one version number: the methods of the store and of the approval
  engine cover them, up to which of two latest files is taken; SaveVisible and the theorems about runs are
  about directories without them.
- ids of approvals that are lists or dicts, on which the queue readers raise; other tools never write them.
- ChainWalk.WalkAndVerify: a chain_hash that is no string counts as a malformed event, which the code
  reports later, as a mismatch, when it verifies chain hashes.
- ProposalBridge.Bridge.Run: the evidence block and Python's str are parameters.
- LegacyBridge.Bridge.Run: one reading of the clock per run.
- OverrideSchema.Decode: raising TypeError on a list where a word is expected counts as a refusal.
- Ed25519 signatures, network fetchers, web and UI code, argparse mains, git and CI gates, schemas of the
  web API: no algorithmic content of their own.
- DPA lifecycle, executor contract checks, idempotency guard, queue router and consumer, macro gate, scene
  aggregation, obv and the candle proxies: their invariants follow from single branches.
- Writers and verifiers that do not hash the same text (tools/observer/append_observer_event.py with
  tools/gates/lock3_observer_gate.py, auralis_v1/core/audit_chain.py with auralis_v1/core/audit_verify.py):
  no round trip holds between them.
