// infra/storage/approval_queue_repo.py and the queue readers: which words are statuses, what a record
// holds, and what an update changes in a view, key by key.

module QueueExact {
  import opened Basics
  import opened JsonModel
  import opened Text
  import opened QueueRecords
  import opened ApprovalQueue

  // ----- statuses -----

  ghost predicate Blank(s: string) {
    forall i | 0 <= i < |s| :: IsSpace(s[i])
  }

  lemma {:induction false} BlankBefore(s: string, i: nat)
    requires i < |s| - |StripLeft(s)|
    ensures IsSpace(s[i])
  {
    if i > 0 {
      assert s[1..][i - 1] == s[i];
      BlankBefore(s[1..], i - 1);
    }
  }

  lemma StripLeftParts(s: string) returns (left: string)
    ensures s == left + StripLeft(s) && Blank(left)
  {
    var n := |s| - |StripLeft(s)|;
    left := s[..n];
    forall i | 0 <= i < n ensures IsSpace(left[i]) { BlankBefore(s, i); }
  }

  lemma {:induction false} StripRightParts(s: string) returns (right: string)
    ensures s == StripRight(s) + right && Blank(right)
  {
    hide IsSpace;
    right := "";
    if s != [] && IsSpace(s[|s| - 1]) {
      var rest := StripRightParts(s[..|s| - 1]);
      right := rest + [s[|s| - 1]];
      assert s == s[..|s| - 1] + [s[|s| - 1]];
    }
  }

  lemma {:induction false} StripLeftBlank(l: string, s: string)
    requires Blank(l) && s != [] && !IsSpace(s[0])
    ensures StripLeft(l + s) == s
  {
    hide IsSpace;
    if l == [] {
      assert l + s == s;
    } else {
      assert (l + s)[1..] == l[1..] + s;
      StripLeftBlank(l[1..], s);
    }
  }

  lemma {:induction false} StripRightBlank(s: string, r: string)
    requires Blank(r) && s != [] && !IsSpace(s[|s| - 1])
    ensures StripRight(s + r) == s
  {
    hide IsSpace;
    if r == [] {
      assert s + r == s;
    } else {
      assert (s + r)[..|s + r| - 1] == s + r[..|r| - 1];
      StripRightBlank(s, r[..|r| - 1]);
    }
  }

  // White space around a text that neither starts nor ends with it.
  ghost predicate Around(s: string, left: string, core: string, right: string) {
    && s == left + core + right && Blank(left) && Blank(right)
    && core != [] && !IsSpace(core[0]) && !IsSpace(core[|core| - 1])
  }

  // Stripping leaves a text if and only if there is only white space around it.
  lemma StripExact(s: string, core: string)
    requires core != []
    ensures Strip(s) == core <==> exists left, right :: Around(s, left, core, right)
  {
    hide Around, Strip;
    if left, right :| Around(s, left, core, right) { AroundStrip(s, left, core, right); }
    if Strip(s) == core { var left, right := StripAround(s, core); }
  }

  lemma AroundStrip(s: string, left: string, core: string, right: string)
    requires Around(s, left, core, right)
    ensures Strip(s) == core
  {
    hide IsSpace, Blank, StripLeft, StripRight;
    assert s == left + (core + right) && (core + right)[0] == core[0];
    StripLeftBlank(left, core + right);
    StripRightBlank(core, right);
  }

  lemma StripAround(s: string, core: string) returns (left: string, right: string)
    requires core != [] && Strip(s) == core
    ensures Around(s, left, core, right)
  {
    var t := StripLeft(s);
    left := StripLeftParts(s);
    right := StripRightParts(t);
    assert t != [] && !IsSpace(t[0]) && !IsSpace(core[|core| - 1]) && core == StripRight(t);
    hide IsSpace, Blank, StripLeft, StripRight;
    ThreeParts(left, core, right, t, s);
  }

  lemma ThreeParts(left: string, core: string, right: string, t: string, s: string)
    requires core != [] && t == core + right && s == left + t
    ensures s == left + core + right && core[0] == t[0]
  {
  }

  // A character whose upper case is this capital letter.
  predicate Writes(c: char, capital: char) {
    || c == capital
    || ('a' <= c && c as int == capital as int + 32)
    || (c == '\U{131}' && capital == 'I')
    || (c == '\U{17F}' && capital == 'S')
  }

  ghost predicate WritesAll(s: string, word: string) {
    |s| == |word| && forall i | 0 <= i < |s| :: Writes(s[i], word[i])
  }

  lemma {:induction false} UpperExact(s: string, word: string)
    requires forall i | 0 <= i < |word| :: 'A' <= word[i] <= 'Z'
    ensures Upper(s) == word <==> WritesAll(s, word)
  {
    if s != [] && word != [] {
      UpperExact(s[1..], word[1..]);
      assert Upper(s) == [UpperChar(s[0])] + Upper(s[1..]);
      assert word == [word[0]] + word[1..];
      assert UpperChar(s[0]) == word[0] <==> Writes(s[0], word[0]);
      if WritesAll(s[1..], word[1..]) && Writes(s[0], word[0]) {
        forall i | 0 <= i < |s| ensures Writes(s[i], word[i]) { if i > 0 { assert Writes(s[1..][i - 1], word[1..][i - 1]); } }
      }
      if WritesAll(s, word) {
        forall i | 0 <= i < |s| - 1 ensures Writes(s[1..][i], word[1..][i]) { assert Writes(s[i + 1], word[i + 1]); }
      }
    }
  }

  const WORDS := ["PENDING", "APPROVED", "REJECTED"]

  // The text is the word in any case, with white space around it.
  ghost predicate Spells(status: string, word: string) {
    exists left, core, right :: Around(status, left, core, right) && WritesAll(core, word)
  }

  // An update is accepted if and only if its status spells one of the three words, and asks for that word.
  lemma {:induction false} StatusExact(status: string, word: string)
    ensures StatusWord(status) == Some(word) <==> word in WORDS && Spells(status, word)
  {
    if word in WORDS {
      hide Upper, Strip, Around, WritesAll, StatusWord, IsSpace, WORDS;
      UpperOfWord(status, word);
      if Spells(status, word) {
        var left, core, right :| Around(status, left, core, right) && WritesAll(core, word);
        AroundStrip(status, left, core, right);
      }
      if WritesAll(Strip(status), word) { var left, right := StripAround(status, Strip(status)); }
    }
  }

  lemma UpperOfWord(status: string, word: string)
    requires word in WORDS
    ensures StatusWord(status) == Some(word) <==> WritesAll(Strip(status), word)
    ensures WritesAll(Strip(status), word) ==> Strip(status) != []
  {
    hide Upper, Strip, StatusWord, WORDS;
    StatusByUpper(status, word);
    UpperExact(Strip(status), word);
  }

  lemma StatusByUpper(status: string, word: string)
    requires word in WORDS
    ensures StatusWord(status) == Some(word) <==> Upper(Strip(status)) == word
    ensures word != [] && forall i | 0 <= i < |word| :: 'A' <= word[i] <= 'Z'
  {
    hide Strip, Upper;
    Letters();
    assert word == "PENDING" || word == "APPROVED" || word == "REJECTED";
    hide WORDS;
  }

  lemma Letters()
    ensures forall i | 0 <= i < 7 :: 'A' <= "PENDING"[i] <= 'Z'
    ensures forall i | 0 <= i < 8 :: 'A' <= "APPROVED"[i] <= 'Z' && 'A' <= "REJECTED"[i] <= 'Z'
  {
  }

  // ----- what is appended -----

  // A new approval is pending and holds the whole proposal, and four of its keys again.
  lemma EnqueueHolds(id: string, ts: string, proposal: Record, key: string)
    ensures var r := EnqueueRecord(id, ts, proposal);
            && Get(r, "approval_id") == Str(id) && Get(r, "ts") == Str(ts) && Get(r, "status") == Str("PENDING")
            && Get(r, "record_type") == Str("APPROVAL_ENQUEUE_V1") && Get(r, "kind") == Str("POLICY_PATCH_PROPOSAL_REVIEW")
            && Get(r, "proposal") == Obj(proposal)
            && (key in ["proposal_id", "org_id", "site_id", "channel"] ==> Get(r, key) == Get(proposal, key))
  {
    EnqueueKeys();
  }

  lemma EnqueueKeys()
    ensures |"record_type"| == 11 && |"approval_id"| == 11 && "record_type"[0] == 'r' && "approval_id"[0] == 'a'
    ensures |"proposal_id"| == 11 && "proposal_id"[0] == 'p' && |"proposal"| == 8 && |"ts"| == 2 && |"kind"| == 4
    ensures |"status"| == 6 && "status"[1] == 't' && |"org_id"| == 6 && "org_id"[1] == 'r'
    ensures |"site_id"| == 7 && "site_id"[0] == 's' && |"channel"| == 7 && "channel"[0] == 'c'
  {
  }

  lemma UpdateHolds(id: string, ts: string, status: string, note: Json, who: string, role: string, metadata: Record)
    ensures var m, r := MarkRecord(id, ts, status, note), ReviewRecord(id, ts, status, note, who, role, metadata);
            && Get(m, "record_type") == Str("APPROVAL_UPDATE_V1") && Get(m, "approval_id") == Str(id)
            && Get(m, "ts") == Str(ts) && Get(m, "status") == Str(status) && Get(m, "note") == note
            && (forall k | k in m :: k in r && r[k] == m[k])
            && Get(r, "reviewer_id") == Str(who) && Get(r, "reviewer_role") == Str(role) && Get(r, "metadata") == Obj(metadata)
  {
    UpdateKeys();
  }

  lemma UpdateKeys()
    ensures |"record_type"| == 11 && |"approval_id"| == 11 && "record_type"[0] == 'r' && "approval_id"[0] == 'a'
    ensures |"ts"| == 2 && |"status"| == 6 && |"note"| == 4 && |"reviewer_id"| == 11 && |"reviewer_role"| == 13 && |"metadata"| == 8
    ensures "reviewer_id"[2] == 'v' && "record_type"[2] == 'c'
  {
  }

  // ----- what an update changes in a view -----

  // The key of an update that a key of a view shows, if it is not null there.
  function ShownFrom(reader: nat, key: string): Option<string> {
    if key == "status_note" then Some("note")
    else if reader >= 1 && (key == "reviewer_id" || key == "reviewer_role") then Some(key)
    else if reader >= 2 && key == "review_metadata" then Some("metadata")
    else None
  }

  // The three views, by how much they show: of the legacy bridge, of the proposal bridge, of the queue.
  function ViewOf(reader: nat): (Record, Record) -> Record {
    if reader == 0 then LegacyRules().view else if reader == 1 then BridgeRules().view else QueueRules().view
  }

  // What a key of the view is.
  ghost predicate ShowsAt(base: Record, upd: Record, view: Record, reader: nat, key: string) {
    if key == "status" then Get(view, key) == (if "status" in upd then upd["status"] else Get(base, key))
    else if key == "status_updated_ts" then Get(view, key) == Get(upd, "ts")
    else
      var from := ShownFrom(reader, key);
      Get(view, key) == (if from.Some? && Get(upd, from.value) != Null then Get(upd, from.value) else Get(base, key))
  }

  lemma CarryAt(view: Record, upd: Record, from: string, to: string, key: string)
    ensures Get(Carry(view, upd, from, to), key) == if key == to && Get(upd, from) != Null then Get(upd, from) else Get(view, key)
  {
  }

  lemma StatusAt(base: Record, upd: Record, key: string)
    ensures Get(WithStatus(base, upd), key)
            == if key == "status" then (if "status" in upd then upd["status"] else Get(base, key))
               else if key == "status_updated_ts" then Get(upd, "ts") else Get(base, key)
  {
    assert |"status"| == 6 && |"status_updated_ts"| == 17;
  }

  lemma KeysDiffer()
    ensures |"status"| == 6 && |"status_updated_ts"| == 17 && |"status_note"| == 11 && |"reviewer_id"| == 11
    ensures |"reviewer_role"| == 13 && |"review_metadata"| == 15 && "status_note"[0] == 's' && "reviewer_id"[0] == 'r'
  {
  }

  // Each view takes the status and its time from the update, shows the note, and from the proposal bridge
  // on the reviewer, and in the queue the metadata, where they are not null; every other key stays.
  lemma {:induction false} ViewExact(base: Record, upd: Record, reader: nat, key: string)
    requires reader <= 2
    ensures ShowsAt(base, upd, ViewOf(reader)(base, upd), reader, key)
  {
    hide WithStatus, Carry, Get;
    KeysDiffer();
    var a := WithStatus(base, upd);
    var b := LegacyView(base, upd);
    var c := Carry(b, upd, "reviewer_id", "reviewer_id");
    var d := BridgeView(base, upd);
    StatusAt(base, upd, key);
    CarryAt(a, upd, "note", "status_note", key);
    CarryAt(b, upd, "reviewer_id", "reviewer_id", key);
    CarryAt(c, upd, "reviewer_role", "reviewer_role", key);
    CarryAt(d, upd, "metadata", "review_metadata", key);
  }

  // ----- what the readers take a record for -----

  // The type of a record for the proposal bridge, which knows a second key for it.
  ghost predicate Typed(r: Record, word: string) {
    Get(r, "record_type") == Str(word) || (!Truthy(Get(r, "record_type")) && Get(r, "type") == Str(word))
  }

  // The queue and the legacy bridge go by record_type alone.
  lemma PlainRulesExact(r: Record, rules: Rules)
    requires rules == QueueRules() || rules == LegacyRules()
    ensures rules.id(r) == Get(r, "approval_id") && !rules.fallback(r)
    ensures rules.enqueue(r) <==> Get(r, "record_type") == Str("APPROVAL_ENQUEUE_V1")
    ensures rules.update(r) <==> Get(r, "record_type") == Str("APPROVAL_UPDATE_V1")
  {
    hide QueueView, LegacyView, Get;
  }

  // The proposal bridge knows a second key for the id and the type, one more type, and takes records
  // without a type by the keys they have.
  lemma BridgeRulesExact(r: Record)
    ensures var rules, id := BridgeRules(), Get(r, "approval_id");
            && rules.id(r) == (if Truthy(id) then id else Get(r, "id"))
            && (rules.enqueue(r) <==> Typed(r, "APPROVAL_ENQUEUE_V1") || ({"proposal", "kind"} <= r.Keys && Get(r, "status") == Str("PENDING")))
            && (rules.update(r) <==> Typed(r, "APPROVAL_UPDATE_V1") || Typed(r, "APPROVAL_DECISION_V1") || {"status", "ts", "approval_id"} <= r.Keys)
            && (rules.fallback(r) <==> {"proposal", "status"} <= r.Keys)
  {
    hide BridgeView, Get;
    assert |"APPROVAL_ENQUEUE_V1"| == 19 && |"APPROVAL_UPDATE_V1"| == 18 && |"APPROVAL_DECISION_V1"| == 20;
  }

  // ----- which records a reader takes -----

  predicate Opens(r: Record, k: Json, rules: Rules) {
    Truthy(k) && rules.id(r) == k && rules.enqueue(r)
  }

  predicate Updates(r: Record, k: Json, rules: Rules) {
    Truthy(k) && rules.id(r) == k && !rules.enqueue(r) && rules.update(r)
  }

  predicate Stands(r: Record, k: Json, rules: Rules) {
    Truthy(k) && rules.id(r) == k && !rules.enqueue(r) && !rules.update(r) && rules.fallback(r)
  }

  // The record an approval is read from: the last that enqueues it, or else the first that stands for one.
  ghost predicate IsBase(log: seq<Record>, k: Json, rules: Rules, i: nat) {
    && i < |log|
    && ((Opens(log[i], k, rules) && forall j | i < j < |log| :: !Opens(log[j], k, rules))
        || (Stands(log[i], k, rules) && (forall j | 0 <= j < |log| :: !Opens(log[j], k, rules))
            && forall j | 0 <= j < i :: !Stands(log[j], k, rules)))
  }

  ghost predicate IsLatest(log: seq<Record>, k: Json, rules: Rules, i: nat) {
    i < |log| && Updates(log[i], k, rules) && forall j | i < j < |log| :: !Updates(log[j], k, rules)
  }

  ghost predicate TableAt(log: seq<Record>, t: Tables, k: Json, rules: Rules) {
    && (k in t.base.at <==> exists i: nat :: IsBase(log, k, rules, i))
    && (forall i: nat | IsBase(log, k, rules, i) && k in t.base.at :: t.base.at[k] == log[i])
    && (k in t.updates <==> exists i: nat :: IsLatest(log, k, rules, i))
    && (forall i: nat | IsLatest(log, k, rules, i) && k in t.updates :: t.updates[k] == log[i])
  }

  lemma BaseStep(log: seq<Record>, r: Record, k: Json, rules: Rules, i: nat)
    requires !Opens(r, k, rules)
    ensures IsBase(log, k, rules, i) ==> IsBase(log + [r], k, rules, i)
    ensures IsBase(log + [r], k, rules, i) && i < |log| ==> IsBase(log, k, rules, i)
    ensures IsBase(log + [r], k, rules, |log|) <==> Stands(r, k, rules) && forall j: nat :: !IsBase(log, k, rules, j)
  {
    hide Opens, Stands;
    var all := log + [r];
    assert all[|log|] == r && forall j | 0 <= j < |log| :: all[j] == log[j];
    if IsBase(all, k, rules, |log|) {
      forall j: nat ensures !IsBase(log, k, rules, j) { if j < |log| { assert all[j] == log[j]; } }
    }
    if Stands(r, k, rules) && forall j: nat :: !IsBase(log, k, rules, j) { NothingStands(log, k, rules); }
  }

  // Where something enqueues or stands for an approval there is a base.
  lemma {:induction false} NothingStands(log: seq<Record>, k: Json, rules: Rules)
    requires forall j: nat :: !IsBase(log, k, rules, j)
    ensures forall j | 0 <= j < |log| :: !Opens(log[j], k, rules) && !Stands(log[j], k, rules)
  {
    hide Opens, Stands;
    if j :| 0 <= j < |log| && Opens(log[j], k, rules) {
      LastOpens(log, k, rules, j);
    } else if j :| 0 <= j < |log| && Stands(log[j], k, rules) {
      FirstStands(log, k, rules, j);
    }
  }

  lemma {:induction false} LastOpens(log: seq<Record>, k: Json, rules: Rules, j: nat)
    requires j < |log| && Opens(log[j], k, rules)
    ensures exists i: nat :: IsBase(log, k, rules, i)
    decreases |log| - j
  {
    hide Opens, Stands;
    if i :| j < i < |log| && Opens(log[i], k, rules) { LastOpens(log, k, rules, i); } else { assert IsBase(log, k, rules, j); }
  }

  lemma {:induction false} FirstStands(log: seq<Record>, k: Json, rules: Rules, j: nat)
    requires j < |log| && Stands(log[j], k, rules) && forall i | 0 <= i < |log| :: !Opens(log[i], k, rules)
    ensures exists i: nat :: IsBase(log, k, rules, i)
  {
    hide Opens, Stands;
    if i :| 0 <= i < j && Stands(log[i], k, rules) { FirstStands(log, k, rules, i); } else { assert IsBase(log, k, rules, j); }
  }

  lemma OpensBase(log: seq<Record>, r: Record, k: Json, rules: Rules, i: nat)
    requires Opens(r, k, rules)
    ensures IsBase(log + [r], k, rules, i) <==> i == |log|
  {
    hide Opens, Stands;
    assert (log + [r])[|log|] == r;
  }

  lemma LatestStep(log: seq<Record>, r: Record, k: Json, rules: Rules, i: nat)
    ensures Updates(r, k, rules) ==> (IsLatest(log + [r], k, rules, i) <==> i == |log|)
    ensures !Updates(r, k, rules) ==> (IsLatest(log + [r], k, rules, i) <==> IsLatest(log, k, rules, i))
  {
    hide Updates;
    var all := log + [r];
    assert all[|log|] == r && forall j | 0 <= j < |log| :: all[j] == log[j];
    if !Updates(r, k, rules) && IsLatest(log, k, rules, i) {
      assert forall j | i < j < |all| :: j < |log| || all[j] == r;
    }
    if !Updates(r, k, rules) && IsLatest(all, k, rules, i) {
      assert i < |log|;
      forall j | i < j < |log| ensures !Updates(log[j], k, rules) { assert all[j] == log[j]; }
    }
  }

  lemma ReadAt(t: Tables, r: Record, k: Json, rules: Rules)
    ensures var n := Read(t, r, rules);
            && (Opens(r, k, rules) ==> k in n.base.at && n.base.at[k] == r)
            && (!Opens(r, k, rules) && k in t.base.at ==> k in n.base.at && n.base.at[k] == t.base.at[k])
            && (!Opens(r, k, rules) && k !in t.base.at ==>
                  (k in n.base.at <==> Stands(r, k, rules)) && (Stands(r, k, rules) ==> n.base.at[k] == r))
            && (Updates(r, k, rules) ==> k in n.updates && n.updates[k] == r)
            && (!Updates(r, k, rules) ==> (k in n.updates <==> k in t.updates) && (k in t.updates ==> n.updates[k] == t.updates[k]))
  {
    hide Truthy;
    if rules.id(r) != k && k in t.base.at { assert k in Read(t, r, rules).base.at; }
  }

  // The table of approvals and the table of updates hold for each id exactly these records, whatever is in
  // the log.
  lemma {:induction false} TablesExact(log: seq<Record>, rules: Rules, k: Json)
    ensures TableAt(log, ReadAll(log, rules), k, rules)
  {
    hide Opens, Stands, Updates, IsBase, IsLatest, Read;
    if log == [] {
      NothingRead(k, rules);
    } else {
      var front, r := log[..|log| - 1], log[|log| - 1];
      assert log == front + [r];
      TablesExact(front, rules, k);
      var t := ReadAll(front, rules);
      ReadAt(t, r, k, rules);
      BaseTable(front, r, t, k, rules);
      UpdateTable(front, r, t, k, rules);
    }
  }

  lemma NothingRead(k: Json, rules: Rules)
    ensures TableAt([], ReadAll([], rules), k, rules)
  {
  }

  lemma Within(log: seq<Record>, k: Json, rules: Rules, i: nat)
    ensures IsBase(log, k, rules, i) || IsLatest(log, k, rules, i) ==> i < |log|
  {
  }

  lemma BaseTable(front: seq<Record>, r: Record, t: Tables, k: Json, rules: Rules)
    requires TableAt(front, t, k, rules)
    ensures var log, n := front + [r], Read(t, r, rules);
            && (k in n.base.at <==> exists i: nat :: IsBase(log, k, rules, i))
            && (forall i: nat | IsBase(log, k, rules, i) && k in n.base.at :: i < |log| && n.base.at[k] == log[i])
  {
    hide Opens, Stands, Updates, IsBase, IsLatest, Read;
    var log := front + [r];
    ReadAt(t, r, k, rules);
    forall i: nat ensures IsBase(log, k, rules, i) ==> i < |log| { Within(log, k, rules, i); }
    forall i: nat ensures IsBase(front, k, rules, i) ==> i < |front| { Within(front, k, rules, i); }
    if Opens(r, k, rules) {
      forall i: nat ensures IsBase(log, k, rules, i) <==> i == |front| { OpensBase(front, r, k, rules, i); }
      assert IsBase(log, k, rules, |front|);
    } else {
      forall i: nat
        ensures IsBase(front, k, rules, i) ==> IsBase(log, k, rules, i)
        ensures IsBase(log, k, rules, i) && i < |front| ==> IsBase(front, k, rules, i)
        ensures IsBase(log, k, rules, |front|) <==> Stands(r, k, rules) && forall j: nat :: !IsBase(front, k, rules, j)
      {
        BaseStep(front, r, k, rules, i);
      }
      if i: nat :| IsBase(front, k, rules, i) { assert IsBase(log, k, rules, i); }
      if i: nat :| IsBase(log, k, rules, i) && i < |front| { assert IsBase(front, k, rules, i); }
      if Stands(r, k, rules) && forall j: nat :: !IsBase(front, k, rules, j) { assert IsBase(log, k, rules, |front|); }
    }
  }

  lemma UpdateTable(front: seq<Record>, r: Record, t: Tables, k: Json, rules: Rules)
    requires TableAt(front, t, k, rules)
    ensures var log, n := front + [r], Read(t, r, rules);
            && (k in n.updates <==> exists i: nat :: IsLatest(log, k, rules, i))
            && (forall i: nat | IsLatest(log, k, rules, i) && k in n.updates :: i < |log| && n.updates[k] == log[i])
  {
    hide Opens, Stands, Updates, IsBase, IsLatest, Read;
    var log := front + [r];
    ReadAt(t, r, k, rules);
    forall i: nat ensures IsLatest(log, k, rules, i) ==> i < |log| { Within(log, k, rules, i); }
    forall i: nat ensures IsLatest(front, k, rules, i) ==> i < |front| { Within(front, k, rules, i); }
    forall i: nat
      ensures Updates(r, k, rules) ==> (IsLatest(log, k, rules, i) <==> i == |front|)
      ensures !Updates(r, k, rules) ==> (IsLatest(log, k, rules, i) <==> IsLatest(front, k, rules, i))
    {
      LatestStep(front, r, k, rules, i);
    }
    if Updates(r, k, rules) { assert IsLatest(log, k, rules, |front|); }
    if i: nat :| IsLatest(front, k, rules, i) && !Updates(r, k, rules) { assert IsLatest(log, k, rules, i); }
    if i: nat :| IsLatest(log, k, rules, i) && !Updates(r, k, rules) { assert IsLatest(front, k, rules, i); }
  }

  // So the merged approval is the view of its base under its latest update, or the base itself.
  lemma {:induction false} MergedExact(log: seq<Record>, rules: Rules, k: Json, i: nat)
    requires IsBase(log, k, rules, i)
    ensures var m := Merged(log, rules);
            && k in m.at
            && (forall j: nat | IsLatest(log, k, rules, j) && j < |log| && log[j] != map[] :: m.at[k] == rules.view(log[i], log[j]))
            && ((forall j: nat :: !IsLatest(log, k, rules, j)) ==> m.at[k] == log[i])
  {
    hide IsBase, IsLatest, ReadAll;
    Within(log, k, rules, i);
    TablesExact(log, rules, k);
  }
}
