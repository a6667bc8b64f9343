// infra/storage/approval_queue_repo.py and the two bridges: exactly which items a listing holds, and in
// which order.

module Listing {
  import opened Basics
  import opened JsonModel
  import opened Text
  import opened Sorting
  import opened QueueRecords
  import opened ApprovalQueue
  import opened Selection

  // ----- positions -----

  function ItemAt(items: seq<Record>, i: nat): Record {
    if i < |items| then items[i] else map[]
  }

  function Pick(items: seq<Record>, at: seq<nat>): (r: seq<Record>)
    ensures |r| == |at| && forall k | 0 <= k < |at| :: r[k] == ItemAt(items, at[k])
  {
    seq(|at|, k requires 0 <= k < |at| => ItemAt(items, at[k]))
  }

  // The positions of the wanted items, ascending.
  function Places(items: seq<Record>, wanted: Record -> bool): (at: seq<nat>)
    ensures forall i: nat :: i in at <==> i < |items| && wanted(items[i])
    ensures forall k, l | 0 <= k < l < |at| :: at[k] < at[l]
  {
    if items == [] then [] else
    var n := |items| - 1;
    var front := Places(items[..n], wanted);
    assert forall k | 0 <= k < |front| :: front[k] in front;
    front + (if wanted(items[n]) then [n] else [])
  }

  lemma {:induction false} FilterPicks(items: seq<Record>, wanted: Record -> bool)
    ensures Filter(items, wanted) == Pick(items, Places(items, wanted))
  {
    if items != [] {
      var n := |items| - 1;
      FilterPicks(items[..n], wanted);
      var front := Places(items[..n], wanted);
      hide Filter;
      assert Filter(items, wanted) == Filter(items[..n], wanted) + (if wanted(items[n]) then [items[n]] else []) by { FilterStep(items, wanted); }
      SamePick(items[..n], items, front);
    }
  }

  lemma FilterStep(items: seq<Record>, wanted: Record -> bool)
    requires items != []
    ensures var n := |items| - 1; Filter(items, wanted) == Filter(items[..n], wanted) + (if wanted(items[n]) then [items[n]] else [])
  {
  }

  lemma SamePick(some: seq<Record>, items: seq<Record>, at: seq<nat>)
    requires some <= items && forall i: nat | i in at :: i < |some|
    ensures Pick(some, at) == Pick(items, at)
  {
    forall k | 0 <= k < |at| ensures ItemAt(some, at[k]) == ItemAt(items, at[k]) { assert at[k] in at; }
  }

  // ----- sorting keeps ties in their order -----

  function ByItem(items: seq<Record>, leq: (Record, Record) -> bool): (nat, nat) -> bool {
    (i: nat, j: nat) => leq(ItemAt(items, i), ItemAt(items, j))
  }

  // In order, and ties by position.
  ghost predicate Stable(leq: (nat, nat) -> bool, at: seq<nat>) {
    forall k, l | 0 <= k < l < |at| :: leq(at[k], at[l]) && (leq(at[l], at[k]) ==> at[k] < at[l])
  }

  lemma StableAppend(leq: (nat, nat) -> bool, at: seq<nat>, x: nat)
    requires Stable(leq, at) && forall y | y in at :: leq(y, x) && (leq(x, y) ==> y < x)
    ensures Stable(leq, at + [x])
  {
    assert forall k | 0 <= k < |at| :: at[k] in at;
  }

  lemma {:induction false} InsertStable(leq: (nat, nat) -> bool, at: seq<nat>, x: nat)
    requires Preorder(leq) && Stable(leq, at) && forall y | y in at :: y < x
    ensures Stable(leq, Insert(leq, at, x))
    ensures forall y :: y in Insert(leq, at, x) <==> y in at || y == x
    ensures |Insert(leq, at, x)| == |at| + 1
  {
    var n := |at| - 1;
    if at != [] && !leq(at[n], x) {
      var front := at[..n];
      assert forall y | y in front :: y in at;
      assert at == front + [at[n]];
      InsertStable(leq, front, x);
      LastStable(leq, at);
      assert leq(x, at[n]);
      hide Insert;
      StableAppend(leq, Insert(leq, front, x), at[n]);
    } else {
      LastStable(leq, at);
      StableAppend(leq, at, x);
    }
  }

  lemma LastStable(leq: (nat, nat) -> bool, at: seq<nat>)
    requires Preorder(leq) && Stable(leq, at)
    ensures at != [] ==> var n := |at| - 1;
              && Stable(leq, at[..n]) && (forall y | y in at :: leq(y, at[n]))
              && forall y | y in at[..n] :: leq(at[n], y) ==> y < at[n]
  {
    if at != [] {
      var n := |at| - 1;
      forall y | y in at ensures leq(y, at[n]) { var k :| 0 <= k <= n && at[k] == y; }
      forall y | y in at[..n] ensures leq(at[n], y) ==> y < at[n] { var k :| 0 <= k < n && at[..n][k] == y; }
    }
  }

  lemma {:induction false} SortedStable(leq: (nat, nat) -> bool, at: seq<nat>)
    requires Preorder(leq) && forall k, l | 0 <= k < l < |at| :: at[k] < at[l]
    ensures Stable(leq, Sorted(leq, at)) && |Sorted(leq, at)| == |at|
    ensures forall y :: y in Sorted(leq, at) <==> y in at
  {
    if at != [] {
      var n := |at| - 1;
      SortedStable(leq, at[..n]);
      assert at == at[..n] + [at[n]];
      InsertStable(leq, Sorted(leq, at[..n]), at[n]);
    }
  }

  lemma {:induction false} InsertPicks(items: seq<Record>, leq: (Record, Record) -> bool, at: seq<nat>, x: nat)
    ensures Insert(leq, Pick(items, at), ItemAt(items, x)) == Pick(items, Insert(ByItem(items, leq), at, x))
  {
    if at != [] {
      var n := |at| - 1;
      InsertPicks(items, leq, at[..n], x);
      assert Pick(items, at)[..n] == Pick(items, at[..n]);
    }
  }

  lemma {:induction false} SortPicks(items: seq<Record>, leq: (Record, Record) -> bool, at: seq<nat>)
    ensures Sorted(leq, Pick(items, at)) == Pick(items, Sorted(ByItem(items, leq), at))
  {
    if at != [] {
      var n := |at| - 1;
      SortPicks(items, leq, at[..n]);
      assert Pick(items, at)[..n] == Pick(items, at[..n]);
      InsertPicks(items, leq, Sorted(ByItem(items, leq), at[..n]), at[n]);
    }
  }

  // ----- the listings -----

  // str(item.get("ts") or "")
  function TimeOf(text: Json -> string): Record -> string {
    (r: Record) => text(Or(Get(r, "ts"), Str("")))
  }

  // All positions of wanted items, each once: later times first, ties in the order of the items.
  ghost predicate Ranking(items: seq<Record>, wanted: Record -> bool, time: Record -> string, at: seq<nat>) {
    && Distinct(at) && (forall i: nat :: i in at <==> i < |items| && wanted(items[i]))
    && forall k, l | 0 <= k < l < |at| ::
         var p, q := time(ItemAt(items, at[k])), time(ItemAt(items, at[l]));
         CodeBefore(q, p) || (p == q && at[k] < at[l])
  }

  lemma {:induction false} SortedIsRanking(items: seq<Record>, wanted: Record -> bool, text: Json -> string) returns (at: seq<nat>)
    ensures Ranking(items, wanted, TimeOf(text), at)
    ensures Sorted(Newer(text), Filter(items, wanted)) == Pick(items, at)
  {
    var leq := ByItem(items, Newer(text));
    var places := Places(items, wanted);
    FilterPicks(items, wanted);
    SortPicks(items, Newer(text), places);
    ByItemPreorder(items, text);
    SortedStable(leq, places);
    at := Sorted(leq, places);
    forall k, l | 0 <= k < l < |at|
      ensures at[k] != at[l]
      ensures var p, q := Stamp(ItemAt(items, at[k]), text), Stamp(ItemAt(items, at[l]), text);
              CodeBefore(q, p) || (p == q && at[k] < at[l])
    {
      var p, q := Stamp(ItemAt(items, at[k]), text), Stamp(ItemAt(items, at[l]), text);
      assert leq(at[k], at[l]) && (leq(at[l], at[k]) ==> at[k] < at[l]);
      LessTotal(p, q);
      LessExact(q, p);
    }
  }

  lemma ByItemPreorder(items: seq<Record>, text: Json -> string)
    ensures Preorder(ByItem(items, Newer(text)))
  {
    NewerIsPreorder(text);
    var leq := ByItem(items, Newer(text));
    forall a, b ensures leq(a, b) || leq(b, a) { assert Newer(text)(ItemAt(items, a), ItemAt(items, b)) || Newer(text)(ItemAt(items, b), ItemAt(items, a)); }
    forall a, b, c | leq(a, b) && leq(b, c) ensures leq(a, c) {
      assert Newer(text)(ItemAt(items, a), ItemAt(items, b)) && Newer(text)(ItemAt(items, b), ItemAt(items, c));
    }
  }

  // The first so many of the ranking, all of them without a limit.
  ghost predicate FirstOf(items: seq<Record>, wanted: Record -> bool, text: Json -> string, count: Option<nat>, got: seq<Record>) {
    exists at :: Ranking(items, wanted, TimeOf(text), at)
                 && got == Pick(items, if count.Some? && count.value < |at| then at[..count.value] else at)
  }

  lemma PickFront(items: seq<Record>, at: seq<nat>, n: nat)
    requires n <= |at|
    ensures Pick(items, at[..n]) == Pick(items, at)[..n]
  {
  }

  lemma {:induction false} KeepAll(items: seq<Record>, wanted: Record -> bool)
    requires forall r :: wanted(r)
    ensures Filter(items, wanted) == items
  {
    if items != [] {
      KeepAll(items[..|items| - 1], wanted);
      assert items == items[..|items| - 1] + [items[|items| - 1]];
    }
  }

  function MatchesStatus(status: string, text: Json -> string): Record -> bool {
    (r: Record) => status == "" || Upper(if "status" in r then text(r["status"]) else "") == Upper(Strip(status))
  }

  // list_recent: of the approvals with the status, or of all, those with the latest times, as many as
  // the limit allows, latest first and ties as they were enqueued.
  lemma {:induction false} RecentExact(merged: Dict, limit: int, status: string, text: Json -> string)
    ensures limit <= 0 ==> Recent(merged, limit, status, text) == []
    ensures limit > 0 ==> FirstOf(Values(merged), MatchesStatus(status, text), text, Some(limit), Recent(merged, limit, status, text))
  {
    hide Upper, Strip, Sorted, Filter, Newer;
    if limit > 0 {
      var items, wanted := Values(merged), MatchesStatus(status, text);
      var at := SortedIsRanking(items, wanted, text);
      if status == "" { KeepAll(items, wanted); } else { SameMatching(items, status, text); }
      if limit < |at| { PickFront(items, at, limit); }
    }
  }

  lemma {:induction false} FilterSame(items: seq<Record>, f: Record -> bool, g: Record -> bool)
    requires forall r :: f(r) == g(r)
    ensures Filter(items, f) == Filter(items, g)
  {
    if items != [] { FilterSame(items[..|items| - 1], f, g); }
  }

  lemma SameMatching(items: seq<Record>, status: string, text: Json -> string)
    requires status != ""
    ensures Matching(items, status, text) == Filter(items, MatchesStatus(status, text))
  {
    hide Upper, Strip;
    FilterSame(items, (r: Record) => Upper(if "status" in r then text(r["status"]) else "") == Upper(Strip(status)), MatchesStatus(status, text));
  }

  function HasStatus(status: string, text: Json -> string): Record -> bool {
    (r: Record) => Upper(text(Or(Get(r, "status"), Str("")))) == Upper(if status == "" then "APPROVED" else status)
  }

  // What the bridges select: the same with their own status, and everything when the limit is not
  // positive.
  lemma {:induction false} SelectedExact(merged: Dict, status: string, limit: int, text: Json -> string)
    ensures FirstOf(Values(merged), HasStatus(status, text), text, if limit > 0 then Some(limit) else None,
                    Selected(merged, status, limit, text))
  {
    hide Upper, Sorted, Filter, Newer;
    var items, wanted := Values(merged), HasStatus(status, text);
    var word := Upper(if status == "" then "APPROVED" else status);
    FilterSame(items, (r: Record) => Upper(text(Or(Get(r, "status"), Str("")))) == word, wanted);
    var at := SortedIsRanking(items, wanted, text);
    if 0 < limit < |at| { PickFront(items, at, limit); }
  }
}
