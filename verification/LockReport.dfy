// tools/ci/build_lock_report.py: the scrubbed digest of a JSON document.

module LockReport {
  import opened JsonModel
  import opened Readable
  import opened Text
  import opened Sorting

  // ----- scrubbing -----

  const VOLATILE_KEYS := [
    "ts", "timestamp", "created_at", "createdat", "updated_at", "updatedat", "generated_at", "generatedat",
    "run_id", "runid", "github_run_id", "tmp_base", "tmpbase", "base_dir", "basedir", "id", "uuid", "nonce"]

  const CHAIN_KEYS := ["record_hash", "prev_hash", "payload_hash", "recordhash", "prevhash", "payloadhash"]

  // Keys that are dropped: times, run ids, hash-chain fields and paths.
  predicate Volatile(key: string) {
    var k := Lower(key);
    k in VOLATILE_KEYS || EndsWith(k, "_id") || EndsWith(k, "id") || k in CHAIN_KEYS
    || EndsWith(k, "_path") || EndsWith(k, "path")
  }

  predicate Contains(s: string, pattern: string) {
    exists i | 0 <= i <= |s| :: pattern <= s[i..]
  }

  function ScrubString(s: string): string {
    if StartsWith(s, "/tmp/") then "<TMP_PATH>"
    else if Contains(s, "/tmp/") then Replace(s, "/tmp/", "<TMP>/")
    else if StartsWith(s, "/home/runner/") || StartsWith(s, "/Users/") then "<ABS_PATH>"
    else s
  }

  // What is dropped and how a string is rewritten; the walk below is the same for any rules.
  datatype Rules = Rules(drops: string -> bool, text: string -> string)

  const LOCK_RULES := Rules(k => Volatile(k), s => ScrubString(s))

  // _scrub
  function Scrub(rules: Rules, j: Json): Json
    decreases j, 1
  {
    match j
    case Obj(fields) => Obj(map k | k in fields && !rules.drops(k) :: Scrub(rules, fields[k]))
    case Arr(items) => Arr(Sorted(BY_TEXT, ScrubAll(rules, items)))
    case Str(s) => Str(rules.text(s))
    case _ => j
  }

  function ScrubAll(rules: Rules, items: seq<Json>): (r: seq<Json>)
    ensures |r| == |items|
    decreases items, 0
  {
    if items == [] then [] else ScrubAll(rules, items[..|items| - 1]) + [Scrub(rules, items[|items| - 1])]
  }

  // The walk as written: a dict is filled key by key, a list is collected and then sorted.
  method ScrubDocument(rules: Rules, j: Json) returns (r: Json)
    ensures r == Scrub(rules, j)
    decreases j, 1
  {
    match j
    case Obj(_) =>
      r := ScrubDict(rules, j);
    case Arr(_) =>
      r := ScrubList(rules, j);
    case Str(s) => return Str(rules.text(s));
    case _ => return j;
  }

  // The dict branch, which fills a new dict.
  method ScrubDict(rules: Rules, j: Json) returns (r: Json)
    requires j.Obj?
    ensures r == Scrub(rules, j)
    decreases j, 0
  {
    var fields, out: map<string, Json> := j.fields, map[];
    var todo := fields.Keys;
    while todo != {}
      invariant todo <= fields.Keys
      invariant out.Keys == set k | k in fields.Keys - todo && !rules.drops(k)
      invariant forall k | k in out :: out[k] == Scrub(rules, fields[k])
      decreases |todo|
    {
      var k :| k in todo;
      todo := todo - {k};
      if rules.drops(k) {
        continue;
      }
      var v := ScrubDocument(rules, fields[k]);
      out := out[k := v];
    }
    assert out == Scrub(rules, j).fields;
    return Obj(out);
  }

  // The list branch: a comprehension, and a sort by the printed form.
  method ScrubList(rules: Rules, j: Json) returns (r: Json)
    requires j.Arr?
    ensures r == Scrub(rules, j)
    decreases j, 0
  {
    var xs: seq<Json> := [];
    for i := 0 to |j.items|
      invariant xs == ScrubAll(rules, j.items[..i])
    {
      var x := ScrubDocument(rules, j.items[i]);
      assert j.items[..i + 1][..i] == j.items[..i];
      xs := xs + [x];
    }
    assert j.items[..|j.items|] == j.items;
    return Arr(Sorted(BY_TEXT, xs));
  }

  // ----- sorted(xs, key=the printed form) -----

  const BY_TEXT: (Json, Json) -> bool := (a, b) => !Less(Print(b), Print(a))

  // The printed form orders any two values, and orders them strictly unless they are equal.
  lemma ByTextIsTotal()
    ensures TotalOrder(BY_TEXT)
  {
    forall a, b, c
      ensures BY_TEXT(a, b) || BY_TEXT(b, a)
      ensures BY_TEXT(a, b) && BY_TEXT(b, c) ==> BY_TEXT(a, c)
      ensures BY_TEXT(a, b) && BY_TEXT(b, a) ==> a == b
    {
      TextOrder(Print(a), Print(b), Print(c));
      if Print(a) == Print(b) { PrintInjective(a, b); }
    }
  }

  lemma TextOrder(x: string, y: string, z: string)
    ensures !Less(y, x) || !Less(x, y)
    ensures !Less(y, x) && !Less(z, y) ==> !Less(z, x)
    ensures !Less(y, x) && !Less(x, y) ==> x == y
  {
    LessTotal(x, y);
    LessTotal(y, z);
    if !Less(y, x) && !Less(z, y) && Less(z, x) {
      if x != y { LessTransitive(z, x, y); }
    }
  }

  lemma SortedByText(xs: seq<Json>, ys: seq<Json>)
    ensures Sorted(BY_TEXT, xs) == Sorted(BY_TEXT, ys) <==> multiset(xs) == multiset(ys)
  {
    ByTextIsTotal();
    SortedForgetsOrder(BY_TEXT, xs, ys);
  }

  // ----- documents that differ only in what is volatile -----

  // Equal up to dropped keys, the order of list items and rewritten strings, at any depth.
  ghost predicate SameReport(rules: Rules, a: Json, b: Json)
    decreases a, 1
  {
    match a
    case Obj(fields) =>
      && b.Obj?
      && (forall k | k in fields && !rules.drops(k) :: k in b.fields && SameReport(rules, fields[k], b.fields[k]))
      && (forall k | k in b.fields && !rules.drops(k) :: k in fields)
    case Arr(items) => b.Arr? && Rearranged(rules, items, b.items)
    case Str(s) => b.Str? && rules.text(s) == rules.text(b.s)
    case _ => a == b
  }

  // The items can be paired off, each with one of the same report.
  ghost predicate Rearranged(rules: Rules, xs: seq<Json>, ys: seq<Json>)
    decreases xs, 0
  {
    if xs == [] then ys == [] else
    var n := |xs| - 1;
    exists j | 0 <= j < |ys| :: SameReport(rules, xs[n], ys[j]) && Rearranged(rules, xs[..n], Without(ys, j))
  }

  function Without<T>(ys: seq<T>, j: nat): seq<T>
    requires j < |ys|
  {
    ys[..j] + ys[j + 1..]
  }

  lemma {:induction false} ScrubSame(rules: Rules, a: Json, b: Json)
    ensures Scrub(rules, a) == Scrub(rules, b) <==> SameReport(rules, a, b)
    decreases a, 1
  {
    if a.Obj? && b.Obj? {
      ScrubSameFields(rules, a, b);
    } else if a.Arr? && b.Arr? {
      ScrubSameLists(rules, a.items, b.items);
    }
  }

  lemma {:induction false} ScrubSameLists(rules: Rules, xs: seq<Json>, ys: seq<Json>)
    ensures Scrub(rules, Arr(xs)) == Scrub(rules, Arr(ys)) <==> Rearranged(rules, xs, ys)
    decreases xs, 0, 2
  {
    ScrubSameItems(rules, xs, ys);
    SortedByText(ScrubAll(rules, xs), ScrubAll(rules, ys));
  }

  lemma {:induction false} ScrubSameFields(rules: Rules, a: Json, b: Json)
    requires a.Obj? && b.Obj?
    ensures Scrub(rules, a) == Scrub(rules, b) <==> SameReport(rules, a, b)
    decreases a, 0
  {
    var m, n := Scrub(rules, a).fields, Scrub(rules, b).fields;
    forall k | k in a.fields && k in b.fields
      ensures Scrub(rules, a.fields[k]) == Scrub(rules, b.fields[k])
              <==> SameReport(rules, a.fields[k], b.fields[k])
    {
      ScrubSame(rules, a.fields[k], b.fields[k]);
    }
    if m == n {
      forall k | k in a.fields && !rules.drops(k)
        ensures k in b.fields && SameReport(rules, a.fields[k], b.fields[k])
      {
        assert k in m && k in n;
      }
      forall k | k in b.fields && !rules.drops(k) ensures k in a.fields { assert k in n && k in m; }
    }
    if SameReport(rules, a, b) {
      assert m.Keys == n.Keys;
      assert forall k | k in m :: m[k] == n[k];
    }
  }

  lemma {:induction false} ScrubAllAppend(rules: Rules, xs: seq<Json>, ys: seq<Json>)
    ensures ScrubAll(rules, xs + ys) == ScrubAll(rules, xs) + ScrubAll(rules, ys)
    decreases |ys|
  {
    if ys == [] {
      assert xs + ys == xs;
    } else {
      var n := |ys| - 1;
      ScrubAllAppend(rules, xs, ys[..n]);
      assert (xs + ys)[..|xs + ys| - 1] == xs + ys[..n];
    }
  }

  lemma ScrubAllSplit(rules: Rules, ys: seq<Json>, j: nat)
    requires j < |ys|
    ensures ScrubAll(rules, ys) == ScrubAll(rules, ys[..j]) + [Scrub(rules, ys[j])] + ScrubAll(rules, ys[j + 1..])
  {
    assert ys == (ys[..j] + [ys[j]]) + ys[j + 1..];
    ScrubAllAppend(rules, ys[..j] + [ys[j]], ys[j + 1..]);
    assert (ys[..j] + [ys[j]])[..j] == ys[..j];
  }

  lemma ScrubRemoved(rules: Rules, ys: seq<Json>, j: nat)
    requires j < |ys|
    ensures multiset(ScrubAll(rules, ys))
            == multiset(ScrubAll(rules, Without(ys, j))) + multiset{Scrub(rules, ys[j])}
    ensures ScrubAll(rules, ys)[j] == Scrub(rules, ys[j])
  {
    ScrubAllSplit(rules, ys, j);
    ScrubAllAppend(rules, ys[..j], ys[j + 1..]);
  }

  // One item taken off both sides.
  lemma {:induction false} ScrubSameLess(rules: Rules, xs: seq<Json>, ys: seq<Json>, j: nat)
    requires xs != [] && j < |ys|
    ensures Scrub(rules, xs[|xs| - 1]) == Scrub(rules, ys[j]) <==> SameReport(rules, xs[|xs| - 1], ys[j])
    ensures Scrub(rules, xs[|xs| - 1]) == Scrub(rules, ys[j]) ==>
              (multiset(ScrubAll(rules, xs)) == multiset(ScrubAll(rules, ys))
               <==> Rearranged(rules, xs[..|xs| - 1], Without(ys, j)))
    decreases xs, 0, 0
  {
    var n := |xs| - 1;
    ScrubSame(rules, xs[n], ys[j]);
    ScrubSameItems(rules, xs[..n], Without(ys, j));
    ScrubRemoved(rules, ys, j);
    Cancel(multiset(ScrubAll(rules, xs[..n])), multiset(ScrubAll(rules, Without(ys, j))), Scrub(rules, xs[n]));
  }

  lemma {:induction false} ScrubSameItems(rules: Rules, xs: seq<Json>, ys: seq<Json>)
    ensures multiset(ScrubAll(rules, xs)) == multiset(ScrubAll(rules, ys)) <==> Rearranged(rules, xs, ys)
    decreases xs, 0, 1
  {
    var us, vs := ScrubAll(rules, xs), ScrubAll(rules, ys);
    if xs == [] {
      assert |multiset(vs)| == |ys|;
    } else {
      forall j | 0 <= j < |ys|
        ensures Scrub(rules, xs[|xs| - 1]) == Scrub(rules, ys[j]) <==> SameReport(rules, xs[|xs| - 1], ys[j])
        ensures Scrub(rules, xs[|xs| - 1]) == Scrub(rules, ys[j]) ==>
                  (multiset(us) == multiset(vs) <==> Rearranged(rules, xs[..|xs| - 1], Without(ys, j)))
      {
        ScrubSameLess(rules, xs, ys, j);
      }
      if multiset(us) == multiset(vs) {
        assert us[|us| - 1] in multiset(vs);
        var j :| 0 <= j < |vs| && vs[j] == us[|us| - 1];
        ScrubRemoved(rules, ys, j);
        assert SameReport(rules, xs[|xs| - 1], ys[j]);
      }
    }
  }

  // The text digest_json_file hashes.
  function DigestText(j: Json): string {
    Print(Scrub(LOCK_RULES, j))
  }

  // The digest is canonical: two documents hash the same text exactly when they differ only in
  // volatile keys, in the order of list items and in path-like strings, at any depth.
  lemma DigestCanonical(a: Json, b: Json)
    ensures DigestText(a) == DigestText(b) <==> SameReport(LOCK_RULES, a, b)
  {
    ScrubSame(LOCK_RULES, a, b);
    if DigestText(a) == DigestText(b) { PrintInjective(Scrub(LOCK_RULES, a), Scrub(LOCK_RULES, b)); }
  }

  // ----- what the rules do -----

  const OTHER_WORDS := [
    "ts", "timestamp", "created_at", "createdat", "updated_at", "updatedat", "generated_at", "generatedat",
    "tmp_base", "tmpbase", "base_dir", "basedir", "nonce",
    "record_hash", "prev_hash", "payload_hash", "recordhash", "prevhash", "payloadhash"]

  // A key is dropped when, in lower case, it ends in "id" or "path" or is one of these words.
  lemma VolatileExact(key: string)
    ensures var k := Lower(key); Volatile(key) <==> EndsWith(k, "id") || EndsWith(k, "path") || k in OTHER_WORDS
  {
    var k := Lower(key);
    EndsOf(k, "_", "id");
    EndsOf(k, "_", "path");
    assert "_" + "id" == "_id" && "_" + "path" == "_path";
    WordsSplit(k);
    IdWords();
    hide VOLATILE_KEYS, CHAIN_KEYS, OTHER_WORDS, ID_WORDS, Lower, EndsWith;
  }

  const ID_WORDS := ["run_id", "runid", "github_run_id", "id", "uuid"]

  lemma WordsSplit(k: string)
    ensures k in VOLATILE_KEYS || k in CHAIN_KEYS <==> k in OTHER_WORDS || k in ID_WORDS
  {
  }

  lemma IdWords()
    ensures forall w | w in ID_WORDS :: EndsWith(w, "id")
  {
    forall i | 0 <= i < |ID_WORDS| ensures EndsWith(ID_WORDS[i], "id") {
      assert |ID_WORDS[i]| >= 2 && ID_WORDS[i][|ID_WORDS[i]| - 2] == 'i' && ID_WORDS[i][|ID_WORDS[i]| - 1] == 'd';
    }
  }

  lemma EndsOf(s: string, a: string, b: string)
    ensures EndsWith(s, a + b) ==> EndsWith(s, b)
  {
    if EndsWith(s, a + b) { assert s[|s| - |b|..] == s[|s| - |a + b|..][|a|..] == (a + b)[|a|..]; }
  }

  lemma {:induction false} ReplaceAbsent(s: string, pattern: string, sub: string)
    requires pattern != [] && !Contains(s, pattern)
    ensures Replace(s, pattern, sub) == s
  {
    if s != [] {
      assert s[0..] == s;
      forall i | 0 <= i <= |s[1..]| ensures !(pattern <= s[1..][i..]) { assert s[1..][i..] == s[i + 1..]; }
      ReplaceAbsent(s[1..], pattern, sub);
    }
  }

  // The first occurrence is replaced, and then the rest behind it.
  lemma {:induction false} ReplaceFirst(a: string, b: string, pattern: string, sub: string)
    requires pattern != [] && forall i | 0 <= i < |a| :: !(pattern <= (a + pattern + b)[i..])
    ensures Replace(a + pattern + b, pattern, sub) == a + sub + Replace(b, pattern, sub)
  {
    var s := a + pattern + b;
    if a == [] {
      assert s == pattern + b && s[|pattern|..] == b;
    } else {
      assert s[0..] == s;
      assert s[1..] == a[1..] + pattern + b;
      forall i | 0 <= i < |a[1..]| ensures !(pattern <= (a[1..] + pattern + b)[i..]) { assert (a[1..] + pattern + b)[i..] == s[i + 1..]; }
      assert !(pattern <= s[0..]);
      ReplaceFirst(a[1..], b, pattern, sub);
      assert [a[0]] + (a[1..] + sub + Replace(b, pattern, sub)) == a + sub + Replace(b, pattern, sub);
    }
  }

  // A string is rewritten by where "/tmp/" stands in it, and by the two other beginnings otherwise.
  lemma {:induction false} ScrubStringExact(s: string)
    ensures "/tmp/" <= s ==> ScrubString(s) == "<TMP_PATH>"
    ensures forall a, b | a != [] && s == a + "/tmp/" + b && forall i | 0 <= i < |a| :: !("/tmp/" <= s[i..]) ::
              ScrubString(s) == a + "<TMP>/" + Replace(b, "/tmp/", "<TMP>/")
    ensures !Contains(s, "/tmp/") ==> ScrubString(s) == if "/home/runner/" <= s || "/Users/" <= s then "<ABS_PATH>" else s
  {
    if "/tmp/" <= s { assert s[0..] == s; }
    forall a, b | a != [] && s == a + "/tmp/" + b && forall i | 0 <= i < |a| :: !("/tmp/" <= s[i..])
      ensures ScrubString(s) == a + "<TMP>/" + Replace(b, "/tmp/", "<TMP>/")
    {
      assert s[0..] == s;
      assert s[|a|..] == "/tmp/" + b;
      ReplaceFirst(a, b, "/tmp/", "<TMP>/");
    }
  }

  // In code order of the printed forms.
  ghost predicate CodeOrdered(xs: seq<Json>) {
    forall i, j | 0 <= i < j < |xs| :: xs[i] == xs[j] || PrintsBefore(xs[i], xs[j])
  }

  ghost predicate PrintsBefore(a: Json, b: Json) {
    CodeBefore(Print(a), Print(b))
  }

  lemma ByTextExact(a: Json, b: Json)
    ensures BY_TEXT(a, b) <==> a == b || PrintsBefore(a, b)
  {
    hide Print, Less, CodeBefore;
    LessTotal(Print(a), Print(b));
    LessExact(Print(a), Print(b));
    if Print(a) == Print(b) { PrintInjective(a, b); }
  }

  lemma SortedInCodeOrder(xs: seq<Json>)
    ensures CodeOrdered(Sorted(BY_TEXT, xs)) && multiset(Sorted(BY_TEXT, xs)) == multiset(xs)
    ensures CodeOrdered(xs) ==> Sorted(BY_TEXT, xs) == xs
  {
    ByTextIsTotal();
    SortedSorts(BY_TEXT, xs);
    hide Sorted, PrintsBefore, Print, Less;
    forall a, b ensures BY_TEXT(a, b) <==> a == b || PrintsBefore(a, b) { ByTextExact(a, b); }
    if CodeOrdered(xs) { OrderUnique(BY_TEXT, Sorted(BY_TEXT, xs), xs); }
  }

  // Each item scrubbed.
  function EachScrubbed(rules: Rules, items: seq<Json>): seq<Json> {
    seq(|items|, i requires 0 <= i < |items| => Scrub(rules, items[i]))
  }

  lemma {:induction false} AllScrubbed(rules: Rules, items: seq<Json>)
    ensures ScrubAll(rules, items) == EachScrubbed(rules, items)
  {
    if items != [] {
      AllScrubbed(rules, items[..|items| - 1]);
      hide Scrub;
    }
  }

  lemma ScrubOfList(rules: Rules, items: seq<Json>)
    ensures Scrub(rules, Arr(items)) == Arr(Sorted(BY_TEXT, EachScrubbed(rules, items)))
  {
    AllScrubbed(rules, items);
  }

  // A scrubbed list holds the scrubbed items, in code order of their printed forms.
  lemma {:induction false} ListInCodeOrder(rules: Rules, items: seq<Json>)
    ensures Scrub(rules, Arr(items)).Arr?
    ensures var xs := Scrub(rules, Arr(items)).items; multiset(xs) == multiset(EachScrubbed(rules, items)) && CodeOrdered(xs)
  {
    ScrubOfList(rules, items);
    hide Scrub, EachScrubbed, CodeOrdered;
    SortedInCodeOrder(EachScrubbed(rules, items));
  }

  // Nothing to drop or rewrite, and every list in code order.
  ghost predicate Settled(rules: Rules, j: Json)
    decreases j
  {
    match j
    case Obj(fields) => forall k | k in fields :: !rules.drops(k) && Settled(rules, fields[k])
    case Arr(items) => CodeOrdered(items) && forall i | 0 <= i < |items| :: Settled(rules, items[i])
    case Str(s) => rules.text(s) == s
    case _ => true
  }

  // Such a report is left as it is.
  lemma {:induction false} SettledStays(rules: Rules, j: Json)
    requires Settled(rules, j)
    ensures Scrub(rules, j) == j
    decreases j
  {
    hide CodeOrdered, Sorted, ScrubAll;
    match j
    case Obj(fields) =>
      forall k | k in fields ensures Scrub(rules, fields[k]) == fields[k] { SettledStays(rules, fields[k]); }
      assert Scrub(rules, j).fields == fields;
    case Arr(items) =>
      forall i | 0 <= i < |items| ensures Scrub(rules, items[i]) == items[i] { SettledStays(rules, items[i]); }
      SettledList(rules, items);
    case _ =>
  }

  lemma SettledList(rules: Rules, items: seq<Json>)
    requires CodeOrdered(items) && forall i | 0 <= i < |items| :: Scrub(rules, items[i]) == items[i]
    ensures Scrub(rules, Arr(items)) == Arr(items)
  {
    ScrubOfList(rules, items);
    assert EachScrubbed(rules, items) == items;
    hide Scrub, CodeOrdered;
    SortedInCodeOrder(items);
  }
}
