// core/canonical_json.py: normalisation of Python values and canonical bytes.

module Canonical {
  import opened Basics
  import opened JsonModel
  import opened Readable

  // A Python object as the normaliser tells objects apart.  A Decimal carries the text that
  // format(d, "f") gives; every other unsupported object is PyOther.
  datatype Py =
    | PyNone
    | PyBool(b: bool)
    | PyInt(n: int)
    | PyFloat(text: FloatText)
    | PyDecimal(digits: string)
    | PyStr(s: string)
    | PyList(items: seq<Py>)
    | PyDict(entries: seq<Entry>)
    | PyOther

  // One key and its value, in insertion order.  A key that is no str is NoStr.
  datatype Entry = Entry(key: Key, value: Py)
  datatype Key = StrKey(name: string) | NoStr(id: int)

  ghost predicate DistinctKeys(entries: seq<Entry>) {
    forall i, j :: 0 <= i < j < |entries| ==> entries[i].key != entries[j].key
  }

  // A Python dict holds a key once.
  ghost predicate WellFormed(v: Py) {
    match v
    case PyList(items) => forall i | 0 <= i < |items| :: WellFormed(items[i])
    case PyDict(entries) =>
      DistinctKeys(entries) && forall i | 0 <= i < |entries| :: WellFormed(entries[i].value)
    case _ => true
  }

  // ----- the normaliser -----

  function Norm(v: Py): Result<Json>
    decreases v, 0
  {
    match v
    case PyNone => Ok(Null)
    case PyBool(b) => Ok(Bool(b))
    case PyInt(n) => Ok(Int(n))
    case PyDecimal(digits) => Ok(Str(digits))
    case PyStr(s) => Ok(Str(s))
    case PyList(items) =>
      var xs := NormItems(items);
      if xs.Ok? then Ok(Arr(xs.value)) else Err
    case PyDict(entries) =>
      var m := NormEntries(entries);
      if m.Ok? then Ok(Obj(m.value)) else Err
    case PyFloat(_) => Err
    case PyOther => Err
  }

  function NormItems(items: seq<Py>): Result<seq<Json>>
    decreases items, 0
  {
    if items == [] then Ok([]) else
    var front := NormItems(items[..|items| - 1]);
    var last := Norm(items[|items| - 1]);
    if front.Ok? && last.Ok? then Ok(front.value + [last.value]) else Err
  }

  function NormEntries(entries: seq<Entry>): Result<map<string, Json>>
    decreases entries, 0
  {
    if entries == [] then Ok(map[]) else
    var front := NormEntries(entries[..|entries| - 1]);
    var last := NormEntry(entries[|entries| - 1]);
    if front.Ok? && last.Ok? then Ok(front.value[last.value.0 := last.value.1]) else Err
  }

  function NormEntry(e: Entry): Result<(string, Json)>
    decreases e, 1
  {
    if e.key.NoStr? then Err else
    var value := Norm(e.value);
    if value.Ok? then Ok((e.key.name, value.value)) else Err
  }

  // The normaliser as written: one pass over the items, raising at the first bad one.
  method Normalize(v: Py) returns (r: Result<Json>)
    ensures r == Norm(v)
    decreases v
  {
    match v
    case PyFloat(_) => return Err;
    case PyDecimal(digits) => return Ok(Str(digits));
    case PyNone => return Ok(Null);
    case PyBool(b) => return Ok(Bool(b));
    case PyInt(n) => return Ok(Int(n));
    case PyStr(s) => return Ok(Str(s));
    case PyOther => return Err;
    case PyList(items) =>
      var xs: seq<Json> := [];
      for i := 0 to |items|
        invariant NormItems(items[..i]) == Ok(xs)
      {
        var x := Normalize(items[i]);
        assert items[..i + 1][..i] == items[..i];
        if x.Err? {
          ItemsFail(items, i + 1);
          return Err;
        }
        xs := xs + [x.value];
      }
      assert items[..|items|] == items;
      return Ok(Arr(xs));
    case PyDict(entries) =>
      var out: map<string, Json> := map[];
      for i := 0 to |entries|
        invariant NormEntries(entries[..i]) == Ok(out)
      {
        assert entries[..i + 1][..i] == entries[..i];
        if entries[i].key.NoStr? {
          EntriesFail(entries, i + 1);
          return Err;
        }
        var x := Normalize(entries[i].value);
        if x.Err? {
          EntriesFail(entries, i + 1);
          return Err;
        }
        out := out[entries[i].key.name := x.value];
      }
      assert entries[..|entries|] == entries;
      return Ok(Obj(out));
  }

  // Once a prefix is rejected, nothing that follows can repair it.
  lemma {:induction false} ItemsFail(items: seq<Py>, i: nat)
    requires i <= |items|
    requires NormItems(items[..i]).Err?
    ensures NormItems(items).Err?
  {
    if i < |items| {
      assert items[..|items| - 1][..i] == items[..i];
      ItemsFail(items[..|items| - 1], i);
    } else {
      assert items[..i] == items;
    }
  }

  lemma {:induction false} EntriesFail(entries: seq<Entry>, i: nat)
    requires i <= |entries|
    requires NormEntries(entries[..i]).Err?
    ensures NormEntries(entries).Err?
  {
    if i < |entries| {
      assert entries[..|entries| - 1][..i] == entries[..i];
      EntriesFail(entries[..|entries| - 1], i);
    } else {
      assert entries[..i] == entries;
    }
  }

  // canonical_json(v), before UTF-8 encoding
  function CanonicalJson(v: Py): Result<string> {
    var n := Norm(v);
    if n.Ok? then Ok(Print(n.value)) else Err
  }

  // ----- what the normal form keeps -----

  // No float, no unsupported object and no key that is not a string, at any depth.
  predicate Accepted(v: Py) {
    match v
    case PyFloat(_) => false
    case PyOther => false
    case PyList(items) => forall i | 0 <= i < |items| :: Accepted(items[i])
    case PyDict(entries) =>
      forall i | 0 <= i < |entries| :: entries[i].key.StrKey? && Accepted(entries[i].value)
    case _ => true
  }

  // Equal up to the order of dict keys at any depth and up to Decimal versus its text.
  ghost predicate SameContent(a: Py, b: Py)
    decreases a
  {
    match a
    case PyDecimal(digits) => TextOf(b) == Some(digits)
    case PyStr(s) => TextOf(b) == Some(s)
    case PyList(items) =>
      && b.PyList? && |items| == |b.items|
      && forall i | 0 <= i < |items| :: SameContent(items[i], b.items[i])
    case PyDict(entries) =>
      && b.PyDict?
      && (forall i | 0 <= i < |entries| :: Matched(entries[i], b.entries))
      && (forall j | 0 <= j < |b.entries| :: HasKey(entries, b.entries[j].key))
    case _ => a == b
  }

  // Some entry among the others has the same key and the same content.
  ghost predicate Matched(e: Entry, others: seq<Entry>)
    decreases e
  {
    exists j | 0 <= j < |others| :: e.key == others[j].key && SameContent(e.value, others[j].value)
  }

  ghost predicate HasKey(entries: seq<Entry>, k: Key) {
    exists i | 0 <= i < |entries| :: entries[i].key == k
  }

  function TextOf(v: Py): Option<string> {
    match v
    case PyDecimal(digits) => Some(digits)
    case PyStr(s) => Some(s)
    case _ => None
  }

  // ----- main results -----

  lemma {:induction false} NormAccepts(v: Py)
    ensures Norm(v).Ok? <==> Accepted(v)
    decreases v, 0
  {
    match v
    case PyList(items) =>
      NormItemsAll(items);
      forall i | 0 <= i < |items| ensures Norm(items[i]).Ok? <==> Accepted(items[i]) { NormAccepts(items[i]); }
    case PyDict(entries) =>
      NormEntriesAll(entries);
      forall i | 0 <= i < |entries|
        ensures NormEntry(entries[i]).Ok? <==> entries[i].key.StrKey? && Accepted(entries[i].value)
      {
        NormAccepts(entries[i].value);
      }
    case _ =>
  }

  lemma {:induction false} NormItemsAll(items: seq<Py>)
    ensures NormItems(items).Ok? <==> forall i | 0 <= i < |items| :: Norm(items[i]).Ok?
    ensures NormItems(items).Ok? ==>
              && |NormItems(items).value| == |items|
              && forall i | 0 <= i < |items| :: Norm(items[i]) == Ok(NormItems(items).value[i])
  {
    if items != [] {
      var n := |items| - 1;
      NormItemsAll(items[..n]);
      assert forall i | 0 <= i < n :: items[..n][i] == items[i];
    }
  }

  lemma {:induction false} NormEntriesAll(entries: seq<Entry>)
    ensures NormEntries(entries).Ok? <==> forall i | 0 <= i < |entries| :: NormEntry(entries[i]).Ok?
  {
    if entries != [] {
      var n := |entries| - 1;
      NormEntriesAll(entries[..n]);
      assert forall i | 0 <= i < n :: entries[..n][i] == entries[i];
    }
  }

  // The map m holds exactly the normalised items of a dict.
  ghost predicate Represents(entries: seq<Entry>, m: map<string, Json>) {
    && (forall i | 0 <= i < |entries| :: InMap(entries[i], m))
    && (forall k | k in m :: HasKey(entries, StrKey(k)))
  }

  ghost predicate InMap(e: Entry, m: map<string, Json>) {
    e.key.StrKey? && e.key.name in m && Norm(e.value) == Ok(m[e.key.name])
  }

  lemma {:induction false} NormEntriesMap(entries: seq<Entry>)
    requires DistinctKeys(entries)
    requires NormEntries(entries).Ok?
    ensures Represents(entries, NormEntries(entries).value)
  {
    if entries != [] {
      var n := |entries| - 1;
      var front := entries[..n];
      var m, m' := NormEntries(front).value, NormEntries(entries).value;
      NormEntriesMap(front);
      forall i | 0 <= i < |entries| ensures InMap(entries[i], m') {
        if i < n { assert front[i] == entries[i] && InMap(front[i], m); }
      }
      forall k | k in m' ensures HasKey(entries, StrKey(k)) {
        if StrKey(k) == entries[n].key {
          assert entries[n].key == StrKey(k);
        } else {
          var i :| 0 <= i < |front| && front[i].key == StrKey(k);
          assert entries[i].key == StrKey(k);
        }
      }
    }
  }

  // Equal normal forms are exactly equal contents.
  lemma {:induction false} NormSame(a: Py, b: Py)
    requires WellFormed(a) && WellFormed(b) && Accepted(a) && Accepted(b)
    ensures Norm(a) == Norm(b) <==> SameContent(a, b)
    decreases a, 1
  {
    if a.PyList? && b.PyList? {
      NormSameItems(a, b);
    } else if a.PyDict? && b.PyDict? {
      NormSameEntries(a, b);
    } else {
      NormAccepts(a);
      NormAccepts(b);
    }
  }

  lemma {:induction false} NormSameItems(a: Py, b: Py)
    requires WellFormed(a) && WellFormed(b) && Accepted(a) && Accepted(b)
    requires a.PyList? && b.PyList?
    ensures Norm(a) == Norm(b) <==> SameContent(a, b)
    decreases a, 0
  {
    NormAccepts(a);
    NormAccepts(b);
    NormItemsAll(a.items);
    NormItemsAll(b.items);
    if |a.items| == |b.items| {
      forall i | 0 <= i < |a.items|
        ensures Norm(a.items[i]) == Norm(b.items[i]) <==> SameContent(a.items[i], b.items[i])
      {
        NormSame(a.items[i], b.items[i]);
      }
      NormItemsSame(a.items, b.items);
    }
  }

  lemma {:induction false} NormSameEntries(a: Py, b: Py)
    requires WellFormed(a) && WellFormed(b) && Accepted(a) && Accepted(b)
    requires a.PyDict? && b.PyDict?
    ensures Norm(a) == Norm(b) <==> SameContent(a, b)
    decreases a, 0
  {
    NormAccepts(a);
    NormAccepts(b);
    var m, n := NormEntries(a.entries).value, NormEntries(b.entries).value;
    NormEntriesMap(a.entries);
    NormEntriesMap(b.entries);
    forall i, j | 0 <= i < |a.entries| && 0 <= j < |b.entries|
      ensures Agree(a.entries[i], b.entries[j])
    {
      NormSame(a.entries[i].value, b.entries[j].value);
    }
    if m == n { DictSameContent(a.entries, b.entries, m); }
    if SameContent(a, b) { DictSameMap(a.entries, b.entries, m, n); }
  }

  ghost predicate Agree(e: Entry, f: Entry) {
    Norm(e.value) == Norm(f.value) <==> SameContent(e.value, f.value)
  }

  lemma DictSameContent(xs: seq<Entry>, ys: seq<Entry>, m: map<string, Json>)
    requires Represents(xs, m) && Represents(ys, m)
    requires forall i, j | 0 <= i < |xs| && 0 <= j < |ys| :: Agree(xs[i], ys[j])
    ensures forall i | 0 <= i < |xs| :: Matched(xs[i], ys)
    ensures forall j | 0 <= j < |ys| :: HasKey(xs, ys[j].key)
  {
    forall i | 0 <= i < |xs| ensures Matched(xs[i], ys) {
      assert InMap(xs[i], m) && HasKey(ys, StrKey(xs[i].key.name));
      var j :| 0 <= j < |ys| && ys[j].key == xs[i].key;
      assert InMap(ys[j], m) && Agree(xs[i], ys[j]);
    }
    forall j | 0 <= j < |ys| ensures HasKey(xs, ys[j].key) {
      assert InMap(ys[j], m) && HasKey(xs, StrKey(ys[j].key.name));
    }
  }

  lemma DictSameValue(xs: seq<Entry>, ys: seq<Entry>, m: map<string, Json>, n: map<string, Json>, k: string)
    requires Represents(xs, m) && Represents(ys, n) && k in m
    requires forall i, j | 0 <= i < |xs| && 0 <= j < |ys| :: Agree(xs[i], ys[j])
    requires forall i | 0 <= i < |xs| :: Matched(xs[i], ys)
    ensures k in n && m[k] == n[k]
  {
    assert HasKey(xs, StrKey(k));
    var i :| 0 <= i < |xs| && xs[i].key == StrKey(k);
    assert InMap(xs[i], m) && Matched(xs[i], ys);
    var j :| 0 <= j < |ys| && xs[i].key == ys[j].key && SameContent(xs[i].value, ys[j].value);
    assert InMap(ys[j], n) && Agree(xs[i], ys[j]);
  }

  lemma DictKeys(xs: seq<Entry>, ys: seq<Entry>, m: map<string, Json>, n: map<string, Json>)
    requires Represents(xs, m) && Represents(ys, n)
    requires forall j | 0 <= j < |ys| :: HasKey(xs, ys[j].key)
    ensures n.Keys <= m.Keys
  {
    forall k | k in n ensures k in m {
      assert HasKey(ys, StrKey(k));
      var j :| 0 <= j < |ys| && ys[j].key == StrKey(k);
      assert HasKey(xs, ys[j].key);
      var i :| 0 <= i < |xs| && xs[i].key == ys[j].key;
      assert InMap(xs[i], m);
    }
  }

  lemma DictSameMap(xs: seq<Entry>, ys: seq<Entry>, m: map<string, Json>, n: map<string, Json>)
    requires Represents(xs, m) && Represents(ys, n)
    requires forall i, j | 0 <= i < |xs| && 0 <= j < |ys| :: Agree(xs[i], ys[j])
    requires forall i | 0 <= i < |xs| :: Matched(xs[i], ys)
    requires forall j | 0 <= j < |ys| :: HasKey(xs, ys[j].key)
    ensures m == n
  {
    DictKeys(xs, ys, m, n);
    forall k | k in m ensures k in n && m[k] == n[k] { DictSameValue(xs, ys, m, n, k); }
  }

  lemma NormItemsSame(xs: seq<Py>, ys: seq<Py>)
    requires |xs| == |ys| && NormItems(xs).Ok? && NormItems(ys).Ok?
    ensures NormItems(xs) == NormItems(ys) <==> forall i | 0 <= i < |xs| :: Norm(xs[i]) == Norm(ys[i])
  {
    NormItemsAll(xs);
    NormItemsAll(ys);
    if forall i | 0 <= i < |xs| :: Norm(xs[i]) == Norm(ys[i]) {
      assert NormItems(xs).value == NormItems(ys).value;
    }
  }

  // Canonical bytes are equal exactly when the contents are: equal bytes never hide a difference,
  // and reordering keys at any depth (or writing a Decimal as its text) never changes the bytes.
  lemma CanonicalJsonExact(a: Py, b: Py)
    requires WellFormed(a) && WellFormed(b) && Accepted(a) && Accepted(b)
    ensures CanonicalJson(a).Ok?
    ensures CanonicalJson(a) == CanonicalJson(b) <==> SameContent(a, b)
  {
    NormAccepts(a);
    NormAccepts(b);
    NormSame(a, b);
    if CanonicalJson(a) == CanonicalJson(b) { PrintInjective(Norm(a).value, Norm(b).value); }
  }

  // A value with a float (or another unsupported part) anywhere inside has no canonical form.
  lemma CanonicalJsonFailsClosed(v: Py)
    ensures CanonicalJson(v).Ok? <==> Accepted(v)
  {
    NormAccepts(v);
  }

  // ----- strict parsing -----

  // _parse_no_duplicate_keys: the pairs of one parsed object become a dict, or the parse fails.
  method ParseNoDuplicateKeys(pairs: seq<(string, Json)>) returns (r: Result<map<string, Json>>)
    ensures r.Ok? <==> forall i, j :: 0 <= i < j < |pairs| ==> pairs[i].0 != pairs[j].0
    ensures r.Ok? ==> forall i | 0 <= i < |pairs| :: pairs[i].0 in r.value && r.value[pairs[i].0] == pairs[i].1
    ensures r.Ok? ==> forall k | k in r.value :: exists i | 0 <= i < |pairs| :: pairs[i].0 == k
  {
    var out: map<string, Json> := map[];
    for n := 0 to |pairs|
      invariant forall i, j :: 0 <= i < j < n ==> pairs[i].0 != pairs[j].0
      invariant forall i | 0 <= i < n :: pairs[i].0 in out && out[pairs[i].0] == pairs[i].1
      invariant forall k | k in out :: exists i | 0 <= i < n :: pairs[i].0 == k
    {
      var (k, v) := pairs[n];
      if k in out {
        return Err;
      }
      ghost var before := out;
      out := out[k := v];
      forall q | q in out ensures exists i | 0 <= i < n + 1 :: pairs[i].0 == q {
        if q in before {
          var i :| 0 <= i < n && pairs[i].0 == q;
          assert pairs[i].0 == q;
        } else {
          assert pairs[n].0 == q;
        }
      }
    }
    return Ok(out);
  }
}
