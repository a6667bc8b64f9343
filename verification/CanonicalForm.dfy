// core/canonical_json.py: what the canonical text of a value says, read back by a JSON reader.

module CanonicalForm {
  import opened Basics
  import opened JsonModel
  import opened Canonical
  import opened JsonReader

  // The JSON value says what the Python value says: the same scalars, a Decimal as its text, item for
  // item and key for key.
  ghost predicate SaysSame(v: Py, j: Json)
    decreases v
  {
    match v
    case PyNone => j == Null
    case PyBool(b) => j == Bool(b)
    case PyInt(n) => j == Int(n)
    case PyDecimal(digits) => j == Str(digits)
    case PyStr(s) => j == Str(s)
    case PyList(items) => j.Arr? && |j.items| == |items| && forall i | 0 <= i < |items| :: SaysSame(items[i], j.items[i])
    case PyDict(entries) =>
      && j.Obj?
      && (forall i | 0 <= i < |entries| ::
            entries[i].key.StrKey? && entries[i].key.name in j.fields && SaysSame(entries[i].value, j.fields[entries[i].key.name]))
      && (forall k | k in j.fields :: HasKey(entries, StrKey(k)))
    case PyFloat(_) => false
    case PyOther => false
  }

  // The normal form of a value is the JSON value that says the same, and there is one if and only if
  // there is such a value.
  lemma {:induction false} NormExact(v: Py, j: Json)
    requires WellFormed(v)
    ensures Norm(v) == Ok(j) <==> SaysSame(v, j)
    decreases v, 1
  {
    match v
    case PyList(items) => if j.Arr? { ItemsExact(items, j.items); }
    case PyDict(entries) => if j.Obj? { EntriesExact(v, entries, j.fields); }
    case _ =>
  }

  lemma {:induction false} ItemsExact(items: seq<Py>, xs: seq<Json>)
    requires forall i | 0 <= i < |items| :: WellFormed(items[i])
    ensures NormItems(items) == Ok(xs) <==> |xs| == |items| && forall i | 0 <= i < |items| :: SaysSame(items[i], xs[i])
    decreases items, 0
  {
    NormItemsAll(items);
    if |xs| == |items| {
      forall i | 0 <= i < |items| ensures Norm(items[i]) == Ok(xs[i]) <==> SaysSame(items[i], xs[i]) { NormExact(items[i], xs[i]); }
    }
    if NormItems(items).Ok? && |xs| == |items| && forall i | 0 <= i < |items| :: SaysSame(items[i], xs[i]) {
      assert NormItems(items).value == xs;
    }
  }

  // The keys and values of the map are those of the entries.
  ghost predicate Holds(entries: seq<Entry>, m: map<string, Json>) {
    && (forall i | 0 <= i < |entries| ::
          entries[i].key.StrKey? && entries[i].key.name in m && SaysSame(entries[i].value, m[entries[i].key.name]))
    && (forall k | k in m :: HasKey(entries, StrKey(k)))
  }

  ghost predicate Exact(e: Entry) {
    forall x :: Norm(e.value) == Ok(x) <==> SaysSame(e.value, x)
  }

  lemma {:induction false} EntriesExact(v: Py, entries: seq<Entry>, m: map<string, Json>)
    requires WellFormed(v) && v == PyDict(entries)
    ensures NormEntries(entries) == Ok(m) <==> Holds(entries, m)
    decreases v, 0
  {
    forall i | 0 <= i < |entries| ensures Exact(entries[i]) {
      forall x ensures Norm(entries[i].value) == Ok(x) <==> SaysSame(entries[i].value, x) { NormExact(entries[i].value, x); }
    }
    hide NormEntries, SaysSame, Norm;
    if NormEntries(entries).Ok? {
      NormEntriesMap(entries);
      MapHolds(entries, NormEntries(entries).value);
      if Holds(entries, m) { SameMap(entries, m, NormEntries(entries).value); }
    }
    if Holds(entries, m) { AllNormal(entries, m); }
  }

  lemma MapHolds(entries: seq<Entry>, n: map<string, Json>)
    requires Represents(entries, n) && forall i | 0 <= i < |entries| :: Exact(entries[i])
    ensures Holds(entries, n)
  {
    hide SaysSame, Norm;
    forall i | 0 <= i < |entries|
      ensures entries[i].key.StrKey? && entries[i].key.name in n && SaysSame(entries[i].value, n[entries[i].key.name])
    {
      assert InMap(entries[i], n) && Exact(entries[i]);
    }
  }

  lemma AllNormal(entries: seq<Entry>, m: map<string, Json>)
    requires Holds(entries, m) && forall i | 0 <= i < |entries| :: Exact(entries[i])
    ensures NormEntries(entries).Ok?
  {
    NormEntriesAll(entries);
    hide SaysSame, Norm, NormEntries;
    forall i | 0 <= i < |entries| ensures NormEntry(entries[i]).Ok? {
      assert Exact(entries[i]);
      assert Norm(entries[i].value) == Ok(m[entries[i].key.name]);
    }
  }

  lemma SameMap(entries: seq<Entry>, m: map<string, Json>, n: map<string, Json>)
    requires Holds(entries, m) && Represents(entries, n) && forall i | 0 <= i < |entries| :: Exact(entries[i])
    ensures m == n
  {
    hide SaysSame, Norm;
    forall k | k in m ensures k in n && m[k] == n[k] {
      var i :| 0 <= i < |entries| && entries[i].key == StrKey(k);
      assert InMap(entries[i], n) && Exact(entries[i]);
      assert Norm(entries[i].value) == Ok(m[k]);
    }
    forall k | k in n ensures k in m {
      var i :| 0 <= i < |entries| && entries[i].key == StrKey(k);
    }
  }

  // Read as JSON, the canonical text of a value says what the value says.
  lemma {:induction false} CanonicalReads(v: Py)
    requires WellFormed(v) && CanonicalJson(v).Ok?
    ensures var read := ReadValue(CanonicalJson(v).value);
            read.Some? && read.value.1 == "" && SaysSame(v, read.value.0)
  {
    hide ReadValue, SaysSame, Norm;
    PrintRoundTrip(Norm(v).value);
    NormExact(v, Norm(v).value);
  }
}
