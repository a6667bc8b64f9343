// core/B_learning/approval.py: what an index means to the patch interpreter, written out for every list
// and every number.

module PatchIndices {
  import opened Basics
  import opened JsonModel
  import opened Text
  import opened Patch
  import opened PatchRewrites

  // ----- numbers as tokens -----

  // The k-th item from the end.
  function FromEnd(k: nat): string {
    "-" + Digits(k)
  }

  function Minus(k: nat): int {
    0 - k as int
  }

  lemma {:induction false} FromEndParses(k: nat)
    ensures ParseInt(FromEnd(k)) == Some(Minus(k)) && FromEnd(k) != "-" && FromEnd(k) != ""
  {
    assert Digits(k) != [] && Digits(k)[0] in Digits(k);
    ParseNegative(k, Minus(k));
  }

  lemma DigitsParse(i: nat)
    ensures ParseInt(Digits(i)) == Some(i) && Digits(i) != "-" && Digits(i) != ""
  {
    ParseIntDigits(i);
    assert Digits(i)[0] in Digits(i);
  }

  lemma {:induction false} DashIsNoNumber()
    ensures ParseInt("-") == None
  {
    var s := "-";
    assert s[0] == '-' && s[1..] == [] && !IsSpace(s[0]);
    StripNothing(s);
  }

  // ----- adding -----

  // list.insert: a negative index counts from the end, and one out of range means the nearest end.
  lemma {:induction false} AddToList(items: seq<Json>, token: string, v: Json)
    ensures token == "-" ==> EditParent(Arr(items), token, Insert(v)) == Ok(Arr(items + [v]))
    ensures forall i: nat | i <= |items| && token == Digits(i) ::
              EditParent(Arr(items), token, Insert(v)) == Ok(Arr(items[..i] + [v] + items[i..]))
    ensures forall i: nat | i >= |items| && token == Digits(i) :: EditParent(Arr(items), token, Insert(v)) == Ok(Arr(items + [v]))
    ensures forall k: nat | 0 < k <= |items| && token == FromEnd(k) ::
              EditParent(Arr(items), token, Insert(v)) == Ok(Arr(items[..|items| - k] + [v] + items[|items| - k..]))
    ensures forall k: nat | k > |items| && token == FromEnd(k) :: EditParent(Arr(items), token, Insert(v)) == Ok(Arr([v] + items))
    ensures token != "-" && ParseInt(token).None? ==> EditParent(Arr(items), token, Insert(v)).Err?
  {
    hide ParseInt, Digits, FromEnd;
    var n := |items|;
    assert items[..n] + [v] + items[n..] == items + [v] && items[..0] + [v] + items[0..] == [v] + items;
    forall i: nat | token == Digits(i) ensures ParseInt(token) == Some(i) && token != "-" { DigitsParse(i); }
    forall k: nat | token == FromEnd(k) ensures ParseInt(token) == Some(Minus(k)) && token != "-" { FromEndParses(k); }
  }

  // ----- finding, replacing and removing -----

  // items[i], with i counted from the end when negative; out of range is an error, not the nearest end.
  ghost predicate Reaches(items: seq<Json>, token: string, at: Option<nat>) {
    match at
    case None => Child(Arr(items), token).Err? && (forall v :: EditParent(Arr(items), token, Assign(v)).Err?)
                 && EditParent(Arr(items), token, Delete).Err?
    case Some(i) =>
      && i < |items| && Child(Arr(items), token) == Ok(items[i])
      && (forall v :: EditParent(Arr(items), token, Assign(v)) == Ok(Arr(items[..i] + [v] + items[i + 1..])))
      && EditParent(Arr(items), token, Delete) == Ok(Arr(items[..i] + items[i + 1..]))
  }

  lemma {:induction false} ReachInList(items: seq<Json>, token: string)
    ensures forall i: nat | token == Digits(i) :: Reaches(items, token, if i < |items| then Some(i) else None)
    ensures forall k: nat | k > 0 && token == FromEnd(k) :: Reaches(items, token, if k <= |items| then Some(|items| - k) else None)
    ensures ParseInt(token).None? ==> Reaches(items, token, None)
    ensures token == "-" ==> Reaches(items, token, None)
  {
    hide ParseInt, Digits, FromEnd;
    forall i: nat | i < |items|, v: Json ensures items[i := v] == items[..i] + [v] + items[i + 1..] {}
    forall i: nat | token == Digits(i) ensures ParseInt(token) == Some(i) { DigitsParse(i); }
    forall k: nat | token == FromEnd(k) ensures ParseInt(token) == Some(Minus(k)) { FromEndParses(k); }
    DashIsNoNumber();
  }

  // ----- as an operation of a patch -----

  // "add" below a key of the document.
  lemma {:induction false} AddOperation(key: string, items: seq<Json>, k: nat, v: Json)
    requires key != "" && k > 0
    ensures var n := |items|;
            Apply(Single(key, Arr(items)), [Make([key, FromEnd(k)], Insert(v))])
            == Ok(Single(key, Arr(if k <= n then items[..n - k] + [v] + items[n - k..] else [v] + items)))
  {
    hide ParseInt, Digits, FromEnd, Make, Step, EditParent;
    FromEndParses(k);
    AddToList(items, FromEnd(k), v);
    var doc, op := Single(key, Arr(items)), Make([key, FromEnd(k)], Insert(v));
    MakeRuns(doc, [key, FromEnd(k)], Insert(v));
    EditBelow(key, Arr(items), FromEnd(k), Insert(v));
    assert [op][1..] == [] && Apply(doc, [op]) == if Step(doc, op).Ok? then Apply(Step(doc, op).value, []) else Err;
  }

  lemma EditBelow(key: string, list: Json, token: string, edit: Edit)
    requires EditParent(list, token, edit).Ok?
    ensures EditAt(Single(key, list), [key, token], edit) == Ok(Single(key, EditParent(list, token, edit).value))
  {
    hide EditParent;
    assert [key, token][1..] == [token];
    var changed := EditParent(list, token, edit).value;
    assert map[key := list][key := changed] == map[key := changed];
  }
}
