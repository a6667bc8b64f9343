// core/learning/proposals.py: why the guarantee of the path allowlist stops where list positions shift.

module AllowlistLists {
  import opened Basics
  import opened JsonModel
  import opened Text
  import opened Pointer
  import opened Patch
  import opened Allowlist

  // "/a/z"
  function TwoPath(a: string, z: string): string {
    "/" + (a + ("/" + z))
  }

  lemma StripTwo(a: string, z: string)
    requires Plain(a) && Plain(z)
    ensures StripSlash(TwoPath(a, z)) == a + ("/" + z)
  {
    var s := a + ("/" + z);
    assert s[0] == a[0] && a[0] in a;
    assert s[|s| - 1] == z[|z| - 1] && z[|z| - 1] in z;
    assert TwoPath(a, z)[1..] == s;
    assert StripSlashLeft(s) == s && StripSlashRight(s) == s;
    assert StripSlashLeft(TwoPath(a, z)) == s;
  }

  lemma SegmentsTwo(a: string, z: string)
    requires Plain(a) && Plain(z)
    ensures Segments(TwoPath(a, z)) == [a, z]
  {
    hide StripSlash;
    StripTwo(a, z);
    SplitFirst(a, z);
    SplitPiece(z, []);
    assert z + [] == z;
  }

  lemma TokensTwo(a: string, z: string)
    requires Plain(a) && Plain(z)
    ensures SplitPointer(TwoPath(a, z)) == Ok([a, z])
  {
    hide Segments, SplitPointer, Unescape;
    SegmentsTwo(a, z);
    TokensAreSegments(TwoPath(a, z));
    UnescapePlain(a);
    UnescapePlain(z);
    assert UnescapeAll([a, z]) == [a, z];
  }

  lemma DigitsArePlain(n: nat)
    ensures Plain(Digits(n)) && Digits(n) != "-"
  {
    DigitsLength(n);
    assert forall i | 0 <= i < |Digits(n)| :: Digits(n)[i] in Digits(n);
    assert Digits(n)[0] in Digits(n);
  }

  lemma Positions(n: nat, i: nat)
    requires i < n
    ensures InsertPosition(n, Digits(i)) == Some(i) && Position(n, Digits(i)) == Some(i)
    ensures Position(n, Digits(n)) == None && Position(n + 1, Digits(n)) == Some(n)
    ensures Digits(i) != Digits(n)
  {
    ParseIntDigits(i);
    ParseIntDigits(n);
    DigitsArePlain(i);
    hide ParseInt, Digits, Plain;
    if Digits(i) == Digits(n) { DigitsInjective(i, n); }
  }

  // Inserting moves the last item to a position that held nothing.
  lemma InsertShifts(items: seq<Json>, i: nat, v: Json)
    requires i < |items|
    ensures EditParent(Arr(items), Digits(i), Insert(v)) == Ok(Arr(items[..i] + [v] + items[i..]))
    ensures Child(Arr(items), Digits(|items|)).Err?
    ensures Child(Arr(items[..i] + [v] + items[i..]), Digits(|items|)) == Ok(items[|items| - 1])
    ensures !SameChild(Ok(Arr(items)), Digits(i), Digits(|items|))
  {
    hide Position, InsertPosition, Digits;
    Positions(|items|, i);
  }

  lemma NotRelatedDown(at: Result<Json>, a: string, t: string, z: string)
    requires t != "*" && !SameChild(Below(at, a), Unescape(t), z)
    ensures !Related(at, [a, t], [a, z])
  {
    hide SameChild, Unescape, Below;
    assert [a, t][1..] == [t] && [a, z][1..] == [z];
    assert !Related(Below(at, a), [t], [z]);
  }

  lemma NotRelatedTwo(a: string, items: seq<Json>, i: nat)
    requires Plain(a) && i < |items|
    ensures !RelatedToAny(Obj(map[a := Arr(items)]), [TwoPath(a, Digits(i))], [a, Digits(|items|)])
  {
    hide Digits, Segments, Related, SameChild, Unescape, TwoPath;
    DigitsArePlain(i);
    SegmentsTwo(a, Digits(i));
    UnescapePlain(Digits(i));
    InsertShifts(items, i, Null);
    NotRelatedDown(Ok(Obj(map[a := Arr(items)])), a, Digits(i), Digits(|items|));
  }

  lemma ListInsertEdits(a: string, items: seq<Json>, i: nat, v: Json, doc: Json, shifted: seq<Json>)
    requires i < |items| && doc == Obj(map[a := Arr(items)]) && shifted == items[..i] + [v] + items[i..]
    ensures EditAt(doc, [a, Digits(i)], Insert(v)) == Ok(Obj(map[a := Arr(shifted)]))
    ensures Walk(doc, [a, Digits(|items|)]).Err?
    ensures Walk(Obj(map[a := Arr(shifted)]), [a, Digits(|items|)]) == Ok(items[|items| - 1])
  {
    hide Digits, EditParent, SameChild, Position;
    var z := Digits(|items|);
    InsertShifts(items, i, v);
    assert [a, Digits(i)][1..] == [Digits(i)] && [a, z][1..] == [z] && [z][1..] == [];
    assert Walk(Arr(items), [z]).Err? && Walk(Arr(shifted), [z]) == Ok(items[|items| - 1]);
    assert doc.fields[a := Arr(shifted)] == map[a := Arr(shifted)];
  }

  lemma ListInsertAllowed(a: string, z: string, op: Json)
    requires Plain(a) && Plain(z) && op.Obj?
    requires Get(op.fields, "op") == Str("add") && Get(op.fields, "path") == Str(TwoPath(a, z))
    ensures ValidOps(Arr([op]), [TwoPath(a, z)])
  {
    hide Segments;
    var path := TwoPath(a, z);
    assert Allows(path, path) && [path][0] == path;
  }

  lemma ListInsertRuns(doc: Json, op: Json, path: string, tokens: seq<string>, v: Json)
    requires op.Obj? && Get(op.fields, "op") == Str("add") && Get(op.fields, "path") == Str(path)
    requires "value" in op.fields && op.fields["value"] == v
    requires |path| > 1 && SplitPointer(path) == Ok(tokens) && tokens != [] && EditAt(doc, tokens, Insert(v)).Ok?
    ensures Apply(doc, [op]) == EditAt(doc, tokens, Insert(v))
  {
    hide EditAt, SplitPointer;
    assert Decode(op) == Ok(Op(path, Insert(v)));
    assert Step(doc, op) == Run(doc, Op(path, Insert(v)));
  }

  lemma AddFields(path: string, v: Json)
    ensures var f := map["op" := Str("add"), "path" := Str(path), "value" := v];
            Get(f, "op") == Str("add") && Get(f, "path") == Str(path) && "value" in f && f["value"] == v
  {
  }

  // When lists are edited otherwise than by replacing items, the frame of the allowlist fails: with
  // only "/a/i" allowed, adding there shifts the items, and the last one turns up at a position the
  // prefix does not cover.
  lemma ListInsertEscapes(a: string, items: seq<Json>, i: nat, v: Json)
    requires Plain(a) && i < |items|
    ensures var doc := Obj(map[a := Arr(items)]);
            var path := TwoPath(a, Digits(i));
            var op := Obj(map["op" := Str("add"), "path" := Str(path), "value" := v]);
            var q := [a, Digits(|items|)];
            && ValidOps(Arr([op]), [path])
            && !RelatedToAny(doc, [path], q)
            && Walk(doc, q).Err?
            && Apply(doc, [op]).Ok? && Walk(Apply(doc, [op]).value, q) == Ok(items[|items| - 1])
  {
    hide *;
    var doc, path := Obj(map[a := Arr(items)]), TwoPath(a, Digits(i));
    var op := Obj(map["op" := Str("add"), "path" := Str(path), "value" := v]);
    DigitsArePlain(i);
    AddFields(path, v);
    TokensTwo(a, Digits(i));
    ListInsertAllowed(a, Digits(i), op);
    NotRelatedTwo(a, items, i);
    ListInsertEdits(a, items, i, v, doc, items[..i] + [v] + items[i..]);
    PathIsLong(a, Digits(i));
    ListInsertRuns(doc, op, path, [a, Digits(i)], v);
  }

  lemma PathIsLong(a: string, z: string)
    ensures |TwoPath(a, z)| > 1
  {
  }
}
