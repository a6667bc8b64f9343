// core/learning/proposals.py and core/B_learning/approval.py: exactly which operations stay within the
// allowed prefixes.

module AllowlistExact {
  import opened Basics
  import opened JsonModel
  import opened Text
  import opened Pointer
  import opened Patch
  import opened Allowlist

  // The prefix agrees with the tokens as far as both go, and has only "*" beyond.
  ghost predicate Covers(pref: seq<string>, p: seq<string>) {
    forall i | 0 <= i < |pref| :: pref[i] == "*" || (i < |p| && Unescape(pref[i]) == p[i])
  }

  ghost predicate Covered(p: seq<string>, prefixes: seq<string>) {
    exists k | 0 <= k < |prefixes| :: StartsWith(prefixes[k], "/") && Covers(Segments(prefixes[k]), p)
  }

  // ----- it is enough -----

  function Rest(p: seq<string>): seq<string> {
    if p == [] then [] else p[1..]
  }

  lemma CoversRest(pref: seq<string>, p: seq<string>)
    requires pref != [] && Covers(pref, p)
    ensures Covers(pref[1..], Rest(p))
    ensures pref[0] == "*" || (p != [] && Unescape(pref[0]) == p[0])
  {
    hide Unescape;
    forall i | 0 <= i < |pref[1..]|
      ensures pref[1..][i] == "*" || (i < |Rest(p)| && Unescape(pref[1..][i]) == Rest(p)[i])
    {
      assert pref[1..][i] == pref[i + 1];
      assert pref[i + 1] == "*" || (i + 1 < |p| && Unescape(pref[i + 1]) == p[i + 1]);
    }
  }

  // What overlaps a covered location is related to the prefix.
  lemma {:induction false} CoversRelates(at: Result<Json>, pref: seq<string>, p: seq<string>, q: seq<string>)
    requires Covers(pref, p) && Overlap(at, p, q)
    ensures Related(at, pref, q)
    decreases |q|
  {
    hide Unescape, Below, Covers, SameChild;
    if pref != [] && q != [] {
      CoversRest(pref, p);
      CoversRelates(Below(at, q[0]), pref[1..], Rest(p), q[1..]);
    }
  }

  // An edit changes nothing at a location that does not overlap the container it edits.
  lemma {:induction false} ContainerFrame(doc: Json, p: seq<string>, edit: Edit, q: seq<string>)
    requires p != [] && EditAt(doc, p, edit).Ok?
    requires !Overlap(Ok(doc), p[..|p| - 1], q)
    ensures Walk(EditAt(doc, p, edit).value, q) == Walk(doc, q)
    ensures SameShape(Ok(doc), EditAt(doc, p, edit), q)
    decreases |p|
  {
    hide EditParent, Position, ListLength, SameChild;
    var c := Child(doc, p[0]).value;
    var c' := EditAt(c, p[1..], edit).value;
    WithChildFrame(doc, p[0], c', q[0]);
    assert p[..|p| - 1][1..] == p[1..][..|p[1..]| - 1];
    if SameChild(Ok(doc), p[0], q[0]) {
      ContainerFrame(c, p[1..], edit, q[1..]);
    } else {
      ShapeOfSame(Child(doc, q[0]), q[1..]);
    }
  }

  // The guard of one operation, on the tokens the interpreter reads: they are covered and no list is
  // edited but by replacing an item, or the container they end in is covered.
  ghost predicate Guarded(doc: Json, p: seq<string>, edit: Edit, prefixes: seq<string>)
    requires p != []
  {
    || (Covered(p, prefixes) && ReplacesInLists(doc, p, edit))
    || Covered(p[..|p| - 1], prefixes)
  }

  lemma {:induction false} GuardedEdit(doc: Json, p: seq<string>, edit: Edit, prefixes: seq<string>, q: seq<string>)
    requires p != [] && EditAt(doc, p, edit).Ok? && Guarded(doc, p, edit, prefixes)
    requires !RelatedToAny(doc, prefixes, q)
    ensures Walk(EditAt(doc, p, edit).value, q) == Walk(doc, q)
    ensures SameShape(Ok(doc), EditAt(doc, p, edit), q)
  {
    hide EditAt, SameShape, Overlap, Related, Covers, Segments, Walk;
    if Covered(p[..|p| - 1], prefixes) {
      var k :| 0 <= k < |prefixes| && StartsWith(prefixes[k], "/") && Covers(Segments(prefixes[k]), p[..|p| - 1]);
      if Overlap(Ok(doc), p[..|p| - 1], q) { CoversRelates(Ok(doc), Segments(prefixes[k]), p[..|p| - 1], q); }
      ContainerFrame(doc, p, edit, q);
    } else {
      var k :| 0 <= k < |prefixes| && StartsWith(prefixes[k], "/") && Covers(Segments(prefixes[k]), p);
      if Overlap(Ok(doc), p, q) { CoversRelates(Ok(doc), Segments(prefixes[k]), p, q); }
      EditFrame(doc, p, edit, q);
    }
  }

  lemma {:induction false} UnrelatedStays(a: Json, b: Json, prefixes: seq<string>, q: seq<string>)
    requires SameShape(Ok(a), Ok(b), q) && !RelatedToAny(a, prefixes, q)
    ensures !RelatedToAny(b, prefixes, q)
  {
    hide SameShape, Related, Segments;
    forall j | 0 <= j < |prefixes|
      ensures Related(Ok(a), Segments(prefixes[j]), q) <==> Related(Ok(b), Segments(prefixes[j]), q)
    {
      RelatedByShape(Ok(a), Ok(b), Segments(prefixes[j]), q);
    }
  }

  // Every operation is guarded as the patch runs.
  ghost predicate AllGuarded(doc: Json, ops: seq<Json>, prefixes: seq<string>)
    decreases |ops|
  {
    ops != [] && Step(doc, ops[0]).Ok? ==>
      && Guarded(doc, SplitPointer(Decode(ops[0]).value.path).value, Decode(ops[0]).value.edit, prefixes)
      && AllGuarded(Step(doc, ops[0]).value, ops[1..], prefixes)
  }

  // A guarded patch leaves every location unrelated to the prefixes with the value it had, or absent.
  lemma {:induction false} GuardedFrame(doc: Json, ops: seq<Json>, prefixes: seq<string>, q: seq<string>)
    requires Apply(doc, ops).Ok? && AllGuarded(doc, ops, prefixes)
    requires !RelatedToAny(doc, prefixes, q)
    ensures Walk(Apply(doc, ops).value, q) == Walk(doc, q)
    decreases |ops|
  {
    hide EditAt, Guarded, RelatedToAny, SplitPointer, Decode, Walk, SameShape;
    if ops != [] {
      var d, next := Decode(ops[0]).value, Step(doc, ops[0]).value;
      GuardedEdit(doc, SplitPointer(d.path).value, d.edit, prefixes, q);
      UnrelatedStays(doc, next, prefixes, q);
      GuardedFrame(next, ops[1..], prefixes, q);
    }
  }

  // ----- it is needed -----

  // Dicts within dicts along a path.
  function Nest(q: seq<string>, leaf: Json): Json {
    if q == [] then leaf else Obj(map[q[0] := Nest(q[1..], leaf)])
  }

  lemma {:induction false} NestWalk(q: seq<string>, leaf: Json)
    ensures Walk(Nest(q, leaf), q) == Ok(leaf)
  {
    if q != [] { NestWalk(q[1..], leaf); }
  }

  lemma {:induction false} NestPart(p: seq<string>, zs: seq<string>, leaf: Json)
    ensures Walk(Nest(p + zs, leaf), p) == Ok(Nest(zs, leaf))
  {
    if p == [] {
      assert p + zs == zs;
    } else {
      assert (p + zs)[1..] == p[1..] + zs;
      NestPart(p[1..], zs, leaf);
    }
  }

  lemma {:induction false} NestRelated(pref: seq<string>, q: seq<string>, leaf: Json)
    requires |pref| <= |q| && Related(Ok(Nest(q, leaf)), pref, q)
    ensures Covers(pref, q)
  {
    hide Unescape;
    if pref != [] {
      NestRelated(pref[1..], q[1..], leaf);
      forall i | 0 <= i < |pref| ensures pref[i] == "*" || (i < |q| && Unescape(pref[i]) == q[i]) {
        if i > 0 {
          assert pref[i] == pref[1..][i - 1] && q[i] == q[1..][i - 1];
        }
      }
    }
  }

  // What stands below the edited location afterwards.
  function Underneath(edit: Edit, zs: seq<string>): Result<Json> {
    match edit
    case Insert(v) => Walk(v, zs)
    case Assign(v) => Walk(v, zs)
    case Delete => Err
  }

  lemma {:induction false} NestEdit(p: seq<string>, zs: seq<string>, leaf: Json, edit: Edit)
    requires p != []
    ensures EditAt(Nest(p + zs, leaf), p, edit).Ok?
    ensures Walk(EditAt(Nest(p + zs, leaf), p, edit).value, p + zs) == Underneath(edit, zs)
  {
    hide EditAt, EditParent, Walk, Underneath;
    assert (p + zs)[1..] == p[1..] + zs && (p + zs)[0] == p[0];
    if |p| == 1 {
      assert p[1..] + zs == zs && p == [p[0]];
      NestEditLast(p[0], p + zs, Nest(zs, leaf), edit);
    } else {
      NestEdit(p[1..], zs, leaf, edit);
      var below := Nest(p[1..] + zs, leaf);
      EditInDict(p[0], below, p, edit);
      WalkInDict(p[0], EditAt(below, p[1..], edit).value, p + zs);
    }
  }

  lemma EditInDict(key: string, below: Json, p: seq<string>, edit: Edit)
    requires |p| > 1 && p[0] == key && EditAt(below, p[1..], edit).Ok?
    ensures EditAt(Obj(map[key := below]), p, edit) == Ok(Obj(map[key := EditAt(below, p[1..], edit).value]))
  {
    hide EditParent;
    var changed := EditAt(below, p[1..], edit).value;
    assert map[key := below][key := changed] == map[key := changed];
  }

  lemma WalkInDict(key: string, below: Json, q: seq<string>)
    requires q != [] && q[0] == key
    ensures Walk(Obj(map[key := below]), q) == Walk(below, q[1..])
  {
  }

  lemma NestEditLast(key: string, q: seq<string>, below: Json, edit: Edit)
    requires q != [] && q[0] == key
    ensures EditAt(Obj(map[key := below]), [key], edit).Ok?
    ensures Walk(EditAt(Obj(map[key := below]), [key], edit).value, q) == Underneath(edit, q[1..])
  {
  }

  lemma {:induction false} NestIsDict(p: seq<string>, zs: seq<string>, leaf: Json, edit: Edit)
    requires p != []
    ensures ReplacesInLists(Nest(p + zs, leaf), p, edit)
  {
    var n := |p| - 1;
    assert p[..n] + ([p[n]] + zs) == p + zs;
    NestPart(p[..n], [p[n]] + zs, leaf);
  }

  // A length beyond all segments, and beyond the number of segments.
  function Beyond(segs: seq<string>): nat {
    if segs == [] then 0 else 1 + |Unescape(segs[0])| + Beyond(segs[1..])
  }

  lemma {:induction false} BeyondAll(segs: seq<string>)
    ensures |segs| <= Beyond(segs) && forall i | 0 <= i < |segs| :: |Unescape(segs[i])| < Beyond(segs)
  {
    if segs != [] {
      BeyondAll(segs[1..]);
      assert forall i | 0 < i < |segs| :: segs[i] == segs[1..][i - 1];
    }
  }

  function BeyondPrefixes(prefixes: seq<string>): nat {
    if prefixes == [] then 0 else Beyond(Segments(prefixes[0])) + BeyondPrefixes(prefixes[1..])
  }

  lemma {:induction false} BeyondPrefixesAll(prefixes: seq<string>, k: nat)
    requires k < |prefixes|
    ensures Beyond(Segments(prefixes[k])) <= BeyondPrefixes(prefixes)
  {
    if k > 0 { BeyondPrefixesAll(prefixes[1..], k - 1); }
  }

  function Long(n: nat): (z: string)
    ensures |z| == n
  {
    if n == 0 then "" else "z" + Long(n - 1)
  }

  // Far below the tokens, under names no prefix has, nothing is covered that was not before.
  lemma {:induction false} FreshNotCovered(pref: seq<string>, p: seq<string>, z: string, n: nat)
    requires !Covers(pref, p) && |pref| <= n && forall i | 0 <= i < |pref| :: |Unescape(pref[i])| < |z|
    ensures !Covers(pref, p + Copies(z, n))
  {
    hide Unescape;
    var q := p + Copies(z, n);
    var i :| 0 <= i < |pref| && pref[i] != "*" && !(i < |p| && Unescape(pref[i]) == p[i]);
    if i < |p| {
      assert q[i] == p[i];
    } else {
      assert q[i] == Copies(z, n)[i - |p|] == z;
    }
  }

  // A leaf that an edit does not leave behind.
  function OtherThan(r: Result<Json>): Json {
    if r == Ok(Null) then Bool(true) else Null
  }

  function FreshTail(prefixes: seq<string>): seq<string> {
    Copies(Long(BeyondPrefixes(prefixes)), BeyondPrefixes(prefixes))
  }

  lemma {:induction false} FreshUnrelated(p: seq<string>, prefixes: seq<string>, leaf: Json)
    requires !Covered(p, prefixes)
    ensures !RelatedToAny(Nest(p + FreshTail(prefixes), leaf), prefixes, p + FreshTail(prefixes))
  {
    hide Unescape, Segments, Related, Covers, Copies, Long, Nest;
    var n := BeyondPrefixes(prefixes);
    var q := p + FreshTail(prefixes);
    forall k | 0 <= k < |prefixes| && StartsWith(prefixes[k], "/") ensures !Related(Ok(Nest(q, leaf)), Segments(prefixes[k]), q) {
      var pref := Segments(prefixes[k]);
      BeyondPrefixesAll(prefixes, k);
      BeyondAll(pref);
      FreshNotCovered(pref, p, Long(n), n);
      if Related(Ok(Nest(q, leaf)), pref, q) { NestRelated(pref, q, leaf); }
    }
  }

  // Every location unrelated to the prefixes keeps its value or its absence, whatever the document,
  // as long as no list is edited but by replacing an item.
  ghost predicate Framed(p: seq<string>, edit: Edit, prefixes: seq<string>)
    requires p != []
  {
    forall doc, q | ReplacesInLists(doc, p, edit) && !RelatedToAny(doc, prefixes, q) :: Kept(doc, p, edit, q)
  }

  // The edit fails or leaves the location as it was.
  ghost predicate Kept(doc: Json, p: seq<string>, edit: Edit, q: seq<string>)
    requires p != []
  {
    var r := if !edit.Insert? && Walk(doc, p).Err? then Err else EditAt(doc, p, edit);
    r.Ok? ==> Walk(r.value, q) == Walk(doc, q)
  }

  // A fresh leaf far below the tokens escapes every prefix that does not cover them.
  lemma {:induction false} LeafEscapes(p: seq<string>, edit: Edit, prefixes: seq<string>)
    requires p != [] && !Covered(p, prefixes)
    ensures var zs := FreshTail(prefixes);
            var doc := Nest(p + zs, OtherThan(Underneath(edit, zs)));
            ReplacesInLists(doc, p, edit) && !RelatedToAny(doc, prefixes, p + zs) && !Kept(doc, p, edit, p + zs)
  {
    hide Nest, EditAt, RelatedToAny, Covered, FreshTail, ReplacesInLists;
    var zs := FreshTail(prefixes);
    var leaf := OtherThan(Underneath(edit, zs));
    NestIsDict(p, zs, leaf, edit);
    FreshUnrelated(p, prefixes, leaf);
    NestEdit(p, zs, leaf, edit);
    NestWalk(p + zs, leaf);
    NestPart(p, zs, leaf);
  }

  // An operation stays within the prefixes, over all documents in which it edits no list but by
  // replacing an item, if and only if some prefix covers the tokens the interpreter reads.
  lemma {:induction false} FramedExact(p: seq<string>, edit: Edit, prefixes: seq<string>)
    requires p != []
    ensures Framed(p, edit, prefixes) <==> Covered(p, prefixes)
  {
    hide EditAt, RelatedToAny, Covered, FreshTail, Nest, ReplacesInLists, Walk;
    if Covered(p, prefixes) {
      forall doc, q | ReplacesInLists(doc, p, edit) && !RelatedToAny(doc, prefixes, q) ensures Kept(doc, p, edit, q) {
        if EditAt(doc, p, edit).Ok? { GuardedEdit(doc, p, edit, prefixes, q); }
      }
    } else {
      LeafEscapes(p, edit, prefixes);
    }
  }

  // A path the validator allows is covered as long as it has no empty segment.
  lemma {:induction false} AllowedIsCovered(path: string, prefixes: seq<string>)
    requires AllowedPath(path, prefixes) && NoEmptySegment(path) && path != "/"
    ensures SplitPointer(path).Ok? && Covered(SplitPointer(path).value, prefixes)
  {
    hide Segments, Unescape;
    TokensAreSegments(path);
    var k :| 0 <= k < |prefixes| && Allows(prefixes[k], path);
    assert Covers(Segments(prefixes[k]), UnescapeAll(Segments(path)));
  }
}
