// core/learning/proposals.py and core/B_learning/approval.py: exactly which operations stay within the
// allowed prefixes when lists may be edited in any way.

module AllowlistShifts {
  import opened Basics
  import opened JsonModel
  import opened Text
  import opened Pointer
  import opened Patch
  import opened Allowlist
  import opened AllowlistExact

  // The token can name a place of a list for the edit.
  predicate NamesPlace(token: string, edit: Edit) {
    ParseInt(token).Some? || (edit.Insert? && token == "-")
  }

  // What has to be covered: the container, where the edit can shift the items of a list.
  function Target(p: seq<string>, edit: Edit): seq<string>
    requires p != []
  {
    if !edit.Assign? && NamesPlace(p[|p| - 1], edit) then p[..|p| - 1] else p
  }

  // ----- it is enough -----

  lemma {:induction false} NoPlaceNoList(doc: Json, p: seq<string>, edit: Edit)
    requires p != [] && EditAt(doc, p, edit).Ok?
    requires edit.Assign? || !NamesPlace(p[|p| - 1], edit)
    ensures ReplacesInLists(doc, p, edit)
    decreases |p|
  {
    hide EditParent, Position, ParseInt, InsertPosition;
    if |p| == 1 {
      assert p[..0] == [];
      NoPlace(doc, p[0], edit);
    } else {
      hide NamesPlace;
      var c, front := Child(doc, p[0]).value, p[..|p| - 1];
      NoPlaceNoList(c, p[1..], edit);
      assert front[1..] == p[1..][..|p[1..]| - 1] && front[0] == p[0];
    }
  }

  lemma NoPlace(parent: Json, token: string, edit: Edit)
    requires EditParent(parent, token, edit).Ok? && (edit.Assign? || !NamesPlace(token, edit))
    ensures edit.Assign? || !parent.Arr?
  {
  }

  // ----- numbers as tokens -----

  function Magnitude(token: string): nat {
    match ParseInt(token)
    case Some(i) => if i < 0 then -i else i
    case None => 0
  }

  // A bound on the numbers that segments may stand for.
  function Reach(segs: seq<string>): nat {
    if segs == [] then 0 else Magnitude(Unescape(segs[0])) + Reach(segs[1..])
  }

  lemma {:induction false} ReachAll(segs: seq<string>)
    ensures forall i | 0 <= i < |segs| :: Magnitude(Unescape(segs[i])) <= Reach(segs)
  {
    hide Magnitude, Unescape;
    if segs != [] {
      ReachAll(segs[1..]);
      assert forall i | 0 < i < |segs| :: segs[i] == segs[1..][i - 1];
    }
  }

  function ReachPrefixes(prefixes: seq<string>): nat {
    if prefixes == [] then 0 else Reach(Segments(prefixes[0])) + ReachPrefixes(prefixes[1..])
  }

  lemma {:induction false} ReachPrefixesAll(prefixes: seq<string>, k: nat)
    requires k < |prefixes|
    ensures Reach(Segments(prefixes[k])) <= ReachPrefixes(prefixes)
  {
    hide Reach, Segments;
    if k > 0 { ReachPrefixesAll(prefixes[1..], k - 1); }
  }

  // ----- a list with a place no prefix names -----

  // Lists of 2b + 4 items, with the item b + 1 out of reach of numbers up to b, from either end.
  function Size(b: nat): nat {
    2 * b + 4
  }

  function Middle(b: nat): nat {
    b + 1
  }

  // A token for the middle, counted from the end that the edit does not touch.
  function Probe(b: nat, fromFront: bool): string {
    if fromFront then Digits(Middle(b)) else "-" + Digits(Size(b) - Middle(b))
  }

  lemma ProbeParses(b: nat, fromFront: bool)
    ensures ParseInt(Probe(b, fromFront)) == Some(if fromFront then Middle(b) else Middle(b) - Size(b))
  {
    hide ParseInt, Digits;
    ParseIntDigits(Middle(b));
    ParseNegative(Size(b) - Middle(b), Middle(b) - Size(b));
  }

  lemma ProbeIsFresh(b: nat, fromFront: bool, items: seq<Json>, token: string)
    requires |items| == Size(b) && Magnitude(token) <= b
    ensures !SameChild(Ok(Arr(items)), token, Probe(b, fromFront))
    ensures Position(|items|, Probe(b, fromFront)) == Some(Middle(b))
  {
    hide ParseInt, Digits, Probe;
    ProbeParses(b, fromFront);
  }

  function Changed(edit: Edit, items: seq<Json>, i: nat): seq<Json>
    requires i <= |items| && (edit.Delete? ==> i < |items|)
  {
    match edit
    case Insert(v) => items[..i] + [v] + items[i..]
    case Assign(v) => items
    case Delete => items[..i] + items[i + 1..]
  }

  function Place(b: nat, token: string, edit: Edit): Option<nat> {
    if edit.Insert? then InsertPosition(Size(b), token) else Position(Size(b), token)
  }

  lemma PlaceNearAnEnd(b: nat, token: string, edit: Edit)
    requires !edit.Assign? && NamesPlace(token, edit) && Magnitude(token) <= b
    ensures Place(b, token, edit).Some?
    ensures var i := Place(b, token, edit).value;
            i <= Size(b) && (edit.Delete? ==> i < Size(b)) && (i <= b || i >= Size(b) - b)
  {
    hide ParseInt;
  }

  lemma EditIsChange(b: nat, token: string, edit: Edit, items: seq<Json>)
    requires !edit.Assign? && NamesPlace(token, edit) && Magnitude(token) <= b && |items| == Size(b)
    ensures Place(b, token, edit).Some? && (edit.Delete? ==> Child(Arr(items), token).Ok?)
    ensures var i := Place(b, token, edit).value;
            && i <= |items| && (edit.Delete? ==> i < |items|)
            && EditParent(Arr(items), token, edit) == Ok(Arr(Changed(edit, items, i)))
  {
    PlaceNearAnEnd(b, token, edit);
    hide Position, InsertPosition, NamesPlace, Magnitude;
  }

  // The probe names another item after the edit.
  lemma ProbeMoves(b: nat, token: string, edit: Edit, items: seq<Json>) returns (fromFront: bool, j: nat)
    requires !edit.Assign? && NamesPlace(token, edit) && Magnitude(token) <= b && |items| == Size(b)
    ensures j < |items| && j != Middle(b) && EditParent(Arr(items), token, edit).Ok?
    ensures Child(EditParent(Arr(items), token, edit).value, Probe(b, fromFront)) == Ok(items[j])
  {
    hide Probe, Place, NamesPlace, Magnitude, EditParent, Position, Changed, Child;
    PlaceNearAnEnd(b, token, edit);
    EditIsChange(b, token, edit, items);
    var i := Place(b, token, edit).value;
    fromFront := i <= b;
    j := if edit.Insert? == fromFront then Middle(b) - 1 else Middle(b) + 1;
    ChangedItem(b, edit, items, i, fromFront, j);
    ProbeFinds(b, fromFront, Changed(edit, items, i));
  }

  // Where the probe leads in a list of about that size.
  lemma ProbeFinds(b: nat, fromFront: bool, after: seq<Json>)
    requires Size(b) - 1 <= |after| <= Size(b) + 1
    ensures var at := if fromFront then Middle(b) else Middle(b) + |after| - Size(b);
            0 <= at < |after| && Child(Arr(after), Probe(b, fromFront)) == Ok(after[at])
  {
    hide ParseInt, Digits, Probe;
    ProbeParses(b, fromFront);
  }

  lemma ChangedItem(b: nat, edit: Edit, items: seq<Json>, i: nat, fromFront: bool, j: nat)
    requires |items| == Size(b) && !edit.Assign? && i <= |items| && (edit.Delete? ==> i < |items|)
    requires if fromFront then i <= b else i >= Size(b) - b
    requires j == if edit.Insert? == fromFront then Middle(b) - 1 else Middle(b) + 1
    ensures var after := Changed(edit, items, i);
            var at := if fromFront then Middle(b) else Middle(b) + |after| - |items|;
            0 <= at < |after| && after[at] == items[j] && Size(b) - 1 <= |after| <= Size(b) + 1
  {
  }

  // ----- it is needed -----

  function Leaves(zs: seq<string>, n: nat): (items: seq<Json>)
    ensures |items| == n && forall i | 0 <= i < n :: items[i] == Nest(zs, Int(i))
  {
    if n == 0 then [] else Leaves(zs, n - 1) + [Nest(zs, Int(n - 1))]
  }

  lemma {:induction false} AllStars(pref: seq<string>, z: string, n: nat)
    requires Covers(pref, Copies(z, n)) && forall i | 0 <= i < |pref| :: |Unescape(pref[i])| < |z|
    ensures forall i | 0 <= i < |pref| :: pref[i] == "*"
  {
    hide Unescape;
    assert forall i | 0 <= i < |pref| && i < n :: Copies(z, n)[i] == z;
  }

  lemma {:induction false} ListRelated(pref: seq<string>, front: seq<string>, t: string, zs: seq<string>, items: seq<Json>, m: nat, z: string)
    requires m < |items| && Child(Arr(items), t) == Ok(items[m]) && items[m] == Nest(zs, Int(m))
    requires zs == Copies(z, |zs|) && |pref| <= |zs|
    requires forall i | 0 <= i < |pref| :: |Unescape(pref[i])| < |z| && !SameChild(Ok(Arr(items)), Unescape(pref[i]), t)
    requires Related(Ok(Nest(front, Arr(items))), pref, front + [t] + zs)
    ensures Covers(pref, front)
    decreases |front|
  {
    hide Unescape, Position;
    var q := front + [t] + zs;
    if pref != [] {
      assert forall i | 0 <= i < |pref[1..]| :: pref[1..][i] == pref[i + 1];
      if front == [] {
        assert q == [t] + zs && q[1..] == zs;
        NestRelated(pref[1..], zs, Int(m));
        AllStars(pref[1..], z, |zs|);
        assert forall i | 0 < i < |pref| :: pref[i] == pref[1..][i - 1];
      } else {
        assert q[1..] == front[1..] + [t] + zs && q[0] == front[0];
        ListRelated(pref[1..], front[1..], t, zs, items, m, z);
        forall i | 0 <= i < |pref| ensures pref[i] == "*" || (i < |front| && Unescape(pref[i]) == front[i]) {
          if i > 0 { assert pref[i] == pref[1..][i - 1]; }
        }
      }
    }
  }

  lemma {:induction false} NestReplace(front: seq<string>, last: string, container: Json, edit: Edit)
    requires EditParent(container, last, edit).Ok?
    ensures EditAt(Nest(front, container), front + [last], edit) == Ok(Nest(front, EditParent(container, last, edit).value))
  {
    hide EditParent;
    var p := front + [last];
    if front == [] {
      assert p == [last];
    } else {
      assert p[1..] == front[1..] + [last] && p[0] == front[0] && |p| > 1;
      NestReplace(front[1..], last, container, edit);
      hide EditAt;
      EditInDict(front[0], Nest(front[1..], container), p, edit);
    }
  }

  lemma {:induction false} NestAppend(front: seq<string>, rest: seq<string>, leaf: Json)
    ensures Walk(Nest(front, leaf), front + rest) == Walk(leaf, rest)
  {
    if front == [] {
      assert front + rest == rest;
    } else {
      assert (front + rest)[1..] == front[1..] + rest;
      NestAppend(front[1..], rest, leaf);
    }
  }

  lemma WalkProbe(list: Json, t: string, zs: seq<string>, item: Json, x: Json)
    requires Child(list, t) == Ok(item) && Walk(item, zs) == Ok(x)
    ensures Walk(list, [t] + zs) == Ok(x)
  {
    assert ([t] + zs)[1..] == zs;
  }

  // An edit below nested dicts after which a path leads elsewhere.
  lemma {:induction false} ListNotKept(front: seq<string>, last: string, edit: Edit, list: Json, rest: seq<string>, x: Json, y: Json)
    requires EditParent(list, last, edit).Ok? && (!edit.Insert? ==> Child(list, last).Ok?)
    requires Walk(list, rest) == Ok(x) && Walk(EditParent(list, last, edit).value, rest) == Ok(y) && x != y
    ensures !Kept(Nest(front, list), front + [last], edit, front + rest)
  {
    hide EditParent, EditAt, Nest, Child;
    NestAppend(front, rest, list);
    NestAppend(front, rest, EditParent(list, last, edit).value);
    NestAppend(front, [last], list);
    NestReplace(front, last, list, edit);
    WalkOneToken(list, last);
  }

  lemma WalkOneToken(list: Json, token: string)
    ensures Walk(list, [token]).Ok? <==> Child(list, token).Ok?
  {
    assert [token][1..] == [];
  }

  // The probe leads below one item of the list before and another after.
  lemma {:induction false} ListMoves(front: seq<string>, last: string, edit: Edit, zs: seq<string>, b: nat)
    returns (fromFront: bool)
    requires !edit.Assign? && NamesPlace(last, edit) && Magnitude(last) <= b
    ensures !Kept(Nest(front, Arr(Leaves(zs, Size(b)))), front + [last], edit, front + [Probe(b, fromFront)] + zs)
  {
    hide Probe, NamesPlace, EditParent, Place, Kept, Nest, Walk;
    var items, j := Leaves(zs, Size(b)), 0;
    fromFront, j := ProbeMoves(b, last, edit, items);
    EditIsChange(b, last, edit, items);
    EmptyMagnitude();
    ProbeIsFresh(b, fromFront, items, "");
    hide Magnitude;
    var t, list, after := Probe(b, fromFront), Arr(items), EditParent(Arr(items), last, edit).value;
    NestWalk(zs, Int(Middle(b)));
    NestWalk(zs, Int(j));
    WalkProbe(list, t, zs, items[Middle(b)], Int(Middle(b)));
    WalkProbe(after, t, zs, items[j], Int(j));
    ListNotKept(front, last, edit, list, [t] + zs, Int(Middle(b)), Int(j));
    assert front + ([t] + zs) == front + [t] + zs;
  }

  lemma EmptyMagnitude()
    ensures Magnitude("") == 0
  {
  }

  function Bound(prefixes: seq<string>, last: string): nat {
    ReachPrefixes(prefixes) + Magnitude(last)
  }

  lemma {:induction false} ProbeUnrelated(front: seq<string>, prefixes: seq<string>, b: nat, fromFront: bool)
    requires !Covered(front, prefixes) && b >= ReachPrefixes(prefixes)
    ensures var zs := FreshTail(prefixes);
            !RelatedToAny(Nest(front, Arr(Leaves(zs, Size(b)))), prefixes, front + [Probe(b, fromFront)] + zs)
  {
    var zs := FreshTail(prefixes);
    var items, t, z := Leaves(zs, Size(b)), Probe(b, fromFront), Long(BeyondPrefixes(prefixes));
    ProbeIsFresh(b, fromFront, items, "");
    hide Unescape, Segments, Covers, Related, Long, Copies, Leaves, Nest, Probe, Magnitude;
    forall k | 0 <= k < |prefixes| && StartsWith(prefixes[k], "/")
      ensures !Related(Ok(Nest(front, Arr(items))), Segments(prefixes[k]), front + [t] + zs)
    {
      var pref := Segments(prefixes[k]);
      BeyondPrefixesAll(prefixes, k);
      BeyondAll(pref);
      ReachPrefixesAll(prefixes, k);
      ReachAll(pref);
      forall i | 0 <= i < |pref| ensures !SameChild(Ok(Arr(items)), Unescape(pref[i]), t) {
        ProbeIsFresh(b, fromFront, items, Unescape(pref[i]));
      }
      hide SameChild, Position;
      if Related(Ok(Nest(front, Arr(items))), pref, front + [t] + zs) {
        ListRelated(pref, front, t, zs, items, Middle(b), z);
      }
    }
  }

  // Every location unrelated to the prefixes keeps its value or its absence, whatever the document.
  ghost predicate FramedAnywhere(p: seq<string>, edit: Edit, prefixes: seq<string>)
    requires p != []
  {
    forall doc, q | !RelatedToAny(doc, prefixes, q) :: Kept(doc, p, edit, q)
  }

  // An operation stays within the prefixes, over all documents, if and only if some prefix covers its
  // tokens, or, where it can insert into a list or remove from one, the container they end in.
  lemma {:induction false} FramedAnywhereExact(p: seq<string>, edit: Edit, prefixes: seq<string>)
    requires p != []
    ensures FramedAnywhere(p, edit, prefixes) <==> Covered(Target(p, edit), prefixes)
  {
    var front, last := p[..|p| - 1], p[|p| - 1];
    assert p == front + [last];
    if Covered(Target(p, edit), prefixes) {
      forall doc, q | !RelatedToAny(doc, prefixes, q) ensures Kept(doc, p, edit, q) { TargetIsEnough(doc, p, edit, prefixes, q); }
    } else if Target(p, edit) == p {
      LeafEscapes(p, edit, prefixes);
    } else {
      ContainerEscapes(front, last, edit, prefixes);
    }
  }

  lemma {:induction false} TargetIsEnough(doc: Json, p: seq<string>, edit: Edit, prefixes: seq<string>, q: seq<string>)
    requires p != [] && Covered(Target(p, edit), prefixes) && !RelatedToAny(doc, prefixes, q)
    ensures Kept(doc, p, edit, q)
  {
    hide EditAt, RelatedToAny, Covered, ReplacesInLists, NamesPlace, Walk;
    if EditAt(doc, p, edit).Ok? {
      if Target(p, edit) == p { NoPlaceNoList(doc, p, edit); }
      GuardedEdit(doc, p, edit, prefixes, q);
    }
  }

  lemma {:induction false} ContainerEscapes(front: seq<string>, last: string, edit: Edit, prefixes: seq<string>)
    requires !edit.Assign? && NamesPlace(last, edit) && !Covered(front, prefixes)
    ensures !FramedAnywhere(front + [last], edit, prefixes)
  {
    hide NamesPlace, Magnitude, Covered, RelatedToAny, Kept, FreshTail, Leaves, Nest;
    var b, zs := Bound(prefixes, last), FreshTail(prefixes);
    var fromFront := ListMoves(front, last, edit, zs, b);
    ProbeUnrelated(front, prefixes, b, fromFront);
  }

  // ----- operations of a patch -----

  ghost predicate StepFramed(op: Json, prefixes: seq<string>) {
    forall doc, q | !RelatedToAny(doc, prefixes, q) :: StepKept(doc, op, q)
  }

  ghost predicate StepKept(doc: Json, op: Json, q: seq<string>) {
    Step(doc, op).Ok? ==> Walk(Step(doc, op).value, q) == Walk(doc, q)
  }

  // The same for an operation as it is read from a patch: whatever the document, it changes nothing
  // unrelated to the prefixes if and only if they cover the target of its tokens.  An operation that
  // cannot be read, or that has no tokens, changes nothing at all.
  lemma {:induction false} OperationExact(op: Json, prefixes: seq<string>)
    requires Decode(op).Ok? && SplitPointer(Decode(op).value.path).Ok? && SplitPointer(Decode(op).value.path).value != []
    ensures StepFramed(op, prefixes) <==> Covered(Target(SplitPointer(Decode(op).value.path).value, Decode(op).value.edit), prefixes)
  {
    var d := Decode(op).value;
    var p := SplitPointer(d.path).value;
    hide Covered, RelatedToAny, Target, SplitPointer, Decode, EditAt, Walk;
    FramedAnywhereExact(p, d.edit, prefixes);
    assert forall doc, q :: StepKept(doc, op, q) <==> Kept(doc, p, d.edit, q);
  }
}
