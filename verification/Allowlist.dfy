// core/learning/proposals.py: the path allowlist of patch proposals, and what it guarantees about
// the documents that apply_patch produces.

module Allowlist {
  import opened Basics
  import opened JsonModel
  import opened Text
  import opened Pointer
  import opened Patch

  // path.strip("/").split("/")
  function Segments(path: string): seq<string> {
    SplitSlash(StripSlash(path))
  }

  ghost predicate SegmentsMatch(pref: seq<string>, segs: seq<string>) {
    |pref| <= |segs| && forall i | 0 <= i < |pref| :: pref[i] == "*" || pref[i] == segs[i]
  }

  ghost predicate Allows(pref: string, path: string) {
    StartsWith(pref, "/") && SegmentsMatch(Segments(pref), Segments(path))
  }

  ghost predicate AllowedPath(path: string, prefixes: seq<string>) {
    StartsWith(path, "/") && exists k | 0 <= k < |prefixes| :: Allows(prefixes[k], path)
  }

  // _is_allowed_path
  method IsAllowedPath(path: string, prefixes: seq<string>) returns (allowed: bool)
    ensures allowed <==> AllowedPath(path, prefixes)
  {
    if !StartsWith(path, "/") {
      return false;
    }
    var segs := Segments(path);
    for k := 0 to |prefixes|
      invariant forall j | 0 <= j < k :: !Allows(prefixes[j], path)
    {
      if !StartsWith(prefixes[k], "/") {
        continue;
      }
      var pref := Segments(prefixes[k]);
      if |pref| > |segs| {
        continue;
      }
      var ok := true;
      for i := 0 to |pref|
        invariant ok
        invariant forall j | 0 <= j < i :: pref[j] == "*" || pref[j] == segs[j]
      {
        if pref[i] == "*" {
          continue;
        }
        if pref[i] != segs[i] {
          ok := false;
          break;
        }
      }
      if ok {
        assert Allows(prefixes[k], path);
        return true;
      }
    }
    return false;
  }

  const OP_KINDS := {Str("add"), Str("remove"), Str("replace"), Str("move"), Str("copy"), Str("test")}

  ghost predicate ValidOp(op: Json, prefixes: seq<string>) {
    && op.Obj? && "op" in op.fields && "path" in op.fields
    && op.fields["op"] in OP_KINDS
    && op.fields["path"].Str?
    && AllowedPath(op.fields["path"].s, prefixes)
  }

  ghost predicate ValidOps(ops: Json, prefixes: seq<string>) {
    ops.Arr? && ops.items != [] && forall i | 0 <= i < |ops.items| :: ValidOp(ops.items[i], prefixes)
  }

  // validate_jsonpatch_ops; the reason text is not modelled
  method ValidateOps(ops: Json, prefixes: seq<string>) returns (ok: bool)
    ensures ok <==> ValidOps(ops, prefixes)
  {
    if !ops.Arr? || |ops.items| == 0 {
      return false;
    }
    for i := 0 to |ops.items|
      invariant forall j | 0 <= j < i :: ValidOp(ops.items[j], prefixes)
    {
      var op := ops.items[i];
      if !op.Obj? || "op" !in op.fields || "path" !in op.fields {
        return false;
      }
      if op.fields["op"] !in OP_KINDS || !op.fields["path"].Str? {
        return false;
      }
      var allowed := IsAllowedPath(op.fields["path"].s, prefixes);
      if !allowed {
        return false;
      }
    }
    return true;
  }

  // ----- locations -----

  // Two tokens lead to the same child: the same key, or the same position of a list
  // ("-1", "07" and "7" may all name the last item).
  predicate SameChild(at: Result<Json>, s: string, t: string) {
    s == t || (&& at.Ok? && at.value.Arr?
               && Position(|at.value.items|, s).Some?
               && Position(|at.value.items|, s) == Position(|at.value.items|, t))
  }

  function Below(at: Result<Json>, token: string): Result<Json> {
    if at.Ok? then Child(at.value, token) else Err
  }

  // One of two locations lies under, or is, or is an ancestor of the other.
  predicate Overlap(at: Result<Json>, p: seq<string>, q: seq<string>)
    decreases |q|
  {
    p == [] || q == []
    || (SameChild(at, p[0], q[0]) && Overlap(Below(at, q[0]), p[1..], q[1..]))
  }

  // The location q lies under a match of the allowed prefix, or is an ancestor of one.
  predicate Related(at: Result<Json>, pref: seq<string>, q: seq<string>)
    decreases |q|
  {
    pref == [] || q == []
    || ((pref[0] == "*" || SameChild(at, Unescape(pref[0]), q[0])) && Related(Below(at, q[0]), pref[1..], q[1..]))
  }

  predicate RelatedToAny(doc: Json, prefixes: seq<string>, q: seq<string>) {
    exists k | 0 <= k < |prefixes| ::
      StartsWith(prefixes[k], "/") && Related(Ok(doc), Segments(prefixes[k]), q)
  }

  // ----- one edit -----

  // Lists are only written by replacing an item.
  predicate ReplacesInLists(doc: Json, tokens: seq<string>, edit: Edit)
    requires tokens != []
  {
    edit.Assign? || (Walk(doc, tokens[..|tokens| - 1]).Ok? ==> !Walk(doc, tokens[..|tokens| - 1]).value.Arr?)
  }

  // The lists along q keep their lengths.
  ghost predicate SameShape(a: Result<Json>, b: Result<Json>, q: seq<string>)
    decreases |q|
  {
    && ListLength(a) == ListLength(b)
    && (q != [] ==> SameShape(Below(a, q[0]), Below(b, q[0]), q[1..]))
  }

  function ListLength(at: Result<Json>): Option<nat> {
    if at.Ok? && at.value.Arr? then Some(|at.value.items|) else None
  }

  lemma {:induction false} ShapeOfSame(at: Result<Json>, q: seq<string>)
    ensures SameShape(at, at, q)
    decreases |q|
  {
    if q != [] { ShapeOfSame(Below(at, q[0]), q[1..]); }
  }

  // An edit of one container leaves its other children as they were.
  lemma ParentFrame(parent: Json, token: string, edit: Edit, q: string)
    requires EditParent(parent, token, edit).Ok?
    requires parent.Arr? ==> edit.Assign?
    requires !SameChild(Ok(parent), token, q)
    ensures Child(EditParent(parent, token, edit).value, q) == Child(parent, q)
    ensures ListLength(EditParent(parent, token, edit)) == ListLength(Ok(parent))
  {
  }

  lemma WithChildFrame(cur: Json, token: string, child: Json, q: string)
    requires Child(cur, token).Ok?
    ensures ListLength(Ok(WithChild(cur, token, child))) == ListLength(Ok(cur))
    ensures !SameChild(Ok(cur), token, q) ==> Child(WithChild(cur, token, child), q) == Child(cur, q)
    ensures SameChild(Ok(cur), token, q) ==> Child(WithChild(cur, token, child), q) == Ok(child)
    ensures SameChild(Ok(cur), token, q) ==> Child(cur, q) == Child(cur, token)
  {
    hide Position;
  }

  // An edit at p changes nothing at a location that does not overlap p, and no list length on the way there.
  lemma {:induction false} EditFrame(doc: Json, p: seq<string>, edit: Edit, q: seq<string>)
    requires p != [] && EditAt(doc, p, edit).Ok?
    requires ReplacesInLists(doc, p, edit)
    requires !Overlap(Ok(doc), p, q)
    ensures Walk(EditAt(doc, p, edit).value, q) == Walk(doc, q)
    ensures SameShape(Ok(doc), EditAt(doc, p, edit), q)
    decreases |p|
  {
    hide EditParent, Position, ListLength;
    if |p| == 1 {
      assert p[1..] == [] && p[..0] == [];
      ParentFrame(doc, p[0], edit, q[0]);
      ShapeOfSame(Child(doc, q[0]), q[1..]);
    } else {
      var c := Child(doc, p[0]).value;
      var c' := EditAt(c, p[1..], edit).value;
      WithChildFrame(doc, p[0], c', q[0]);
      assert p[..|p| - 1][1..] == p[1..][..|p[1..]| - 1];
      if SameChild(Ok(doc), p[0], q[0]) {
        EditFrame(c, p[1..], edit, q[1..]);
      } else {
        ShapeOfSame(Child(doc, q[0]), q[1..]);
      }
    }
  }

  // ----- the allowlist -----

  lemma {:induction false} RelatedByShape(a: Result<Json>, b: Result<Json>, pref: seq<string>, q: seq<string>)
    requires SameShape(a, b, q)
    ensures Related(a, pref, q) <==> Related(b, pref, q)
    decreases |q|
  {
    if pref != [] && q != [] { RelatedByShape(Below(a, q[0]), Below(b, q[0]), pref[1..], q[1..]); }
  }

  // A location that overlaps an allowed path is related to the prefix that allows the path.
  lemma {:induction false} OverlapRelated(at: Result<Json>, pref: seq<string>, segs: seq<string>, q: seq<string>)
    requires SegmentsMatch(pref, segs)
    requires Overlap(at, UnescapeAll(segs), q)
    ensures Related(at, pref, q)
    decreases |q|
  {
    if pref != [] && q != [] {
      assert UnescapeAll(segs)[1..] == UnescapeAll(segs[1..]);
      assert SegmentsMatch(pref[1..], segs[1..]) by {
        assert forall i | 0 <= i < |pref[1..]| :: pref[1..][i] == pref[i + 1] && segs[1..][i] == segs[i + 1];
      }
      OverlapRelated(Below(at, q[0]), pref[1..], segs[1..], q[1..]);
    }
  }

  predicate NoEmptySegment(path: string) {
    forall i | 0 <= i < |Segments(path)| :: Segments(path)[i] != []
  }

  lemma TokensAreSegments(path: string)
    requires StartsWith(path, "/") && path != "/"
    requires NoEmptySegment(path)
    ensures SplitPointer(path) == Ok(UnescapeAll(Segments(path)))
  {
    DropStripLeft(path);
    DropStripRight(StripSlashLeft(path));
    DropNothing(Segments(path));
  }

  // The conditions on a patch that the allowlist needs: no empty segment in a path, and lists
  // written only by replacing items, as the patch runs.
  predicate Regular(doc: Json, ops: seq<Json>)
    decreases |ops|
  {
    ops != [] && Step(doc, ops[0]).Ok? ==>
      var op := Decode(ops[0]).value;
      && NoEmptySegment(op.path)
      && ReplacesInLists(doc, SplitPointer(op.path).value, op.edit)
      && Regular(Step(doc, ops[0]).value, ops[1..])
  }

  lemma {:induction false} StepFrame(doc: Json, op: Json, prefixes: seq<string>, q: seq<string>)
    requires ValidOp(op, prefixes)
    requires Step(doc, op).Ok? && Regular(doc, [op])
    requires !RelatedToAny(doc, prefixes, q)
    ensures Walk(Step(doc, op).value, q) == Walk(doc, q)
    ensures !RelatedToAny(Step(doc, op).value, prefixes, q)
  {
    var d := Decode(op).value;
    var segs := Segments(d.path);
    var k :| 0 <= k < |prefixes| && Allows(prefixes[k], d.path);
    TokensAreSegments(d.path);
    if Overlap(Ok(doc), UnescapeAll(segs), q) { OverlapRelated(Ok(doc), Segments(prefixes[k]), segs, q); }
    EditFrame(doc, UnescapeAll(segs), d.edit, q);
    forall j | 0 <= j < |prefixes|
      ensures Related(Ok(doc), Segments(prefixes[j]), q) <==> Related(Step(doc, op), Segments(prefixes[j]), q)
    {
      RelatedByShape(Ok(doc), Step(doc, op), Segments(prefixes[j]), q);
    }
  }

  // A patch the allowlist accepts, once applied, leaves every location unrelated to the allowed
  // prefixes with the value it had, or absent as it was.
  lemma {:induction false} AllowlistFrame(doc: Json, ops: seq<Json>, prefixes: seq<string>, q: seq<string>)
    requires ops == [] || ValidOps(Arr(ops), prefixes)
    requires Apply(doc, ops).Ok? && Regular(doc, ops)
    requires !RelatedToAny(doc, prefixes, q)
    ensures Walk(Apply(doc, ops).value, q) == Walk(doc, q)
    decreases |ops|
  {
    if ops != [] {
      var next := Step(doc, ops[0]).value;
      assert ValidOp(ops[0], prefixes) && Regular(next, []);
      StepFrame(doc, ops[0], prefixes, q);
      assert forall i | 0 <= i < |ops[1..]| :: ops[1..][i] == ops[i + 1] && ValidOp(ops[i + 1], prefixes);
      AllowlistFrame(next, ops[1..], prefixes, q);
    }
  }

  lemma SplitFirst(e: string, s: string)
    requires '/' !in e
    ensures SplitSlash(e + ("/" + s)) == [e] + SplitSlash(s)
  {
    SplitPiece(e, "/" + s);
    assert ("/" + s)[1..] == s && e + [] == e;
  }

  // A token that is written as itself in a pointer.
  predicate Plain(token: string) {
    token != [] && '/' !in token && '~' !in token && token != "*"
  }

  lemma {:induction false} ReplaceNothing(s: string, q: char, sub: string)
    requires '~' !in s
    ensures Replace(s, ['~', q], sub) == s
  {
    if s != [] {
      ReplaceNothing(s[1..], q, sub);
      ReplaceSkip(s[0], s[1..], '~', q, sub);
      assert s == [s[0]] + s[1..];
    }
  }

  lemma UnescapePlain(token: string)
    requires Plain(token)
    ensures Unescape(token) == token
  {
    ReplaceNothing(token, '1', "/");
    ReplaceNothing(token, '0', "~");
  }

  // "/a/m/c"
  function ThreePath(a: string, m: string, c: string): string {
    "/" + (a + ("/" + (m + ("/" + c))))
  }

  lemma StripThree(a: string, m: string, c: string)
    requires Plain(a) && Plain(c)
    ensures StripSlash(ThreePath(a, m, c)) == a + ("/" + (m + ("/" + c)))
  {
    var s := a + ("/" + (m + ("/" + c)));
    assert s[0] == a[0] && a[0] in a;
    assert s[|s| - 1] == c[|c| - 1] && c[|c| - 1] in c;
    assert ThreePath(a, m, c)[1..] == s;
    assert StripSlashLeft(s) == s && StripSlashRight(s) == s;
    assert StripSlashLeft(ThreePath(a, m, c)) == s;
  }

  lemma SegmentsThree(a: string, m: string, c: string)
    requires Plain(a) && Plain(c) && '/' !in m
    ensures Segments(ThreePath(a, m, c)) == [a, m, c]
  {
    StripThree(a, m, c);
    SplitFirst(a, m + ("/" + c));
    SplitFirst(m, c);
    SplitPiece(c, []);
    assert c + [] == c;
  }

  // The interpreter reads "/a//c" as the tokens a and c.
  lemma TokensThree(a: string, c: string)
    requires Plain(a) && Plain(c)
    ensures SplitPointer(ThreePath(a, [], c)) == Ok([a, c])
  {
    var path := ThreePath(a, [], c);
    SegmentsThree(a, [], c);
    DropStripLeft(path);
    DropStripRight(StripSlashLeft(path));
    var segs: seq<string> := [a, [], c];
    assert segs[1..] == [[], c] && segs[1..][1..] == [c];
    DropNothing([c]);
    assert DropEmpty(segs) == [a] + DropEmpty(segs[1..]) == [a, c];
    UnescapePlain(a);
    UnescapePlain(c);
    assert UnescapeAll([a, c]) == [a, c];
  }

  lemma EscapeAllowed(a: string, c: string, w: string, doc: Json, op: Json)
    requires Plain(a) && Plain(c) && w != c
    requires doc == Obj(map[a := Obj(map[c := Obj(map[w := Null])])])
    requires op == Obj(map["op" := Str("remove"), "path" := Str(ThreePath(a, [], c))])
    ensures ValidOps(Arr([op]), [ThreePath(a, "*", c)])
    ensures !RelatedToAny(doc, [ThreePath(a, "*", c)], [a, c, w])
  {
    SegmentsThree(a, [], c);
    SegmentsThree(a, "*", c);
    var allowed := ThreePath(a, "*", c);
    assert Allows(allowed, ThreePath(a, [], c)) && [allowed][0] == allowed;
    assert ValidOp(op, [allowed]);
    UnescapePlain(c);
    NotRelatedThree(a, c, w, doc);
  }

  lemma NotRelatedThree(a: string, c: string, w: string, doc: Json)
    requires Unescape(c) == c && w != c && a != "*" && c != "*"
    requires doc == Obj(map[a := Obj(map[c := Obj(map[w := Null])])])
    ensures !Related(Ok(doc), [a, "*", c], [a, c, w])
  {
    var q, pref := [a, c, w], [a, "*", c];
    assert q[1..] == [c, w] && q[1..][1..] == [w];
    assert pref[1..] == ["*", c] && pref[1..][1..] == [c];
    var below := Below(Below(Ok(doc), a), c);
    assert below == Ok(Obj(map[w := Null]));
    assert !Related(below, [c], [w]);
    assert !Related(Below(Ok(doc), a), ["*", c], [c, w]);
  }

  lemma EscapeApplies(a: string, c: string, w: string, doc: Json, op: Json)
    requires Plain(a) && Plain(c)
    requires doc == Obj(map[a := Obj(map[c := Obj(map[w := Null])])])
    requires op == Obj(map["op" := Str("remove"), "path" := Str(ThreePath(a, [], c))])
    ensures Apply(doc, [op]) == Ok(Obj(map[a := Obj(map[])]))
  {
    TokensThree(a, c);
    var inner := doc.fields[a];
    var q := [a, c];
    assert q[1..] == [c] && [c][1..] == [];
    assert Walk(inner, [c]).Ok? && Walk(doc, q).Ok?;
    assert inner.fields - {c} == map[];
    assert EditAt(inner, [c], Delete) == Ok(Obj(map[]));
    assert doc.fields[a := Obj(map[])] == map[a := Obj(map[])];
    assert EditAt(doc, q, Delete) == Ok(Obj(map[a := Obj(map[])]));
    assert ThreePath(a, [], c) != "/" by { assert |ThreePath(a, [], c)| > 1; }
    assert Step(doc, op) == Run(doc, Op(ThreePath(a, [], c), Delete));
  }

  // Without the condition on segments the guarantee fails, for any plain a and c: with "/a/*/c"
  // allowed, the check counts the empty segment of "/a//c" against "*", while the interpreter
  // drops it and removes /a/c, and with it /a/c/w, which the allowed prefix does not cover.
  lemma EmptySegmentEscapes(a: string, c: string, w: string)
    requires Plain(a) && Plain(c) && w != c
    ensures var doc := Obj(map[a := Obj(map[c := Obj(map[w := Null])])]);
            var op := Obj(map["op" := Str("remove"), "path" := Str(ThreePath(a, [], c))]);
            && ValidOps(Arr([op]), [ThreePath(a, "*", c)])
            && !RelatedToAny(doc, [ThreePath(a, "*", c)], [a, c, w])
            && Walk(doc, [a, c, w]) == Ok(Null)
            && Apply(doc, [op]).Ok?
            && Walk(Apply(doc, [op]).value, [a, c, w]).Err?
  {
    var doc := Obj(map[a := Obj(map[c := Obj(map[w := Null])])]);
    var op := Obj(map["op" := Str("remove"), "path" := Str(ThreePath(a, [], c))]);
    EscapeAllowed(a, c, w, doc, op);
    EscapeApplies(a, c, w, doc, op);
    var q := [a, c, w];
    assert q[1..] == [c, w] && [c, w][1..] == [w] && [w][1..] == [];
    assert Walk(Obj(map[w := Null]), [w]) == Ok(Null);
    assert Walk(doc.fields[a], [c, w]) == Ok(Null);
    assert Walk(Obj(map[]), [c, w]).Err?;
  }

  // ----- the allowlist on paths as they are written -----

  // Each piece behind a slash.
  function Slashed(pieces: seq<string>): string {
    if pieces == [] then "" else "/" + pieces[0] + Slashed(pieces[1..])
  }

  // Pieces without slashes, an empty one at most in between.
  ghost predicate Pieces(ps: seq<string>) {
    && ps != [] && ps[0] != "" && ps[|ps| - 1] != ""
    && forall i | 0 <= i < |ps| :: '/' !in ps[i]
  }

  lemma {:induction false} SplitSlashed(ps: seq<string>)
    requires forall i | 0 <= i < |ps| :: '/' !in ps[i]
    ensures SplitSlash(Slashed(ps)) == [[]] + ps
  {
    if ps != [] {
      var rest := Slashed(ps[1..]);
      SplitSlashed(ps[1..]);
      SplitPiece(ps[0], rest);
      assert "/" + ps[0] + rest == ['/'] + (ps[0] + rest);
      assert ([[]] + ps[1..])[1..] == ps[1..] && ps[0] + [] == ps[0];
      assert [ps[0]] + ps[1..] == ps;
    }
  }

  lemma {:induction false} SlashedEnd(ps: seq<string>)
    requires ps != []
    ensures Slashed(ps) == Slashed(ps[..|ps| - 1]) + ("/" + ps[|ps| - 1])
  {
    if |ps| > 1 {
      var n := |ps| - 1;
      SlashedEnd(ps[1..]);
      assert ps[1..][..n - 1] == ps[..n][1..];
      var last, mid := "/" + ps[n], Slashed(ps[1..][..n - 1]);
      assert "/" + ps[0] + (mid + last) == ("/" + ps[0] + mid) + last;
    } else {
      assert ps[1..] == [] && ps[..0] == [];
    }
  }

  lemma SegmentsSlashed(ps: seq<string>)
    requires Pieces(ps)
    ensures Segments(Slashed(ps)) == ps && StartsWith(Slashed(ps), "/")
  {
    var path := Slashed(ps);
    SplitSlashed(ps);
    SlashedEnd(ps);
    var s, last := path[1..], ps[|ps| - 1];
    assert path == ['/'] + (ps[0] + Slashed(ps[1..]));
    assert s == ps[0] + Slashed(ps[1..]) && s[0] == ps[0][0] && ps[0][0] in ps[0];
    assert path[|path| - 1] == last[|last| - 1] && last[|last| - 1] in last;
    assert s[|s| - 1] == path[|path| - 1];
    assert StripSlashLeft(s) == s && StripSlashRight(s) == s && StripSlash(path) == s;
    assert SplitSlash(path) == [[]] + SplitSlash(s);
    assert ([[]] + ps)[1..] == ps && ([[]] + SplitSlash(s))[1..] == SplitSlash(s);
  }

  // The path starts as one of the prefixes does, "*" standing for any piece.
  ghost predicate Under(ps: seq<string>, prefix: seq<string>) {
    |prefix| <= |ps| && forall i | 0 <= i < |prefix| && prefix[i] != "*" :: ps[i] == prefix[i]
  }

  function AllSlashed(prefixes: seq<seq<string>>): seq<string> {
    seq(|prefixes|, k requires 0 <= k < |prefixes| => Slashed(prefixes[k]))
  }

  // A path is allowed if and only if its pieces are under those of a prefix; one that does not start
  // with a slash is never allowed.
  lemma {:induction false} AllowedExact(ps: seq<string>, prefixes: seq<seq<string>>)
    requires Pieces(ps) && forall k | 0 <= k < |prefixes| :: Pieces(prefixes[k])
    ensures AllowedPath(Slashed(ps), AllSlashed(prefixes)) <==> exists k | 0 <= k < |prefixes| :: Under(ps, prefixes[k])
    ensures !AllowedPath(Slashed(ps)[1..], AllSlashed(prefixes))
  {
    SegmentsSlashed(ps);
    assert Slashed(ps)[1..] == ps[0] + Slashed(ps[1..]) && ps[0][0] in ps[0];
    hide Segments, Slashed;
    forall k | 0 <= k < |prefixes| ensures Allows(AllSlashed(prefixes)[k], Slashed(ps)) <==> Under(ps, prefixes[k]) {
      SegmentsSlashed(prefixes[k]);
    }
  }

  // What the interpreter takes for an operation is valid exactly with an allowed path; of the kinds it
  // does not know, the check lets through those of the standard and no other.
  lemma ValidExact(op: Json, prefixes: seq<string>)
    ensures Decode(op).Ok? ==> (ValidOp(op, prefixes) <==> AllowedPath(Decode(op).value.path, prefixes))
    ensures forall kind, path | op.Obj? && Get(op.fields, "op") == Str(kind) && Get(op.fields, "path") == Str(path) ::
              ValidOp(op, prefixes)
              <==> AllowedPath(path, prefixes) && (kind in {"add", "replace", "remove"} || kind in {"move", "copy", "test"})
  {
    hide AllowedPath;
  }
}
