// core/B_learning/approval.py: apply_patch over objects, where the values of the operations become
// parts of the document, gives the document and the operations that PatchValues says.

module PatchSharing {
  import opened Basics
  import opened JsonModel
  import opened Pointer
  import opened Patch
  import opened PatchValues
  import opened PatchHeap

  // An operation as read from a log, with the object of its value.
  datatype Loaded = Loaded(op: Json, value: Ref)

  // ----- one operation -----

  function StepRef(h: Heap, root: Ref, l: Loaded): Option<Heap> {
    var d := Decode(l.op);
    if d.Err? then None else
    var tokens := SplitPointer(d.value.path);
    if tokens.Err? || tokens.value == [] then None
    else if !d.value.edit.Insert? && WalkRef(h, root, tokens.value).None? then None
    else EditRef(h, root, tokens.value, d.value.edit, l.value)
  }

  lemma {:induction false} WalkRefAgrees(h: Heap, r: Ref, j: Json, tokens: seq<string>)
    requires Tree(h, r, j)
    ensures WalkRef(h, r, tokens).Some? <==> Walk(j, tokens).Ok?
    decreases |tokens|
  {
    hide Tree, Part, At, Child, ChildRef;
    if tokens != [] {
      TreeShape(h, r, j);
      ChildRefAgrees(h, r, j, tokens[0]);
      if Child(j, tokens[0]).Ok? {
        SlotIsChild(j, tokens[0]);
        var k, val := Kid(h, r, j, SlotOf(j, tokens[0]));
        WalkRefAgrees(h, k, val, tokens[1..]);
      }
    }
  }

  lemma StepAgrees(h: Heap, root: Ref, doc: Json, l: Loaded)
    requires Tree(h, root, doc)
    ensures StepRef(h, root, l).Some? <==> Step(doc, l.op).Ok?
  {
    hide Tree, SplitPointer, EditRef, EditAt, Walk, WalkRef;
    var d := Decode(l.op);
    if d.Ok? && SplitPointer(d.value.path).Ok? && SplitPointer(d.value.path).value != [] {
      WalkRefAgrees(h, root, doc, SplitPointer(d.value.path).value);
      EditSucceeds(h, root, doc, SplitPointer(d.value.path).value, d.value.edit, l.value);
    }
  }

  // ----- what has not run yet -----

  predicate Inserts(op: Json) {
    Decode(op).Ok? && !EditOf(op).Delete?
  }

  function ValueOf(op: Json): Json
    requires Inserts(op)
  {
    EditOf(op).value
  }

  // The value of the operation is an object of its own.
  ghost predicate Own(h: Heap, root: Ref, doc: Json, l: Loaded) {
    Inserts(l.op) ==> Tree(h, l.value, ValueOf(l.op)) && Apart(h, root, doc, l.value, ValueOf(l.op))
  }

  ghost predicate OwnBoth(h: Heap, l: Loaded, m: Loaded) {
    Inserts(l.op) && Inserts(m.op) ==> Apart(h, l.value, ValueOf(l.op), m.value, ValueOf(m.op))
  }

  // As the document and the patch are after loading: nothing is shared.
  ghost predicate Separate(h: Heap, root: Ref, doc: Json, ls: seq<Loaded>) {
    && Tree(h, root, doc)
    && (forall i | 0 <= i < |ls| :: Own(h, root, doc, ls[i]))
    && (forall i, k | 0 <= i < k < |ls| :: OwnBoth(h, ls[i], ls[k]))
  }

  lemma OwnIsFresh(h: Heap, root: Ref, doc: Json, l: Loaded)
    requires Own(h, root, doc, l) && Decode(l.op).Ok?
    ensures Fresh(h, root, doc, EditOf(l.op), l.value)
  {
  }

  // The effect of an operation on the objects of the document.
  ghost predicate StepEffect(h: Heap, h': Heap, root: Ref, doc: Json, doc': Json, l: Loaded, c: Ref)
    requires Decode(l.op).Ok?
  {
    Part(h, root, doc, c) && ChangedAt(h, h', c) && Tree(h', root, doc') && FromBoth(h, h', root, doc, doc', EditOf(l.op), l.value)
  }

  lemma StepObjects(h: Heap, root: Ref, doc: Json, l: Loaded) returns (c: Ref)
    requires Tree(h, root, doc) && Own(h, root, doc, l)
    requires StepRef(h, root, l).Some? && Step(doc, l.op).Ok?
    ensures StepEffect(h, StepRef(h, root, l).value, root, doc, Step(doc, l.op).value, l, c)
  {
    hide Tree, SplitPointer, EditRef, EditAt, Walk, WalkRef, Fresh, Own, Part, FromBoth, ChangedAt;
    OwnIsFresh(h, root, doc, l);
    EditDeep(h, root, doc, TokensOf(l.op), EditOf(l.op), l.value);
    c := ParentRef(h, root, TokensOf(l.op)).value;
  }

  lemma OwnStays(h: Heap, h': Heap, root: Ref, doc: Json, doc': Json, l: Loaded, c: Ref, m: Loaded)
    requires Decode(l.op).Ok? && StepEffect(h, h', root, doc, doc', l, c)
    requires Own(h, root, doc, m) && OwnBoth(h, l, m)
    ensures Own(h', root, doc', m)
    ensures Inserts(m.op) ==> forall x :: Part(h', m.value, ValueOf(m.op), x) <==> Part(h, m.value, ValueOf(m.op), x)
  {
    hide Tree, Part, Decode;
    if Inserts(m.op) {
      Frame(h, h', m.value, ValueOf(m.op));
    }
  }

  lemma BothStay(h: Heap, h': Heap, l: Loaded, m: Loaded)
    requires OwnBoth(h, l, m)
    requires Inserts(l.op) ==> forall x :: Part(h', l.value, ValueOf(l.op), x) <==> Part(h, l.value, ValueOf(l.op), x)
    requires Inserts(m.op) ==> forall x :: Part(h', m.value, ValueOf(m.op), x) <==> Part(h, m.value, ValueOf(m.op), x)
    ensures OwnBoth(h', l, m)
  {
    hide Part, Decode;
  }

  lemma SeparateStep(h: Heap, root: Ref, doc: Json, ls: seq<Loaded>)
    requires Separate(h, root, doc, ls) && ls != []
    requires StepRef(h, root, ls[0]).Some? && Step(doc, ls[0].op).Ok?
    ensures Separate(StepRef(h, root, ls[0]).value, root, Step(doc, ls[0].op).value, ls[1..])
  {
    hide Own, OwnBoth, Tree, Part, FromBoth, ChangedAt, EditAt, EditRef, Decode, SplitPointer, Walk, WalkRef;
    assert Own(h, root, doc, ls[0]);
    DecodedStep(doc, ls[0].op);
    var c := StepObjects(h, root, doc, ls[0]);
    var h', doc' := StepRef(h, root, ls[0]).value, Step(doc, ls[0].op).value;
    hide Step, StepRef;
    forall i | 0 <= i < |ls[1..]|
      ensures Own(h', root, doc', ls[1..][i])
      ensures Inserts(ls[1..][i].op) ==> forall x :: Part(h', ls[1..][i].value, ValueOf(ls[1..][i].op), x) <==> Part(h, ls[1..][i].value, ValueOf(ls[1..][i].op), x)
    {
      assert ls[1..][i] == ls[i + 1] && Own(h, root, doc, ls[i + 1]) && OwnBoth(h, ls[0], ls[i + 1]);
      OwnStays(h, h', root, doc, doc', ls[0], c, ls[i + 1]);
    }
    forall i, k | 0 <= i < k < |ls[1..]| ensures OwnBoth(h', ls[1..][i], ls[1..][k]) {
      assert ls[1..][i] == ls[i + 1] && ls[1..][k] == ls[k + 1] && OwnBoth(h, ls[i + 1], ls[k + 1]);
      BothStay(h, h', ls[i + 1], ls[k + 1]);
    }
    assert Tree(h', root, doc');
  }

  // ----- a whole patch -----

  function RunRef(h: Heap, root: Ref, ls: seq<Loaded>): (Heap, bool)
    decreases |ls|
  {
    if ls == [] then (h, true) else
    var next := StepRef(h, root, ls[0]);
    if next.Some? then RunRef(next.value, root, ls[1..]) else (h, false)
  }

  function OpsOf(ls: seq<Loaded>): (ops: seq<Json>)
    ensures |ops| == |ls| && forall i | 0 <= i < |ls| :: ops[i] == ls[i].op
  {
    seq(|ls|, i requires 0 <= i < |ls| => ls[i].op)
  }

  lemma OpsOfTail(ls: seq<Loaded>)
    requires ls != []
    ensures OpsOf(ls)[1..] == OpsOf(ls[1..])
  {
  }

  lemma {:induction false} RunAgrees(h: Heap, root: Ref, doc: Json, ls: seq<Loaded>)
    requires Separate(h, root, doc, ls)
    ensures RunRef(h, root, ls).1 <==> Apply(doc, OpsOf(ls)).Ok?
    ensures RunRef(h, root, ls).1 ==> Holds(RunRef(h, root, ls).0, root, Apply(doc, OpsOf(ls)).value)
    decreases |ls|
  {
    hide Tree, Holds, Step, StepRef, Own, OwnBoth, OpsOf;
    if ls == [] {
      TreeHolds(h, root, doc);
    } else {
      StepAgrees(h, root, doc, ls[0]);
      OpsOfTail(ls);
      if StepRef(h, root, ls[0]).Some? {
        SeparateStep(h, root, doc, ls);
        RunAgrees(StepRef(h, root, ls[0]).value, root, Step(doc, ls[0].op).value, ls[1..]);
      }
    }
  }

  // An object that neither the document nor the rest of the patch has a part in.
  ghost predicate Alone(h: Heap, root: Ref, doc: Json, ls: seq<Loaded>, o: Ref, jo: Json) {
    && Tree(h, o, jo) && Apart(h, o, jo, root, doc)
    && forall i | 0 <= i < |ls| && Inserts(ls[i].op) :: Apart(h, o, jo, ls[i].value, ValueOf(ls[i].op))
  }

  lemma AloneStep(h: Heap, root: Ref, doc: Json, ls: seq<Loaded>, o: Ref, jo: Json)
    requires Separate(h, root, doc, ls) && Alone(h, root, doc, ls, o, jo) && ls != []
    requires StepRef(h, root, ls[0]).Some? && Step(doc, ls[0].op).Ok?
    ensures Alone(StepRef(h, root, ls[0]).value, root, Step(doc, ls[0].op).value, ls[1..], o, jo)
  {
    hide Own, OwnBoth, Tree, Part, EditAt, EditRef, Decode, SplitPointer, Walk, WalkRef;
    assert Own(h, root, doc, ls[0]);
    DecodedStep(doc, ls[0].op);
    var c := StepObjects(h, root, doc, ls[0]);
    var h', doc' := StepRef(h, root, ls[0]).value, Step(doc, ls[0].op).value;
    hide Step, StepRef;
    Frame(h, h', o, jo);
    forall i | 0 <= i < |ls[1..]| && Inserts(ls[1..][i].op) ensures Apart(h', o, jo, ls[1..][i].value, ValueOf(ls[1..][i].op)) {
      assert ls[1..][i] == ls[i + 1] && Own(h, root, doc, ls[i + 1]) && OwnBoth(h, ls[0], ls[i + 1]);
      OwnStays(h, h', root, doc, doc', ls[0], c, ls[i + 1]);
    }
  }

  lemma {:induction false} AloneStays(h: Heap, root: Ref, doc: Json, ls: seq<Loaded>, o: Ref, jo: Json)
    requires Separate(h, root, doc, ls) && Alone(h, root, doc, ls, o, jo)
    ensures Holds(RunRef(h, root, ls).0, o, jo)
    decreases |ls|
  {
    hide Tree, Holds, Step, StepRef, Own, OwnBoth, Part, Inserts;
    assert Tree(h, o, jo);
    if ls == [] || StepRef(h, root, ls[0]).None? {
      TreeHolds(h, o, jo);
    } else {
      StepAgrees(h, root, doc, ls[0]);
      SeparateStep(h, root, doc, ls);
      AloneStep(h, root, doc, ls, o, jo);
      AloneStays(StepRef(h, root, ls[0]).value, root, Step(doc, ls[0].op).value, ls[1..], o, jo);
    }
  }

  lemma AloneFrom(h: Heap, h': Heap, root: Ref, doc: Json, doc': Json, ls: seq<Loaded>, c: Ref, o: Ref, jo: Json)
    requires Separate(h, root, doc, ls) && ls != [] && Decode(ls[0].op).Ok?
    requires StepEffect(h, h', root, doc, doc', ls[0], c)
    requires Tree(h, o, jo) && Detached(h, h', o, jo, root, doc') && forall x | Part(h, o, jo, x) :: Part(h, root, doc, x)
    ensures Alone(h', root, doc', ls[1..], o, jo)
  {
    hide Own, OwnBoth, Tree, Part, Decode, StepEffect;
    Frame(h, h', o, jo);
    forall i | 0 <= i < |ls[1..]| && Inserts(ls[1..][i].op) ensures Apart(h', o, jo, ls[1..][i].value, ValueOf(ls[1..][i].op)) {
      var m := ls[i + 1];
      assert ls[1..][i] == m && Own(h, root, doc, m) && OwnBoth(h, ls[0], m);
      OwnApart(h, root, doc, m);
      OwnStays(h, h', root, doc, doc', ls[0], c, m);
    }
  }

  lemma OwnApart(h: Heap, root: Ref, doc: Json, m: Loaded)
    requires Own(h, root, doc, m) && Inserts(m.op)
    ensures Apart(h, root, doc, m.value, ValueOf(m.op))
  {
  }

  // An object of the document, after one operation.
  lemma FollowStep(h: Heap, root: Ref, doc: Json, ls: seq<Loaded>, place: Place, o: Ref)
    requires Separate(h, root, doc, ls) && ls != []
    requires StepRef(h, root, ls[0]).Some? && Step(doc, ls[0].op).Ok?
    requires Find(doc, place).Ok? && RefAt(h, root, place) == Some(o)
    ensures var h', place' := StepRef(h, root, ls[0]).value, MovedBy(doc, ls[0].op, place);
            if place'.Some? then RefAt(h', root, place'.value) == Some(o)
            else Alone(h', root, Step(doc, ls[0].op).value, ls[1..], o, Find(doc, place).value)
  {
    hide Own, OwnBoth, Tree, Part, EditAt, EditRef, Decode, SplitPointer, Walk, WalkRef, Fresh, Detached, StepEffect, Find, RefAt;
    var l := ls[0];
    assert Own(h, root, doc, l);
    DecodedStep(doc, l.op);
    OwnIsFresh(h, root, doc, l);
    FollowsDeep(h, root, doc, TokensOf(l.op), EditOf(l.op), l.value, place, o);
    if MovedBy(doc, l.op, place).None? {
      var c := StepObjects(h, root, doc, l);
      var o' := PlaceFound(h, root, doc, place);
      AloneFrom(h, StepRef(h, root, l).value, root, doc, Step(doc, l.op).value, ls, c, o, Find(doc, place).value);
    }
  }

  // An object of the document ends as its place says.
  lemma {:induction false} BecomesHeld(h: Heap, root: Ref, doc: Json, ls: seq<Loaded>, place: Place, o: Ref)
    requires Separate(h, root, doc, ls)
    requires Find(doc, place).Ok? && RefAt(h, root, place) == Some(o)
    ensures Holds(RunRef(h, root, ls).0, o, Becomes(doc, place, OpsOf(ls)))
    decreases |ls|
  {
    hide Tree, Holds, Step, StepRef, Own, OwnBoth, Part, Inserts, Find, RefAt, MovedBy, OpsOf, Alone;
    if ls == [] || StepRef(h, root, ls[0]).None? {
      if ls != [] { StepAgrees(h, root, doc, ls[0]); }
      var o' := PlaceFound(h, root, doc, place);
      TreeHolds(h, o, Find(doc, place).value);
    } else {
      StepAgrees(h, root, doc, ls[0]);
      OpsOfTail(ls);
      SeparateStep(h, root, doc, ls);
      FollowStep(h, root, doc, ls, place, o);
      var h', doc', place' := StepRef(h, root, ls[0]).value, Step(doc, ls[0].op).value, MovedBy(doc, ls[0].op, place);
      if place'.Some? {
        BecomesHeld(h', root, doc', ls[1..], place'.value, o);
      } else {
        AloneStays(h', root, doc', ls[1..], o, Find(doc, place).value);
      }
    }
  }

  lemma Placed(h: Heap, root: Ref, doc: Json, l: Loaded)
    requires Tree(h, root, doc) && Own(h, root, doc, l) && Inserts(l.op)
    requires StepRef(h, root, l).Some? && Step(doc, l.op).Ok?
    ensures RefAt(StepRef(h, root, l).value, root, PlacedBy(doc, l.op)) == Some(l.value)
  {
    hide Tree, Part, EditAt, EditRef, SplitPointer, Walk, WalkRef, Fresh, Own, Decode;
    OwnIsFresh(h, root, doc, l);
    PlacedDeep(h, root, doc, TokensOf(l.op), EditOf(l.op), l.value);
  }

  // The value of each operation, once the run is over.
  lemma {:induction false} ValuesHeld(h: Heap, root: Ref, doc: Json, ls: seq<Loaded>, i: nat)
    requires Separate(h, root, doc, ls) && i < |ls| && Inserts(ls[i].op)
    ensures var left := AfterRun(doc, OpsOf(ls))[i];
            left.Obj? && "value" in left.fields && Holds(RunRef(h, root, ls).0, ls[i].value, left.fields["value"])
    decreases |ls|
  {
    hide Tree, Holds, Step, StepRef, OwnBoth, Part, OpsOf, Decode, EditOf, Becomes, PlacedBy;
    assert Own(h, root, doc, ls[i]) && OpsOf(ls)[i] == ls[i].op;
    InsertedValue(ls[i].op);
    StepAgrees(h, root, doc, ls[0]);
    OpsOfTail(ls);
    if StepRef(h, root, ls[0]).None? {
      TreeHolds(h, ls[i].value, ValueOf(ls[i].op));
    } else {
      SeparateStep(h, root, doc, ls);
      var h', doc' := StepRef(h, root, ls[0]).value, Step(doc, ls[0].op).value;
      if i > 0 {
        assert ls[1..][i - 1] == ls[i];
        ValuesHeld(h', root, doc', ls[1..], i - 1);
      } else {
        Placed(h, root, doc, ls[0]);
        BecomesHeld(h', root, doc', ls[1..], PlacedBy(doc, ls[0].op), ls[0].value);
      }
    }
  }

  lemma InsertedValue(op: Json)
    requires Inserts(op)
    ensures op.Obj? && "value" in op.fields && op.fields["value"] == ValueOf(op)
  {
  }

  // The body of the loop; None is an exception, and then no object is changed.
  method StepInPlace(h: Heap, root: Ref, l: Loaded) returns (next: Option<Heap>)
    ensures next == StepRef(h, root, l)
  {
    hide SplitPointer, Decode, WalkRef, ParentRef, EditCell;
    var op := Decode(l.op);
    if op.Err? {
      return None;
    }
    var tokens := SplitPointer(op.value.path);
    if tokens.Err? || tokens.value == [] {
      return None;
    }
    if !op.value.edit.Insert? && WalkRef(h, root, tokens.value).None? {
      return None;
    }
    var parent := ParentRef(h, root, tokens.value);
    if parent.None? || parent.value !in h {
      return None;
    }
    var cell := EditCell(h[parent.value], tokens.value[|tokens.value| - 1], op.value.edit, l.value);
    if cell.None? {
      return None;
    }
    return Some(h[parent.value := cell.value]);
  }

  // apply_patch on objects: whether it succeeds, and the document it returns, are as if every value had
  // been copied; the values of the operations are left as AfterRun says, also when it fails midway.
  method ApplyInPlace(h0: Heap, root: Ref, ls: seq<Loaded>, ghost doc: Json) returns (h: Heap, ok: bool)
    requires Separate(h0, root, doc, ls)
    ensures ok <==> Apply(doc, OpsOf(ls)).Ok?
    ensures ok ==> Holds(h, root, Apply(doc, OpsOf(ls)).value)
    ensures forall i | 0 <= i < |ls| && Inserts(ls[i].op) ::
              AfterRun(doc, OpsOf(ls))[i].Obj? && "value" in AfterRun(doc, OpsOf(ls))[i].fields
              && Holds(h, ls[i].value, AfterRun(doc, OpsOf(ls))[i].fields["value"])
  {
    hide Tree, Holds, Separate, Apply, AfterRun, Inserts, OpsOf, StepRef;
    RunAgrees(h0, root, doc, ls);
    forall i | 0 <= i < |ls| && Inserts(ls[i].op)
      ensures AfterRun(doc, OpsOf(ls))[i].Obj? && "value" in AfterRun(doc, OpsOf(ls))[i].fields
      ensures Holds(RunRef(h0, root, ls).0, ls[i].value, AfterRun(doc, OpsOf(ls))[i].fields["value"])
    {
      ValuesHeld(h0, root, doc, ls, i);
    }
    h := h0;
    for i := 0 to |ls|
      invariant RunRef(h0, root, ls) == RunRef(h, root, ls[i..])
    {
      var next := StepInPlace(h, root, ls[i]);
      if next.None? {
        return h, false;
      }
      h := next.value;
    }
    ok := true;
  }
}
