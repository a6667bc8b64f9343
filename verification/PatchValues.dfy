// core/B_learning/approval.py: what running a patch does to the patch itself.  apply_patch puts the
// value of an operation into the document without a copy, so a later operation that edits inside it
// also edits the operation.

module PatchValues {
  import opened Basics
  import opened JsonModel
  import opened Pointer
  import opened Patch

  // ----- places -----

  // A slot of a container, and the way to a value from the root.
  datatype Slot = Index(i: nat) | Key(k: string)

  type Place = seq<Slot>

  function At(cur: Json, slot: Slot): Result<Json> {
    match (cur, slot)
    case (Arr(items), Index(i)) => if i < |items| then Ok(items[i]) else Err
    case (Obj(fields), Key(k)) => if k in fields then Ok(fields[k]) else Err
    case _ => Err
  }

  function Find(doc: Json, place: Place): Result<Json> {
    if place == [] then Ok(doc) else
    var c := At(doc, place[0]);
    if c.Ok? then Find(c.value, place[1..]) else Err
  }

  // The slot a token leads to.
  function SlotOf(cur: Json, token: string): Slot
    requires Child(cur, token).Ok?
  {
    match cur
    case Arr(items) => Index(Position(|items|, token).value)
    case _ => Key(token)
  }

  // The slot that an edit of a container writes or removes.
  function EditedSlot(parent: Json, token: string, edit: Edit): Slot
    requires EditParent(parent, token, edit).Ok?
  {
    match parent
    case Arr(items) => Index(if edit.Insert? then InsertPosition(|items|, token).value else Position(|items|, token).value)
    case _ => Key(token)
  }

  // Where an edit puts its value.
  function PlaceOf(doc: Json, p: seq<string>, edit: Edit): Place
    requires p != [] && EditAt(doc, p, edit).Ok?
  {
    if |p| == 1 then [EditedSlot(doc, p[0], edit)]
    else [SlotOf(doc, p[0])] + PlaceOf(Child(doc, p[0]).value, p[1..], edit)
  }

  // Where a slot of the edited container has moved: items behind shift, what is overwritten or
  // removed is gone.
  function Shifted(edited: Slot, edit: Edit, slot: Slot): Option<Slot> {
    match slot
    case Key(_) => if slot == edited then None else Some(slot)
    case Index(i) =>
      if edited.Key? then Some(slot)
      else if edit.Insert? then Some(if i >= edited.i then Index(i + 1) else slot)
      else if i == edited.i then None
      else Some(if edit.Delete? && i > edited.i then Index(i - 1) else slot)
  }

  function MovedSlot(parent: Json, token: string, edit: Edit, slot: Slot): Option<Slot>
    requires EditParent(parent, token, edit).Ok?
  {
    Shifted(EditedSlot(parent, token, edit), edit, slot)
  }

  // Where the value at a place stands after an edit; None when it is no longer in the document.
  function Moved(doc: Json, p: seq<string>, edit: Edit, place: Place): Option<Place>
    requires p != [] && EditAt(doc, p, edit).Ok?
  {
    if place == [] then Some([])
    else if |p| == 1 then
      var slot := MovedSlot(doc, p[0], edit, place[0]);
      if slot.Some? then Some([slot.value] + place[1..]) else None
    else if SlotOf(doc, p[0]) == place[0] then
      var rest := Moved(Child(doc, p[0]).value, p[1..], edit, place[1..]);
      if rest.Some? then Some([place[0]] + rest.value) else None
    else Some(place)
  }

  // The edited container is the value at the place, or within it.
  predicate Inside(doc: Json, p: seq<string>, edit: Edit, place: Place)
    requires p != [] && EditAt(doc, p, edit).Ok?
  {
    place == [] || (|p| > 1 && SlotOf(doc, p[0]) == place[0] && Inside(Child(doc, p[0]).value, p[1..], edit, place[1..]))
  }

  lemma SlotIsChild(cur: Json, token: string)
    requires Child(cur, token).Ok?
    ensures At(cur, SlotOf(cur, token)) == Child(cur, token)
  {
  }

  lemma InsertedAt<T>(s: seq<T>, i: nat, v: T, k: nat)
    requires i <= |s| && k <= |s|
    ensures (s[..i] + [v] + s[i..])[k] == if k < i then s[k] else if k == i then v else s[k - 1]
  {
  }

  lemma RemovedAt<T>(s: seq<T>, i: nat, k: nat)
    requires i < |s| && k < |s| - 1
    ensures (s[..i] + s[i + 1..])[k] == if k < i then s[k] else s[k + 1]
  {
  }

  // The shape of an edited container.
  lemma ListLengths(items: seq<Json>, token: string, edit: Edit)
    requires EditParent(Arr(items), token, edit).Ok?
    ensures var e, edited := EditedSlot(Arr(items), token, edit), EditParent(Arr(items), token, edit).value;
            && e.Index? && (if edit.Insert? then e.i <= |items| else e.i < |items|) && edited.Arr?
            && |edited.items| == if edit.Insert? then |items| + 1 else if edit.Delete? then |items| - 1 else |items|
  {
    hide Position, InsertPosition;
  }

  lemma DictKeys(fields: map<string, Json>, token: string, edit: Edit)
    requires EditParent(Obj(fields), token, edit).Ok?
    ensures EditedSlot(Obj(fields), token, edit) == Key(token)
    ensures var edited := EditParent(Obj(fields), token, edit).value;
            edited.Obj? && (edit.Delete? ==> token !in edited.fields) && forall k | k != token :: k in edited.fields <==> k in fields
  {
  }

  lemma PlacedInParent(parent: Json, token: string, edit: Edit)
    requires !edit.Delete? && EditParent(parent, token, edit).Ok?
    ensures At(EditParent(parent, token, edit).value, EditedSlot(parent, token, edit)) == Ok(edit.value)
  {
    hide Position, InsertPosition;
    if parent.Arr? {
      ListLengths(parent.items, token, edit);
      var e := EditedSlot(parent, token, edit).i;
      if edit.Insert? { InsertedAt(parent.items, e, edit.value, e); }
    }
  }

  // The value of an edit stands where it was put.
  lemma {:induction false} PlaceOfHolds(doc: Json, p: seq<string>, edit: Edit)
    requires p != [] && !edit.Delete? && EditAt(doc, p, edit).Ok?
    ensures Find(EditAt(doc, p, edit).value, PlaceOf(doc, p, edit)) == Ok(edit.value)
    decreases |p|
  {
    hide MovedSlot, EditParent, EditedSlot, Child, SlotOf, WithChild, At;
    if |p| == 1 {
      PlacedInParent(doc, p[0], edit);
    } else {
      OtherChild(doc, p[0], EditAt(Child(doc, p[0]).value, p[1..], edit).value, SlotOf(doc, p[0]));
      PlaceOfHolds(Child(doc, p[0]).value, p[1..], edit);
    }
  }

  lemma MovedInParent(parent: Json, token: string, edit: Edit, slot: Slot)
    requires EditParent(parent, token, edit).Ok? && At(parent, slot).Ok?
    ensures var slot' := MovedSlot(parent, token, edit, slot);
            slot'.Some? ==> At(EditParent(parent, token, edit).value, slot'.value) == At(parent, slot)
  {
    hide Position, InsertPosition;
    var edited := EditedSlot(parent, token, edit);
    var slot' := MovedSlot(parent, token, edit, slot);
    if slot'.Some? {
      if parent.Arr? {
        ListLengths(parent.items, token, edit);
        match edit
        case Insert(v) => InsertedAt(parent.items, edited.i, v, slot'.value.i);
        case Assign(_) =>
        case Delete => RemovedAt(parent.items, edited.i, slot'.value.i);
      } else {
        DictKeys(parent.fields, token, edit);
      }
    }
  }

  lemma OtherChild(doc: Json, token: string, child: Json, slot: Slot)
    requires Child(doc, token).Ok?
    ensures At(WithChild(doc, token, child), slot) == if slot == SlotOf(doc, token) then Ok(child) else At(doc, slot)
  {
  }

  // A value whose inside is not edited stands unchanged where it has moved.
  lemma {:induction false} OutsideStays(doc: Json, p: seq<string>, edit: Edit, place: Place)
    requires p != [] && EditAt(doc, p, edit).Ok? && Find(doc, place).Ok?
    requires !Inside(doc, p, edit, place)
    ensures var place' := Moved(doc, p, edit, place);
            place'.Some? ==> Find(EditAt(doc, p, edit).value, place'.value) == Find(doc, place)
  {
    if |p| == 1 {
      MovedInParent(doc, p[0], edit, place[0]);
    } else {
      var c := Child(doc, p[0]).value;
      OtherChild(doc, p[0], EditAt(c, p[1..], edit).value, place[0]);
      if SlotOf(doc, p[0]) == place[0] {
        OutsideStays(c, p[1..], edit, place[1..]);
      }
    }
  }

  // A value whose inside is edited stays where it is, and it changes if the document does.
  lemma {:induction false} InsideChanges(doc: Json, p: seq<string>, edit: Edit, place: Place)
    requires p != [] && EditAt(doc, p, edit).Ok? && Find(doc, place).Ok?
    requires Inside(doc, p, edit, place)
    ensures Moved(doc, p, edit, place) == Some(place)
    ensures var next := EditAt(doc, p, edit).value;
            Find(next, place).Ok? && (Find(next, place) == Find(doc, place) <==> next == doc)
    decreases |p|
  {
    hide WithChild, Child, EditParent, MovedSlot, EditedSlot, At, SlotOf;
    if place != [] {
      var c := Child(doc, p[0]).value;
      var c' := EditAt(c, p[1..], edit).value;
      SlotIsChild(doc, p[0]);
      InsideChanges(c, p[1..], edit, place[1..]);
      OtherChild(doc, p[0], c', place[0]);
      SameChildSameDoc(doc, p[0], c');
      assert [place[0]] + place[1..] == place;
    }
  }

  lemma SameChildSameDoc(doc: Json, token: string, child: Json)
    requires Child(doc, token).Ok?
    ensures WithChild(doc, token, child) == doc <==> child == Child(doc, token).value
  {
    OtherChild(doc, token, child, SlotOf(doc, token));
    SlotIsChild(doc, token);
  }

  // ----- one operation -----

  function TokensOf(op: Json): seq<string>
    requires Decode(op).Ok? && SplitPointer(Decode(op).value.path).Ok?
  {
    SplitPointer(Decode(op).value.path).value
  }

  function EditOf(op: Json): Edit
    requires Decode(op).Ok?
  {
    Decode(op).value.edit
  }

  // Where the value at the place stands after the operation.
  function MovedBy(doc: Json, op: Json, place: Place): (r: Option<Place>)
    requires Step(doc, op).Ok? && Find(doc, place).Ok?
    ensures r.Some? ==> Find(Step(doc, op).value, r.value).Ok?
  {
    var p, edit := TokensOf(op), EditOf(op);
    if Inside(doc, p, edit, place) then InsideChanges(doc, p, edit, place); Moved(doc, p, edit, place)
    else OutsideStays(doc, p, edit, place); Moved(doc, p, edit, place)
  }

  // The operation edits inside the value at the place, and that makes a difference.
  predicate Touches(doc: Json, op: Json, place: Place)
    requires Step(doc, op).Ok?
  {
    Inside(doc, TokensOf(op), EditOf(op), place) && Step(doc, op).value != doc
  }

  // The value at the place is another one afterwards exactly when the operation touches it.
  lemma {:induction false} TouchedChanges(doc: Json, op: Json, place: Place)
    requires Step(doc, op).Ok? && Find(doc, place).Ok? && MovedBy(doc, op, place).Some?
    ensures Find(Step(doc, op).value, MovedBy(doc, op, place).value) == Find(doc, place) <==> !Touches(doc, op, place)
  {
    var p, edit := TokensOf(op), EditOf(op);
    if Inside(doc, p, edit, place) { InsideChanges(doc, p, edit, place); } else { OutsideStays(doc, p, edit, place); }
  }

  lemma TouchedStays(doc: Json, op: Json, place: Place)
    requires Step(doc, op).Ok? && Find(doc, place).Ok? && Touches(doc, op, place)
    ensures MovedBy(doc, op, place) == Some(place)
  {
    InsideChanges(doc, TokensOf(op), EditOf(op), place);
  }

  // ----- a whole patch -----

  // What the value at the place has become when the patch has run: it changes with the document as
  // long as it is part of it, and the run may stop at an operation that fails.
  function Becomes(doc: Json, place: Place, ops: seq<Json>): Json
    requires Find(doc, place).Ok?
    decreases |ops|
  {
    if ops == [] || Step(doc, ops[0]).Err? then Find(doc, place).value else
    var place' := MovedBy(doc, ops[0], place);
    if place'.None? then Find(doc, place).value else Becomes(Step(doc, ops[0]).value, place'.value, ops[1..])
  }

  // How many operations touch it.
  function TouchCount(doc: Json, place: Place, ops: seq<Json>): nat
    requires Find(doc, place).Ok?
    decreases |ops|
  {
    if ops == [] || Step(doc, ops[0]).Err? then 0 else
    var place' := MovedBy(doc, ops[0], place);
    if place'.None? then 0
    else (if Touches(doc, ops[0], place) then 1 else 0) + TouchCount(Step(doc, ops[0]).value, place'.value, ops[1..])
  }

  lemma {:induction false} UntouchedStays(doc: Json, place: Place, ops: seq<Json>)
    requires Find(doc, place).Ok? && TouchCount(doc, place, ops) == 0
    ensures Becomes(doc, place, ops) == Find(doc, place).value
    decreases |ops|
  {
    hide Find, Step, Touches, MovedBy;
    if ops != [] && Step(doc, ops[0]).Ok? && MovedBy(doc, ops[0], place).Some? {
      TouchedChanges(doc, ops[0], place);
      UntouchedStays(Step(doc, ops[0]).value, MovedBy(doc, ops[0], place).value, ops[1..]);
    }
  }

  lemma {:induction false} TouchedOnceChanges(doc: Json, place: Place, ops: seq<Json>)
    requires Find(doc, place).Ok? && TouchCount(doc, place, ops) == 1
    ensures Becomes(doc, place, ops) != Find(doc, place).value
    decreases |ops|
  {
    hide Find, Step, Touches, MovedBy;
    var next, place' := Step(doc, ops[0]).value, MovedBy(doc, ops[0], place).value;
    TouchedChanges(doc, ops[0], place);
    if Touches(doc, ops[0], place) { UntouchedStays(next, place', ops[1..]); } else { TouchedOnceChanges(next, place', ops[1..]); }
  }

  // The place an operation that adds or replaces has put its value at.
  function PlacedBy(doc: Json, op: Json): (place: Place)
    requires Step(doc, op).Ok? && !EditOf(op).Delete?
    ensures Find(Step(doc, op).value, place) == Ok(op.fields["value"])
  {
    PlaceOfHolds(doc, TokensOf(op), EditOf(op));
    PlaceOf(doc, TokensOf(op), EditOf(op))
  }

  // The operations as the run leaves them.
  function AfterRun(doc: Json, ops: seq<Json>): (left: seq<Json>)
    ensures |left| == |ops|
    decreases |ops|
  {
    if ops == [] || Step(doc, ops[0]).Err? then ops else
    var next := Step(doc, ops[0]).value;
    var first := if EditOf(ops[0]).Delete? then ops[0]
                 else Obj(ops[0].fields["value" := Becomes(next, PlacedBy(doc, ops[0]), ops[1..])]);
    [first] + AfterRun(next, ops[1..])
  }

  // No value is touched more than n times by the operations after its own.
  predicate TouchedAtMost(doc: Json, ops: seq<Json>, n: nat)
    decreases |ops|
  {
    ops != [] && Step(doc, ops[0]).Ok? ==>
      var next := Step(doc, ops[0]).value;
      && (EditOf(ops[0]).Delete? || TouchCount(next, PlacedBy(doc, ops[0]), ops[1..]) <= n)
      && TouchedAtMost(next, ops[1..], n)
  }

  // No operation changes a value that an earlier one has put into the document.
  predicate Untouched(doc: Json, ops: seq<Json>) {
    TouchedAtMost(doc, ops, 0)
  }

  lemma SameValue(op: Json, v: Json)
    requires Decode(op).Ok? && !EditOf(op).Delete?
    ensures Obj(op.fields["value" := v]) == op <==> v == op.fields["value"]
  {
    if v == op.fields["value"] { assert op.fields["value" := v] == op.fields; }
    assert op.fields["value" := v]["value"] == v;
  }

  // As long as no value is touched twice, a run leaves the patch as it was if and only if it touches
  // none of the values it has put into the document.
  lemma {:induction false} LeftAsItWas(doc: Json, ops: seq<Json>)
    requires TouchedAtMost(doc, ops, 1)
    ensures AfterRun(doc, ops) == ops <==> Untouched(doc, ops)
    decreases |ops|
  {
    hide Step, Decode, EditOf;
    if ops != [] && Step(doc, ops[0]).Ok? {
      var next := Step(doc, ops[0]).value;
      LeftAsItWas(next, ops[1..]);
      assert ops == [ops[0]] + ops[1..];
      DecodedStep(doc, ops[0]);
      if !EditOf(ops[0]).Delete? {
        var place := PlacedBy(doc, ops[0]);
        SameValue(ops[0], Becomes(next, place, ops[1..]));
        if TouchCount(next, place, ops[1..]) == 0 { UntouchedStays(next, place, ops[1..]); }
        else { TouchedOnceChanges(next, place, ops[1..]); }
      }
    }
  }

  lemma DecodedStep(doc: Json, op: Json)
    requires Step(doc, op).Ok?
    ensures Decode(op).Ok? && op.Obj? && (!EditOf(op).Delete? ==> "value" in op.fields)
  {
  }

  lemma {:induction false} UntouchedIsAtMostOnce(doc: Json, ops: seq<Json>)
    requires Untouched(doc, ops)
    ensures TouchedAtMost(doc, ops, 1)
    decreases |ops|
  {
    if ops != [] && Step(doc, ops[0]).Ok? { UntouchedIsAtMostOnce(Step(doc, ops[0]).value, ops[1..]); }
  }
}
