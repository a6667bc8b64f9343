// core/B_learning/approval.py: apply_patch as it runs, on objects that are changed in place and shared
// between the document and the patch.

module PatchHeap {
  import opened Basics
  import opened JsonModel
  import opened Patch
  import opened PatchValues

  // ----- objects -----

  type Ref = nat

  // A list or a dict of references, or a value that cannot be changed.
  datatype Cell = Leaf(value: Json) | List(refs: seq<Ref>) | Dict(entries: map<string, Ref>)

  type Heap = map<Ref, Cell>

  function SlotRef(cell: Cell, slot: Slot): Option<Ref> {
    match (cell, slot)
    case (List(refs), Index(i)) => if i < |refs| then Some(refs[i]) else None
    case (Dict(entries), Key(k)) => if k in entries then Some(entries[k]) else None
    case _ => None
  }

  predicate SameShape(cell: Cell, j: Json) {
    match j
    case Arr(items) => cell.List? && |cell.refs| == |items|
    case Obj(fields) => cell.Dict? && cell.entries.Keys == fields.Keys
    case _ => cell == Leaf(j)
  }

  lemma SlotsAgree(cell: Cell, j: Json, slot: Slot)
    requires SameShape(cell, j)
    ensures SlotRef(cell, slot).Some? <==> At(j, slot).Ok?
  {
  }

  function KidOf(h: Heap, r: Ref, slot: Slot): Option<Ref> {
    if r in h then SlotRef(h[r], slot) else None
  }

  // The object holds the value.
  ghost predicate Holds(h: Heap, r: Ref, j: Json)
    decreases j
  {
    && r in h && SameShape(h[r], j)
    && forall slot | At(j, slot).Ok? && KidOf(h, r, slot).Some? :: Holds(h, KidOf(h, r, slot).value, At(j, slot).value)
  }

  // The object x is part of it.
  ghost predicate Part(h: Heap, r: Ref, j: Json, x: Ref)
    decreases j, 1
  {
    x == r || exists slot :: InSlot(h, r, j, slot, x)
  }

  // It is part of what a slot holds.
  ghost predicate InSlot(h: Heap, r: Ref, j: Json, slot: Slot, x: Ref)
    decreases j, 0
  {
    At(j, slot).Ok? && KidOf(h, r, slot).Some? && Part(h, KidOf(h, r, slot).value, At(j, slot).value, x)
  }

  // It holds the value, and no object is part of it twice.
  ghost predicate Tree(h: Heap, r: Ref, j: Json)
    decreases j, 1
  {
    && r in h && SameShape(h[r], j)
    && (forall slot | At(j, slot).Ok? :: KidTree(h, r, j, slot))
    && (forall slot :: !InSlot(h, r, j, slot, r))
    && (forall s, t, x | s != t && InSlot(h, r, j, s, x) :: !InSlot(h, r, j, t, x))
  }

  ghost predicate KidTree(h: Heap, r: Ref, j: Json, slot: Slot)
    requires At(j, slot).Ok?
    decreases j, 0
  {
    KidOf(h, r, slot).Some? && Tree(h, KidOf(h, r, slot).value, At(j, slot).value)
  }

  // The two have no object in common.
  ghost predicate Apart(h: Heap, r: Ref, j: Json, r': Ref, j': Json) {
    forall x | Part(h, r, j, x) :: !Part(h, r', j', x)
  }

  lemma Kid(h: Heap, r: Ref, j: Json, slot: Slot) returns (k: Ref, v: Json)
    requires Tree(h, r, j) && At(j, slot).Ok?
    ensures KidOf(h, r, slot) == Some(k) && At(j, slot) == Ok(v)
    ensures Tree(h, k, v) && !Part(h, k, v, r)
    ensures forall x :: InSlot(h, r, j, slot, x) <==> Part(h, k, v, x)
    ensures forall x | Part(h, k, v, x) :: Part(h, r, j, x)
  {
    assert KidTree(h, r, j, slot) && !InSlot(h, r, j, slot, r);
    k, v := KidOf(h, r, slot).value, At(j, slot).value;
    forall x | Part(h, k, v, x) ensures Part(h, r, j, x) { assert InSlot(h, r, j, slot, x); }
  }

  lemma {:induction false} TreeHolds(h: Heap, r: Ref, j: Json)
    requires Tree(h, r, j)
    ensures Holds(h, r, j)
    decreases j
  {
    forall slot | At(j, slot).Ok? && KidOf(h, r, slot).Some? ensures Holds(h, KidOf(h, r, slot).value, At(j, slot).value) {
      var k, v := Kid(h, r, j, slot);
      TreeHolds(h, k, v);
    }
  }

  // What is true of an object depends on its parts alone.
  ghost predicate Unchanged(h: Heap, h': Heap, r: Ref, j: Json) {
    forall x | Part(h, r, j, x) && x in h :: x in h' && h'[x] == h[x]
  }

  ghost predicate SameSlot(h: Heap, h': Heap, r: Ref, j: Json, slot: Slot) {
    && (At(j, slot).Ok? ==> KidTree(h', r, j, slot))
    && (forall x :: InSlot(h', r, j, slot, x) <==> InSlot(h, r, j, slot, x))
  }

  // The two heaps differ at one object at most.
  ghost predicate ChangedAt(h: Heap, h': Heap, c: Ref) {
    forall x | x in h && x != c :: x in h' && h'[x] == h[x]
  }

  lemma SameSlotsSameTree(h: Heap, h': Heap, r: Ref, j: Json)
    requires Tree(h, r, j) && r in h' && SameShape(h'[r], j) && forall slot :: SameSlot(h, h', r, j, slot)
    ensures Tree(h', r, j) && forall x :: Part(h', r, j, x) <==> Part(h, r, j, x)
  {
    hide KidTree, InSlot;
    forall slot ensures !InSlot(h', r, j, slot, r) { assert SameSlot(h, h', r, j, slot); }
    forall s, t, x | s != t && InSlot(h', r, j, s, x) ensures !InSlot(h', r, j, t, x) {
      assert SameSlot(h, h', r, j, s) && SameSlot(h, h', r, j, t);
    }
    forall slot | At(j, slot).Ok? ensures KidTree(h', r, j, slot) { assert SameSlot(h, h', r, j, slot); }
    forall slot, x ensures InSlot(h', r, j, slot, x) <==> InSlot(h, r, j, slot, x) { assert SameSlot(h, h', r, j, slot); }
  }

  lemma {:induction false} Frame(h: Heap, h': Heap, r: Ref, j: Json)
    requires Tree(h, r, j) && Unchanged(h, h', r, j)
    ensures Tree(h', r, j) && forall x :: Part(h', r, j, x) <==> Part(h, r, j, x)
    decreases j
  {
    hide Tree;
    assert Part(h, r, j, r);
    forall slot ensures SameSlot(h, h', r, j, slot) {
      if At(j, slot).Ok? {
        var k, v := Kid(h, r, j, slot);
        Frame(h, h', k, v);
      }
    }
    TreeShape(h, r, j);
    SameSlotsSameTree(h, h', r, j);
  }

  lemma TreeShape(h: Heap, r: Ref, j: Json)
    requires Tree(h, r, j)
    ensures r in h && SameShape(h[r], j)
  {
  }

  // ----- one operation -----

  // One step into an object: cur[int(p)] on a list, cur[p] otherwise.
  function ChildRef(h: Heap, r: Ref, token: string): Option<Ref> {
    if r !in h then None else
    match h[r]
    case List(refs) =>
      var i := Position(|refs|, token);
      if i.Some? then Some(refs[i.value]) else None
    case Dict(entries) => if token in entries then Some(entries[token]) else None
    case Leaf(_) => None
  }

  function WalkRef(h: Heap, r: Ref, tokens: seq<string>): Option<Ref>
    decreases |tokens|
  {
    if tokens == [] then Some(r) else
    var c := ChildRef(h, r, tokens[0]);
    if c.Some? then WalkRef(h, c.value, tokens[1..]) else None
  }

  // The list and dict methods: insert, append, item assignment, pop.
  function EditCell(cell: Cell, token: string, edit: Edit, v: Ref): Option<Cell> {
    match cell
    case List(refs) =>
      if edit.Insert? then
        var i := InsertPosition(|refs|, token);
        if i.Some? then Some(List(refs[..i.value] + [v] + refs[i.value..])) else None
      else
        var i := Position(|refs|, token);
        if i.None? then None
        else if edit.Assign? then Some(List(refs[i.value := v]))
        else Some(List(refs[..i.value] + refs[i.value + 1..]))
    case Dict(entries) => Some(Dict(if edit.Delete? then entries - {token} else entries[token := v]))
    case Leaf(_) => None
  }

  lemma ChildRefAgrees(h: Heap, r: Ref, j: Json, token: string)
    requires r in h && SameShape(h[r], j)
    ensures ChildRef(h, r, token).Some? <==> Child(j, token).Ok?
    ensures Child(j, token).Ok? ==> ChildRef(h, r, token) == KidOf(h, r, SlotOf(j, token))
  {
  }

  lemma EditCellAgrees(cell: Cell, j: Json, token: string, edit: Edit, v: Ref)
    requires SameShape(cell, j)
    ensures EditCell(cell, token, edit, v).Some? <==> EditParent(j, token, edit).Ok?
    ensures EditParent(j, token, edit).Ok? ==> SameShape(EditCell(cell, token, edit, v).value, EditParent(j, token, edit).value)
  {
  }

  // Where what a slot of the edited container holds was before; None for the value of the edit.
  function Unshifted(edited: Slot, edit: Edit, slot: Slot): Option<Slot> {
    match slot
    case Key(_) => if slot == edited && !edit.Delete? then None else Some(slot)
    case Index(i) =>
      if edited.Key? || i < edited.i then Some(slot)
      else if edit.Delete? then Some(Index(i + 1))
      else if i == edited.i then None
      else Some(if edit.Insert? then Index(i - 1) else slot)
  }

  function OldSlot(parent: Json, token: string, edit: Edit, slot: Slot): Option<Slot>
    requires EditParent(parent, token, edit).Ok?
  {
    Unshifted(EditedSlot(parent, token, edit), edit, slot)
  }

  lemma ShiftBack(edited: Slot, edit: Edit, slot: Slot)
    ensures var was := Unshifted(edited, edit, slot);
            was.Some? && !(slot.Key? && slot == edited) ==> Shifted(edited, edit, was.value) == Some(slot)
    ensures var now := Shifted(edited, edit, slot);
            now.Some? ==> Unshifted(edited, edit, now.value) == Some(slot)
  {
  }

  // What a slot holds afterwards, in the object and in the value.
  ghost predicate SlotFrom(cell: Cell, cell': Cell, j: Json, j': Json, was: Option<Slot>, slot: Slot, v: Ref, edit: Edit) {
    if was.None? then !edit.Delete? && At(j', slot) == Ok(edit.value) && SlotRef(cell', slot) == Some(v)
    else At(j', slot) == At(j, was.value) && SlotRef(cell', slot) == SlotRef(cell, was.value)
  }

  lemma OldSlotHolds(cell: Cell, j: Json, token: string, edit: Edit, v: Ref, slot: Slot)
    requires SameShape(cell, j) && EditParent(j, token, edit).Ok? && EditCell(cell, token, edit, v).Some?
    requires At(EditParent(j, token, edit).value, slot).Ok?
    ensures SlotFrom(cell, EditCell(cell, token, edit, v).value, j, EditParent(j, token, edit).value, OldSlot(j, token, edit, slot), slot, v, edit)
  {
    hide Position, InsertPosition;
    if j.Arr? {
      var e, i, items, refs := EditedSlot(j, token, edit).i, slot.i, j.items, cell.refs;
      match edit
      case Insert(value) => InsertedAt(items, e, value, i); InsertedAt(refs, e, v, i);
      case Assign(_) =>
      case Delete => RemovedAt(items, e, i); RemovedAt(refs, e, i);
    }
  }

  lemma OldSlotMoves(j: Json, token: string, edit: Edit, slot: Slot)
    requires EditParent(j, token, edit).Ok? && OldSlot(j, token, edit, slot).Some?
    ensures At(EditParent(j, token, edit).value, slot).Ok? ==> MovedSlot(j, token, edit, OldSlot(j, token, edit, slot).value) == Some(slot)
  {
    ParentIsContainer(j, token, edit);
    hide EditParent, EditedSlot, Shifted, Unshifted;
    if j.Arr? { ListLengths(j.items, token, edit); } else { DictKeys(j.fields, token, edit); }
    if slot.Key? && slot == EditedSlot(j, token, edit) && !edit.Delete? { KeyedBy(slot, edit, slot); }
    ShiftBack(EditedSlot(j, token, edit), edit, slot);
  }

  lemma ParentIsContainer(j: Json, token: string, edit: Edit)
    requires EditParent(j, token, edit).Ok?
    ensures j.Arr? || j.Obj?
  {
  }

  lemma KeyedBy(edited: Slot, edit: Edit, slot: Slot)
    requires slot.Key? && slot == edited && !edit.Delete?
    ensures Unshifted(edited, edit, slot).None?
  {
  }

  ghost predicate Fresh(h: Heap, r: Ref, j: Json, edit: Edit, v: Ref) {
    !edit.Delete? ==> Tree(h, v, edit.value) && Apart(h, r, j, v, edit.value)
  }

  // The parts of an edited value come from it and from the value of the edit.
  ghost predicate FromBoth(h: Heap, h': Heap, r: Ref, j: Json, j': Json, edit: Edit, v: Ref) {
    forall x | Part(h', r, j', x) :: Part(h, r, j, x) || (!edit.Delete? && Part(h, v, edit.value, x))
  }

  // What a slot of the edited container holds, object by object.
  ghost predicate SlotParts(h: Heap, h': Heap, r: Ref, j: Json, j': Json, was: Option<Slot>, slot: Slot, v: Ref, edit: Edit) {
    At(j', slot).Ok? ==>
      && KidTree(h', r, j', slot)
      && (if was.None? then !edit.Delete? && forall x :: InSlot(h', r, j', slot, x) <==> Part(h, v, edit.value, x)
          else forall x :: InSlot(h', r, j', slot, x) <==> InSlot(h, r, j, was.value, x))
  }

  lemma EditedSlotHolds(h: Heap, r: Ref, j: Json, token: string, edit: Edit, v: Ref, slot: Slot)
    requires Tree(h, r, j) && Fresh(h, r, j, edit, v) && EditParent(j, token, edit).Ok?
    requires EditCell(h[r], token, edit, v).Some?
    ensures SlotParts(h, h[r := EditCell(h[r], token, edit, v).value], r, j, EditParent(j, token, edit).value,
                      OldSlot(j, token, edit, slot), slot, v, edit)
  {
    hide Tree, Part, EditCell, EditParent, At, SlotFrom, Fresh, OldSlot, KidTree, InSlot;
    TreeShape(h, r, j);
    EditCellAgrees(h[r], j, token, edit, v);
    var h', j' := h[r := EditCell(h[r], token, edit, v).value], EditParent(j, token, edit).value;
    if At(j', slot).Ok? {
      OldSlotHolds(h[r], j, token, edit, v, slot);
      SlotFromParts(h, h', r, j, j', OldSlot(j, token, edit, slot), slot, v, edit);
    }
  }

  lemma SlotFromParts(h: Heap, h': Heap, r: Ref, j: Json, j': Json, was: Option<Slot>, slot: Slot, v: Ref, edit: Edit)
    requires Tree(h, r, j) && Fresh(h, r, j, edit, v) && ChangedAt(h, h', r) && r in h' && At(j', slot).Ok?
    requires SlotFrom(h[r], h'[r], j, j', was, slot, v, edit)
    ensures SlotParts(h, h', r, j, j', was, slot, v, edit)
  {
    hide Tree, Part, At;
    if was.None? {
      RootIsPart(h, r, j);
      Frame(h, h', v, edit.value);
    } else {
      var k, val := Kid(h, r, j, was.value);
      Frame(h, h', k, val);
    }
  }

  lemma OldSlotInjective(j: Json, token: string, edit: Edit, s: Slot, t: Slot)
    requires EditParent(j, token, edit).Ok?
    requires At(EditParent(j, token, edit).value, s).Ok? && At(EditParent(j, token, edit).value, t).Ok?
    requires OldSlot(j, token, edit, s) == OldSlot(j, token, edit, t)
    ensures s == t
  {
    if OldSlot(j, token, edit, s).Some? {
      hide EditParent, MovedSlot, OldSlot;
      OldSlotMoves(j, token, edit, s);
      OldSlotMoves(j, token, edit, t);
    } else {
      hide EditParent;
    }
  }

  // The objects two slots hold afterwards are apart, and apart from the container.
  lemma TwoSlots(h: Heap, h': Heap, r: Ref, j: Json, j': Json, s: Slot, was: Option<Slot>, t: Slot, last: Option<Slot>, v: Ref, edit: Edit, x: Ref)
    requires Tree(h, r, j) && Fresh(h, r, j, edit, v)
    requires SlotParts(h, h', r, j, j', was, s, v, edit) && SlotParts(h, h', r, j, j', last, t, v, edit)
    requires was != last && InSlot(h', r, j', s, x)
    ensures !InSlot(h', r, j', t, x)
  {
    hide KidTree;
    assert forall slot :: InSlot(h, r, j, slot, x) ==> Part(h, r, j, x);
  }

  // The edited container, as an object and as a value.
  lemma {:induction false} EditHere(h: Heap, r: Ref, j: Json, token: string, edit: Edit, v: Ref)
    requires Tree(h, r, j) && Fresh(h, r, j, edit, v) && EditParent(j, token, edit).Ok?
    requires EditCell(h[r], token, edit, v).Some?
    ensures var h', j' := h[r := EditCell(h[r], token, edit, v).value], EditParent(j, token, edit).value;
            Tree(h', r, j') && FromBoth(h, h', r, j, j', edit, v)
  {
    hide Part, EditCell, EditParent, At, KidTree, InSlot, Fresh, SlotParts, OldSlot;
    EditCellAgrees(h[r], j, token, edit, v);
    var h', j' := h[r := EditCell(h[r], token, edit, v).value], EditParent(j, token, edit).value;
    forall slot ensures SlotParts(h, h', r, j, j', OldSlot(j, token, edit, slot), slot, v, edit) {
      EditedSlotHolds(h, r, j, token, edit, v, slot);
    }
    forall slot, x ensures InSlot(h', r, j', slot, x) ==> x != r && (Part(h, r, j, x) || (!edit.Delete? && Part(h, v, edit.value, x))) {
      SlotFromBoth(h, h', r, j, j', slot, OldSlot(j, token, edit, slot), v, edit, x);
    }
    forall s, t, x | s != t && InSlot(h', r, j', s, x) ensures !InSlot(h', r, j', t, x) {
      SlotIsThere(h', r, j', s, x);
      if InSlot(h', r, j', t, x) {
        SlotIsThere(h', r, j', t, x);
        if OldSlot(j, token, edit, s) == OldSlot(j, token, edit, t) { OldSlotInjective(j, token, edit, s, t); }
        TwoSlots(h, h', r, j, j', s, OldSlot(j, token, edit, s), t, OldSlot(j, token, edit, t), v, edit, x);
      }
    }
    forall slot | At(j', slot).Ok? ensures KidTree(h', r, j', slot) {
      PartsAreTree(h, h', r, j, j', OldSlot(j, token, edit, slot), slot, v, edit);
    }
    forall x | Part(h', r, j', x) ensures Part(h, r, j, x) || (!edit.Delete? && Part(h, v, edit.value, x)) {
      var slot := SlotOfPart(h', r, j', x);
      RootIsPart(h, r, j);
    }
  }

  lemma PartsAreTree(h: Heap, h': Heap, r: Ref, j: Json, j': Json, was: Option<Slot>, slot: Slot, v: Ref, edit: Edit)
    requires SlotParts(h, h', r, j, j', was, slot, v, edit) && At(j', slot).Ok?
    ensures KidTree(h', r, j', slot)
  {
  }

  lemma SlotIsThere(h: Heap, r: Ref, j: Json, slot: Slot, x: Ref)
    requires InSlot(h, r, j, slot, x)
    ensures At(j, slot).Ok?
  {
  }

  lemma SlotOfPart(h: Heap, r: Ref, j: Json, x: Ref) returns (slot: Slot)
    requires Part(h, r, j, x)
    ensures x == r || InSlot(h, r, j, slot, x)
  {
    slot := Index(0);
    if x != r {
      slot :| At(j, slot).Ok? && KidOf(h, r, slot).Some? && Part(h, KidOf(h, r, slot).value, At(j, slot).value, x);
    }
  }

  lemma SlotFromBoth(h: Heap, h': Heap, r: Ref, j: Json, j': Json, slot: Slot, was: Option<Slot>, v: Ref, edit: Edit, x: Ref)
    requires Tree(h, r, j) && Fresh(h, r, j, edit, v) && SlotParts(h, h', r, j, j', was, slot, v, edit)
    ensures InSlot(h', r, j', slot, x) ==> x != r && (Part(h, r, j, x) || (!edit.Delete? && Part(h, v, edit.value, x)))
  {
    hide KidTree, At;
    RootIsPart(h, r, j);
    if InSlot(h', r, j', slot, x) { SlotIsThere(h', r, j', slot, x); }
  }

  lemma RootIsPart(h: Heap, r: Ref, j: Json)
    ensures Part(h, r, j, r)
  {
  }

  // ----- at any depth -----

  // _get_parent_and_key: the object that is edited.
  function ParentRef(h: Heap, r: Ref, p: seq<string>): Option<Ref>
    requires p != []
    decreases |p|
  {
    if |p| == 1 then Some(r) else
    var c := ChildRef(h, r, p[0]);
    if c.Some? then ParentRef(h, c.value, p[1..]) else None
  }

  function EditRef(h: Heap, r: Ref, p: seq<string>, edit: Edit, v: Ref): Option<Heap>
    requires p != []
  {
    var c := ParentRef(h, r, p);
    if c.None? || c.value !in h then None else
    var cell := EditCell(h[c.value], p[|p| - 1], edit, v);
    if cell.Some? then Some(h[c.value := cell.value]) else None
  }

  // The value with another one in a slot.
  ghost predicate OneSlotOther(j: Json, j': Json, slot: Slot, v: Json) {
    forall other :: At(j', other) == if other == slot then Ok(v) else At(j, other)
  }

  // What the slots of the container hold afterwards.
  ghost predicate SlotBound(h: Heap, h': Heap, r: Ref, j: Json, j': Json, slot: Slot, other: Slot, edit: Edit, v: Ref) {
    && (At(j', other).Ok? ==> KidTree(h', r, j', other))
    && (forall x | InSlot(h', r, j', other, x) ::
          x != r && (InSlot(h, r, j, other, x) || (other == slot && !edit.Delete? && Part(h, v, edit.value, x))))
  }

  lemma BoundApart(h: Heap, h': Heap, r: Ref, j: Json, j': Json, slot: Slot, edit: Edit, v: Ref, s: Slot, t: Slot, x: Ref)
    requires Tree(h, r, j) && Fresh(h, r, j, edit, v) && s != t && InSlot(h', r, j', s, x)
    requires SlotBound(h, h', r, j, j', slot, s, edit, v) && SlotBound(h, h', r, j, j', slot, t, edit, v)
    ensures !InSlot(h', r, j', t, x)
  {
    hide Part, At, InSlot, KidTree, Fresh, Tree;
    FreshApart(h, r, j, s, edit, v, x);
    FreshApart(h, r, j, t, edit, v, x);
    if InSlot(h, r, j, s, x) { SlotsApart(h, r, j, s, t, x); }
  }

  lemma BoundKid(h: Heap, h': Heap, r: Ref, j: Json, j': Json, slot: Slot, other: Slot, edit: Edit, v: Ref)
    requires SlotBound(h, h', r, j, j', slot, other, edit, v)
    ensures (At(j', other).Ok? ==> KidTree(h', r, j', other)) && !InSlot(h', r, j', other, r)
  {
  }

  lemma BoundParts(h: Heap, h': Heap, r: Ref, j: Json, j': Json, slot: Slot, edit: Edit, v: Ref, x: Ref)
    requires forall other :: SlotBound(h, h', r, j, j', slot, other, edit, v)
    requires Part(h', r, j', x)
    ensures Part(h, r, j, x) || (!edit.Delete? && Part(h, v, edit.value, x))
  {
    hide Part, At, InSlot, KidTree;
    var other := SlotOfPart(h', r, j', x);
    assert SlotBound(h, h', r, j, j', slot, other, edit, v);
    RootIsPart(h, r, j);
    if x != r && InSlot(h, r, j, other, x) { SlotIsPart(h, r, j, other, x); }
  }

  // A container around an object that was edited.
  lemma EditAround(h: Heap, h': Heap, r: Ref, j: Json, j': Json, slot: Slot, k: Ref, val: Json, val': Json, c: Ref, edit: Edit, v: Ref)
    requires Tree(h, r, j) && Fresh(h, r, j, edit, v)
    requires At(j, slot) == Ok(val) && KidOf(h, r, slot) == Some(k)
    requires Part(h, k, val, c) && ChangedAt(h, h', c)
    requires Tree(h', k, val') && FromBoth(h, h', k, val, val', edit, v)
    requires SameShape(h[r], j') && OneSlotOther(j, j', slot, val')
    ensures Tree(h', r, j') && FromBoth(h, h', r, j, j', edit, v)
  {
    hide Part, At, InSlot, KidTree, Fresh, SameShape, SlotBound;
    forall other ensures SlotBound(h, h', r, j, j', slot, other, edit, v) {
      SlotAround(h, h', r, j, j', slot, k, val, val', c, edit, v, other);
    }
    forall s, t, x | s != t && InSlot(h', r, j', s, x) ensures !InSlot(h', r, j', t, x) {
      BoundApart(h, h', r, j, j', slot, edit, v, s, t, x);
    }
    forall other ensures (At(j', other).Ok? ==> KidTree(h', r, j', other)) && !InSlot(h', r, j', other, r) {
      BoundKid(h, h', r, j, j', slot, other, edit, v);
    }
    var k0, v0 := Kid(h, r, j, slot);
    assert c != r && h'[r] == h[r];
    forall x | Part(h', r, j', x) ensures Part(h, r, j, x) || (!edit.Delete? && Part(h, v, edit.value, x)) {
      BoundParts(h, h', r, j, j', slot, edit, v, x);
    }
  }

  lemma SlotIsPart(h: Heap, r: Ref, j: Json, slot: Slot, x: Ref)
    requires InSlot(h, r, j, slot, x)
    ensures Part(h, r, j, x)
  {
  }

  lemma FreshApart(h: Heap, r: Ref, j: Json, slot: Slot, edit: Edit, v: Ref, x: Ref)
    requires Fresh(h, r, j, edit, v)
    ensures InSlot(h, r, j, slot, x) && !edit.Delete? ==> !Part(h, v, edit.value, x)
  {
    if InSlot(h, r, j, slot, x) { SlotIsPart(h, r, j, slot, x); }
  }

  lemma SlotAround(h: Heap, h': Heap, r: Ref, j: Json, j': Json, slot: Slot, k: Ref, val: Json, val': Json, c: Ref, edit: Edit, v: Ref, other: Slot)
    requires Tree(h, r, j) && Fresh(h, r, j, edit, v)
    requires At(j, slot) == Ok(val) && KidOf(h, r, slot) == Some(k)
    requires Part(h, k, val, c) && ChangedAt(h, h', c)
    requires Tree(h', k, val') && FromBoth(h, h', k, val, val', edit, v)
    requires SameShape(h[r], j') && OneSlotOther(j, j', slot, val')
    ensures SlotBound(h, h', r, j, j', slot, other, edit, v)
  {
    hide Part, At, Tree, SameShape, Fresh;
    var k0, v0 := Kid(h, r, j, slot);
    assert InSlot(h, r, j, slot, c) && c != r;
    TreeShape(h, r, j);
    if other != slot {
      assert At(j', other) == At(j, other);
      OtherSlotStays(h, h', r, j, slot, other, c);
      SameValueSameSlot(h', r, j, j', other);
    } else {
      FreshOffRoot(h, r, j, edit, v);
    }
  }

  lemma SameValueSameSlot(h: Heap, r: Ref, j: Json, j': Json, slot: Slot)
    requires At(j', slot) == At(j, slot)
    ensures forall x :: InSlot(h, r, j', slot, x) <==> InSlot(h, r, j, slot, x)
    ensures At(j, slot).Ok? ==> (KidTree(h, r, j', slot) <==> KidTree(h, r, j, slot))
  {
  }

  lemma FreshOffRoot(h: Heap, r: Ref, j: Json, edit: Edit, v: Ref)
    requires Fresh(h, r, j, edit, v)
    ensures !edit.Delete? ==> !Part(h, v, edit.value, r)
  {
    RootIsPart(h, r, j);
  }

  lemma OtherSlotStays(h: Heap, h': Heap, r: Ref, j: Json, slot: Slot, other: Slot, c: Ref)
    requires Tree(h, r, j) && other != slot && InSlot(h, r, j, slot, c) && c != r && ChangedAt(h, h', c)
    ensures KidOf(h', r, other) == KidOf(h, r, other)
    ensures At(j, other).Ok? ==> KidTree(h', r, j, other)
    ensures forall x :: InSlot(h', r, j, other, x) ==> x != r && InSlot(h, r, j, other, x)
  {
    hide Part, At, Tree;
    TreeShape(h, r, j);
    if At(j, other).Ok? {
      var k1, v1 := Kid(h, r, j, other);
      SlotsApart(h, r, j, slot, other, c);
      Frame(h, h', k1, v1);
    }
  }

  lemma SlotsApart(h: Heap, r: Ref, j: Json, s: Slot, t: Slot, x: Ref)
    requires Tree(h, r, j) && s != t && InSlot(h, r, j, s, x)
    ensures !InSlot(h, r, j, t, x)
  {
  }

  lemma FreshBelow(h: Heap, r: Ref, j: Json, slot: Slot, k: Ref, val: Json, edit: Edit, v: Ref)
    requires Tree(h, r, j) && Fresh(h, r, j, edit, v) && At(j, slot) == Ok(val) && KidOf(h, r, slot) == Some(k)
    ensures Fresh(h, k, val, edit, v)
  {
    hide Part;
    var k0, v0 := Kid(h, r, j, slot);
  }

  lemma EditRefBelow(h: Heap, r: Ref, p: seq<string>, edit: Edit, v: Ref, k: Ref)
    requires |p| > 1 && ChildRef(h, r, p[0]) == Some(k)
    ensures ParentRef(h, r, p) == ParentRef(h, k, p[1..])
    ensures EditRef(h, r, p, edit, v) == EditRef(h, k, p[1..], edit, v)
  {
    hide EditCell;
    assert p[1..][|p[1..]| - 1] == p[|p| - 1];
  }

  lemma {:induction false} EditSucceeds(h: Heap, r: Ref, j: Json, p: seq<string>, edit: Edit, v: Ref)
    requires Tree(h, r, j) && p != []
    ensures EditRef(h, r, p, edit, v).Some? <==> EditAt(j, p, edit).Ok?
    decreases |p|
  {
    hide EditParent, EditCell, At, ChildRef, Tree, Child, WithChild, SameShape, Part, InSlot, SlotRef;
    TreeShape(h, r, j);
    if |p| == 1 {
      EditCellAgrees(h[r], j, p[0], edit, v);
    } else {
      ChildRefAgrees(h, r, j, p[0]);
      if Child(j, p[0]).Ok? {
        hide EditRef, ParentRef;
        SlotIsChild(j, p[0]);
        var k, val := Kid(h, r, j, SlotOf(j, p[0]));
        EditSucceeds(h, k, val, p[1..], edit, v);
        EditRefBelow(h, r, p, edit, v, k);
      }
    }
  }

  // The document after the edit, as an object and as a value: one of its parts is changed.
  lemma {:induction false} EditDeep(h: Heap, r: Ref, j: Json, p: seq<string>, edit: Edit, v: Ref)
    requires Tree(h, r, j) && p != [] && Fresh(h, r, j, edit, v)
    requires EditRef(h, r, p, edit, v).Some? && EditAt(j, p, edit).Ok?
    ensures var h', j' := EditRef(h, r, p, edit, v).value, EditAt(j, p, edit).value;
            && ParentRef(h, r, p).Some?
            && Part(h, r, j, ParentRef(h, r, p).value) && ChangedAt(h, h', ParentRef(h, r, p).value)
            && Tree(h', r, j') && FromBoth(h, h', r, j, j', edit, v)
    decreases |p|
  {
    hide EditParent, EditCell, At, ChildRef, Tree, Child, Part, Fresh, FromBoth, SameShape, WithChild;
    if |p| == 1 {
      RootIsPart(h, r, j);
      EditHere(h, r, j, p[0], edit, v);
    } else {
      TreeShape(h, r, j);
      ChildRefAgrees(h, r, j, p[0]);
      SlotIsChild(j, p[0]);
      var slot := SlotOf(j, p[0]);
      var k, val := Kid(h, r, j, slot);
      FreshBelow(h, r, j, slot, k, val, edit, v);
      EditRefBelow(h, r, p, edit, v, k);
      EditDeep(h, k, val, p[1..], edit, v);
      var h', val' := EditRef(h, r, p, edit, v).value, EditAt(val, p[1..], edit).value;
      var j' := WithChild(j, p[0], val');
      forall other ensures At(j', other) == if other == slot then Ok(val') else At(j, other) { OtherChild(j, p[0], val', other); }
      WithChildShape(h[r], j, p[0], val');
      EditAround(h, h', r, j, j', slot, k, val, val', ParentRef(h, r, p).value, edit, v);
    }
  }

  lemma WithChildShape(cell: Cell, j: Json, token: string, child: Json)
    requires SameShape(cell, j) && Child(j, token).Ok?
    ensures SameShape(cell, WithChild(j, token, child))
  {
  }

  // ----- following an object -----

  function RefAt(h: Heap, r: Ref, place: Place): Option<Ref>
    decreases |place|
  {
    if place == [] then Some(r) else
    var k := KidOf(h, r, place[0]);
    if k.Some? then RefAt(h, k.value, place[1..]) else None
  }

  // The object at a place holds what the value has there.
  lemma {:induction false} PlaceFound(h: Heap, r: Ref, j: Json, place: Place) returns (o: Ref)
    requires Tree(h, r, j) && Find(j, place).Ok?
    ensures RefAt(h, r, place) == Some(o) && Tree(h, o, Find(j, place).value)
    ensures forall x | Part(h, o, Find(j, place).value, x) :: Part(h, r, j, x)
    decreases |place|
  {
    hide Tree, Part, At;
    if place == [] { return r; }
    var k, val := Kid(h, r, j, place[0]);
    o := PlaceFound(h, k, val, place[1..]);
  }

  lemma {:induction false} PlaceUnchanged(h: Heap, h': Heap, r: Ref, j: Json, place: Place)
    requires Tree(h, r, j) && Find(j, place).Ok? && Unchanged(h, h', r, j)
    ensures RefAt(h', r, place) == RefAt(h, r, place)
    decreases |place|
  {
    hide Tree, At, Part;
    if place != [] {
      RootIsPart(h, r, j);
      TreeShape(h, r, j);
      var k, val := Kid(h, r, j, place[0]);
      PlaceUnchanged(h, h', k, val, place[1..]);
    }
  }

  lemma MovedSlotBack(j: Json, token: string, edit: Edit, slot: Slot)
    requires EditParent(j, token, edit).Ok? && At(j, slot).Ok? && MovedSlot(j, token, edit, slot).Some?
    ensures var slot' := MovedSlot(j, token, edit, slot).value;
            At(EditParent(j, token, edit).value, slot').Ok? && OldSlot(j, token, edit, slot') == Some(slot)
  {
    hide EditParent, EditedSlot;
    if j.Arr? { ListLengths(j.items, token, edit); } else { DictKeys(j.fields, token, edit); }
    ShiftBack(EditedSlot(j, token, edit), edit, slot);
    hide Unshifted;
  }

  // The object is not changed, and the document has no part in it any more.
  ghost predicate Detached(h: Heap, h': Heap, o: Ref, jo: Json, r: Ref, j': Json) {
    Unchanged(h, h', o, jo) && forall x | Part(h, o, jo, x) :: !Part(h', r, j', x)
  }

  // What was overwritten or removed is in no slot of the container.
  lemma GoneFromContainer(h: Heap, r: Ref, j: Json, token: string, edit: Edit, v: Ref, slot: Slot, x: Ref)
    requires Tree(h, r, j) && Fresh(h, r, j, edit, v) && EditParent(j, token, edit).Ok?
    requires EditCell(h[r], token, edit, v).Some?
    requires MovedSlot(j, token, edit, slot).None? && InSlot(h, r, j, slot, x)
    ensures x != r && !Part(h[r := EditCell(h[r], token, edit, v).value], r, EditParent(j, token, edit).value, x)
  {
    hide Part, EditCell, EditParent, At, KidTree, InSlot, OldSlot, MovedSlot, Tree, Fresh;
    TreeShape(h, r, j);
    var h', j' := h[r := EditCell(h[r], token, edit, v).value], EditParent(j, token, edit).value;
    RootNotInSlot(h, r, j, slot, x);
    if Part(h', r, j', x) {
      var t := SlotOfPart(h', r, j', x);
      EditedSlotHolds(h, r, j, token, edit, v, t);
      SlotIsThere(h', r, j', t, x);
      var was := OldSlot(j, token, edit, t);
      if was.Some? {
        OldSlotMoves(j, token, edit, t);
        SlotsApart(h, r, j, slot, was.value, x);
      } else {
        FreshApart(h, r, j, slot, edit, v, x);
      }
    }
  }

  lemma RootNotInSlot(h: Heap, r: Ref, j: Json, slot: Slot, x: Ref)
    requires Tree(h, r, j) && InSlot(h, r, j, slot, x)
    ensures x != r
  {
  }

  // What becomes of an object of the document when the document is edited: it stands where its place
  // has moved, or the document has lost it unchanged.
  ghost predicate Follows(h: Heap, h': Heap, r: Ref, j: Json, p: seq<string>, edit: Edit, place: Place, o: Ref)
    requires p != [] && EditAt(j, p, edit).Ok? && Find(j, place).Ok?
  {
    var place' := Moved(j, p, edit, place);
    if place'.Some? then RefAt(h', r, place'.value) == Some(o)
    else Detached(h, h', o, Find(j, place).value, r, EditAt(j, p, edit).value)
  }

  lemma FollowsHere(h: Heap, r: Ref, j: Json, p: seq<string>, edit: Edit, v: Ref, place: Place, o: Ref)
    requires Tree(h, r, j) && |p| == 1 && Fresh(h, r, j, edit, v)
    requires EditCell(h[r], p[0], edit, v).Some? && EditAt(j, p, edit).Ok?
    requires place != [] && Find(j, place).Ok? && RefAt(h, r, place) == Some(o)
    ensures Follows(h, h[r := EditCell(h[r], p[0], edit, v).value], r, j, p, edit, place, o)
  {
    hide Part, EditCell, EditParent, At, KidTree, InSlot, OldSlot, MovedSlot, Tree, Fresh;
    TreeShape(h, r, j);
    var token, h' := p[0], h[r := EditCell(h[r], p[0], edit, v).value];
    var k, val := Kid(h, r, j, place[0]);
    var slot' := MovedSlot(j, token, edit, place[0]);
    if slot'.Some? {
      MovedSlotBack(j, token, edit, place[0]);
      OldSlotHolds(h[r], j, token, edit, v, slot'.value);
      PlaceUnchanged(h, h', k, val, place[1..]);
    } else {
      var o' := PlaceFound(h, k, val, place[1..]);
      forall x | Part(h, o, Find(j, place).value, x) ensures x != r && !Part(h', r, EditAt(j, p, edit).value, x) {
        GoneFromContainer(h, r, j, token, edit, v, place[0], x);
      }
    }
  }

  lemma KeptByRoot(h: Heap, h': Heap, r: Ref, j: Json, slot: Slot, k: Ref, val: Json, c: Ref)
    requires Tree(h, r, j) && At(j, slot) == Ok(val) && KidOf(h, r, slot) == Some(k)
    requires Part(h, k, val, c) && ChangedAt(h, h', c)
    ensures r in h' && h'[r] == h[r]
  {
    hide Part, At;
    var k0, v0 := Kid(h, r, j, slot);
  }

  // What the edited child has lost, the container has lost.
  lemma DetachedAround(h: Heap, h': Heap, r: Ref, j: Json, j': Json, slot: Slot, k: Ref, val: Json, val': Json, c: Ref, edit: Edit, v: Ref, x: Ref)
    requires Tree(h, r, j) && Fresh(h, r, j, edit, v)
    requires At(j, slot) == Ok(val) && KidOf(h, r, slot) == Some(k)
    requires Part(h, k, val, c) && ChangedAt(h, h', c)
    requires Tree(h', k, val') && FromBoth(h, h', k, val, val', edit, v)
    requires SameShape(h[r], j') && OneSlotOther(j, j', slot, val')
    requires Part(h, k, val, x) && !Part(h', k, val', x)
    ensures !Part(h', r, j', x)
  {
    hide Tree, Part, At, Fresh, FromBoth, SameShape, KidTree;
    KeptByRoot(h, h', r, j, slot, k, val, c);
    var k0, v0 := Kid(h, r, j, slot);
    assert InSlot(h, r, j, slot, x);
    if Part(h', r, j', x) {
      var other := SlotOfPart(h', r, j', x);
      SlotAround(h, h', r, j, j', slot, k, val, val', c, edit, v, other);
      FreshApart(h, r, j, slot, edit, v, x);
      if other != slot { SlotsApart(h, r, j, slot, other, x); }
    }
  }

  lemma {:induction false} FollowsDeep(h: Heap, r: Ref, j: Json, p: seq<string>, edit: Edit, v: Ref, place: Place, o: Ref)
    requires Tree(h, r, j) && p != [] && Fresh(h, r, j, edit, v)
    requires EditRef(h, r, p, edit, v).Some? && EditAt(j, p, edit).Ok?
    requires Find(j, place).Ok? && RefAt(h, r, place) == Some(o)
    ensures Follows(h, EditRef(h, r, p, edit, v).value, r, j, p, edit, place, o)
    decreases |p|
  {
    hide EditParent, EditCell, At, ChildRef, Tree, Child, Part, Fresh, FromBoth, SameShape, WithChild, ChangedAt, OneSlotOther, Unchanged;
    if place == [] {
    } else if |p| == 1 {
      FollowsHere(h, r, j, p, edit, v, place, o);
    } else {
      TreeShape(h, r, j);
      ChildRefAgrees(h, r, j, p[0]);
      SlotIsChild(j, p[0]);
      var slot := SlotOf(j, p[0]);
      var k, val := Kid(h, r, j, slot);
      FreshBelow(h, r, j, slot, k, val, edit, v);
      EditRefBelow(h, r, p, edit, v, k);
      EditDeep(h, k, val, p[1..], edit, v);
      var h', val' := EditRef(h, r, p, edit, v).value, EditAt(val, p[1..], edit).value;
      var j', c := WithChild(j, p[0], val'), ParentRef(h, r, p).value;
      KeptByRoot(h, h', r, j, slot, k, val, c);
      WithChildOther(j, p[0], val');
      WithChildShape(h[r], j, p[0], val');
      hide EditRef, ParentRef;
      if place[0] == slot {
        FollowsDeep(h, k, val, p[1..], edit, v, place[1..], o);
        var rest := Moved(val, p[1..], edit, place[1..]);
        if rest.Some? {
          assert ([slot] + rest.value)[1..] == rest.value;
        } else {
          FollowsGone(h, h', r, j, j', slot, k, val, val', c, edit, v, place[1..], o);
        }
      } else {
        var k1, val1 := Kid(h, r, j, place[0]);
        assert InSlot(h, r, j, slot, c);
        OtherUnchanged(h, h', r, j, slot, place[0], c, k1, val1);
        PlaceUnchanged(h, h', k1, val1, place[1..]);
      }
    }
  }

  lemma WithChildOther(j: Json, token: string, child: Json)
    requires Child(j, token).Ok?
    ensures OneSlotOther(j, WithChild(j, token, child), SlotOf(j, token), child)
  {
    hide At, WithChild, SlotOf;
    forall other ensures At(WithChild(j, token, child), other) == if other == SlotOf(j, token) then Ok(child) else At(j, other) {
      OtherChild(j, token, child, other);
    }
  }

  lemma OtherUnchanged(h: Heap, h': Heap, r: Ref, j: Json, slot: Slot, other: Slot, c: Ref, k: Ref, val: Json)
    requires Tree(h, r, j) && slot != other && InSlot(h, r, j, slot, c) && ChangedAt(h, h', c)
    requires At(j, other) == Ok(val) && KidOf(h, r, other) == Some(k)
    ensures Unchanged(h, h', k, val)
  {
    hide Tree, Part;
    SlotsApart(h, r, j, slot, other, c);
  }

  lemma FollowsGone(h: Heap, h': Heap, r: Ref, j: Json, j': Json, slot: Slot, k: Ref, val: Json, val': Json, c: Ref, edit: Edit, v: Ref, place: Place, o: Ref)
    requires Tree(h, r, j) && Fresh(h, r, j, edit, v)
    requires At(j, slot) == Ok(val) && KidOf(h, r, slot) == Some(k)
    requires Part(h, k, val, c) && ChangedAt(h, h', c)
    requires Tree(h', k, val') && FromBoth(h, h', k, val, val', edit, v)
    requires SameShape(h[r], j') && OneSlotOther(j, j', slot, val')
    requires Find(val, place).Ok? && RefAt(h, k, place) == Some(o) && Detached(h, h', o, Find(val, place).value, k, val')
    ensures Detached(h, h', o, Find(val, place).value, r, j')
  {
    hide Tree, Part, At, Fresh, FromBoth, SameShape, KidTree, ChangedAt, Unchanged, OneSlotOther;
    var k0, v0 := Kid(h, r, j, slot);
    var o' := PlaceFound(h, k, val, place);
    forall x | Part(h, o, Find(val, place).value, x) ensures !Part(h', r, j', x) {
      DetachedAround(h, h', r, j, j', slot, k, val, val', c, edit, v, x);
    }
  }

  // The object an edit puts in stands at the place of the edit.
  lemma {:induction false} PlacedDeep(h: Heap, r: Ref, j: Json, p: seq<string>, edit: Edit, v: Ref)
    requires Tree(h, r, j) && p != [] && !edit.Delete?
    requires EditRef(h, r, p, edit, v).Some? && EditAt(j, p, edit).Ok? && Fresh(h, r, j, edit, v)
    ensures RefAt(EditRef(h, r, p, edit, v).value, r, PlaceOf(j, p, edit)) == Some(v)
    decreases |p|
  {
    hide EditParent, EditCell, At, ChildRef, Tree, Child, Part, Fresh, FromBoth, SameShape, WithChild, ChangedAt, EditedSlot;
    TreeShape(h, r, j);
    if |p| == 1 {
      PlacedHere(h[r], j, p[0], edit, v);
    } else {
      ChildRefAgrees(h, r, j, p[0]);
      SlotIsChild(j, p[0]);
      var k, val := Kid(h, r, j, SlotOf(j, p[0]));
      FreshBelow(h, r, j, SlotOf(j, p[0]), k, val, edit, v);
      EditRefBelow(h, r, p, edit, v, k);
      EditDeep(h, k, val, p[1..], edit, v);
      KeptByRoot(h, EditRef(h, r, p, edit, v).value, r, j, SlotOf(j, p[0]), k, val, ParentRef(h, r, p).value);
      PlacedDeep(h, k, val, p[1..], edit, v);
    }
  }

  lemma PlacedHere(cell: Cell, j: Json, token: string, edit: Edit, v: Ref)
    requires SameShape(cell, j) && !edit.Delete? && EditParent(j, token, edit).Ok? && EditCell(cell, token, edit, v).Some?
    ensures SlotRef(EditCell(cell, token, edit, v).value, EditedSlot(j, token, edit)) == Some(v)
  {
  }
}
