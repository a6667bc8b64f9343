// json.loads: every value of a text becomes an object of its own.

module PatchLoading {
  import opened Basics
  import opened JsonModel
  import opened Patch
  import opened PatchValues
  import opened PatchHeap
  import opened PatchSharing

  ghost predicate Extends(h: Heap, h': Heap) {
    forall x | x in h :: x in h' && h'[x] == h[x]
  }

  // A tree of objects that were not there before.
  ghost predicate NewTree(h: Heap, h': Heap, r: Ref, j: Json) {
    Tree(h', r, j) && forall x | Part(h', r, j, x) :: x in h' && x !in h
  }

  lemma NewTreeStays(h: Heap, h1: Heap, h2: Heap, r: Ref, j: Json)
    requires NewTree(h, h1, r, j) && Extends(h1, h2)
    ensures NewTree(h, h2, r, j) && forall x :: Part(h2, r, j, x) <==> Part(h1, r, j, x)
  {
    hide Tree, Part;
    Frame(h1, h2, r, j);
  }

  lemma {:induction false} FreeRef(h: Heap) returns (r: Ref)
    ensures r !in h
  {
    if h == map[] { return 0; }
    r := 1 + Largest(h.Keys);
  }

  ghost function Largest(s: set<nat>): (m: nat)
    ensures forall x | x in s :: x <= m
  {
    if s == {} then 0 else
    var x :| x in s;
    var m := Largest(s - {x});
    assert forall y | y in s :: y == x || y in s - {x};
    if x > m then x else m
  }

  // The values of some slots, each loaded on its own.
  ghost predicate AllNew(h: Heap, h': Heap, j: Json, slots: seq<Slot>, refs: seq<Ref>) {
    && |refs| == |slots|
    && (forall i | 0 <= i < |slots| :: At(j, slots[i]).Ok? && NewTree(h, h', refs[i], At(j, slots[i]).value))
    && (forall i, k | 0 <= i < k < |slots| :: Apart(h', refs[i], At(j, slots[i]).value, refs[k], At(j, slots[k]).value))
  }

  lemma {:induction false} LoadSlots(h: Heap, j: Json, slots: seq<Slot>) returns (h': Heap, refs: seq<Ref>)
    requires forall i | 0 <= i < |slots| :: At(j, slots[i]).Ok?
    ensures Extends(h, h') && AllNew(h, h', j, slots, refs)
    decreases j, 0, |slots|
  {
    hide Tree, Part;
    if slots == [] { return h, []; }
    var n := |slots| - 1;
    var h1, some := LoadSlots(h, j, slots[..n]);
    var val := At(j, slots[n]).value;
    AtIsSmaller(j, slots[n]);
    var h2, r := Load(h1, val);
    forall i | 0 <= i < n
      ensures NewTree(h, h2, some[i], At(j, slots[i]).value)
      ensures forall x :: Part(h2, some[i], At(j, slots[i]).value, x) ==> x in h1
      ensures forall x :: Part(h2, some[i], At(j, slots[i]).value, x) <==> Part(h1, some[i], At(j, slots[i]).value, x)
    {
      assert slots[..n][i] == slots[i];
      NewTreeStays(h, h1, h2, some[i], At(j, slots[i]).value);
    }
    return h2, some + [r];
  }

  lemma AtIsSmaller(j: Json, slot: Slot)
    requires At(j, slot).Ok?
    ensures At(j, slot).value < j
  {
  }

  // The slots of a list or a dict, in some order.
  ghost function SlotsOf(j: Json): (slots: seq<Slot>) {
    match j
    case Arr(items) => seq(|items|, i requires 0 <= i < |items| => Index(i))
    case Obj(fields) => KeySlots(SortedKeys(fields.Keys))
    case _ => []
  }

  ghost function KeySlots(ks: seq<string>): seq<Slot> {
    seq(|ks|, i requires 0 <= i < |ks| => Key(ks[i]))
  }

  lemma KeysAreAll(fields: map<string, Json>)
    ensures var slots := KeySlots(SortedKeys(fields.Keys));
            && (forall i | 0 <= i < |slots| :: slots[i].Key? && slots[i].k in fields)
            && (forall k | k in fields :: Key(k) in slots)
  {
    var ks := SortedKeys(fields.Keys);
    assert Elements(ks) == fields.Keys;
    hide SortedKeys;
    forall i | 0 <= i < |ks| ensures ks[i] in fields { assert ks[i] in Elements(ks); }
    forall k | k in fields ensures Key(k) in KeySlots(ks) {
      assert k in Elements(ks);
      var i :| 0 <= i < |ks| && ks[i] == k;
      assert KeySlots(ks)[i] == Key(k);
    }
  }

  lemma SlotsAreAll(j: Json)
    ensures forall i | 0 <= i < |SlotsOf(j)| :: At(j, SlotsOf(j)[i]).Ok?
    ensures forall slot | At(j, slot).Ok? :: slot in SlotsOf(j)
  {
    hide SortedKeys, KeySlots;
    if j.Obj? {
      KeysAreAll(j.fields);
    } else if j.Arr? {
      forall i: nat | i < |j.items| ensures Index(i) in SlotsOf(j) { assert SlotsOf(j)[i] == Index(i); }
    }
  }

  // The object of a list or a dict, given those of its slots.
  ghost function CellOf(j: Json, refs: seq<Ref>): Cell
    requires |refs| == |SlotsOf(j)|
  {
    match j
    case Arr(items) => List(refs)
    case Obj(fields) => Dict(map k | k in fields :: RefOf(SlotsOf(j), refs, Key(k)))
    case _ => Leaf(j)
  }

  ghost function RefOf(slots: seq<Slot>, refs: seq<Ref>, slot: Slot): Ref
    requires |refs| == |slots|
  {
    if slots == [] then 0
    else if slots[0] == slot then refs[0]
    else RefOf(slots[1..], refs[1..], slot)
  }

  lemma {:induction false} RefOfIs(slots: seq<Slot>, refs: seq<Ref>, slot: Slot) returns (i: nat)
    requires |refs| == |slots| && slot in slots
    ensures i < |slots| && slots[i] == slot && RefOf(slots, refs, slot) == refs[i]
  {
    if slots[0] == slot { return 0; }
    i := RefOfIs(slots[1..], refs[1..], slot);
    i := i + 1;
  }

  // Each slot of the object leads to the object that was loaded for it.
  lemma SlotLeads(j: Json, refs: seq<Ref>, slot: Slot) returns (i: nat)
    requires |refs| == |SlotsOf(j)| && At(j, slot).Ok?
    ensures i < |refs| && SlotsOf(j)[i] == slot && SlotRef(CellOf(j, refs), slot) == Some(refs[i])
  {
    SlotsAreAll(j);
    i := RefOfIs(SlotsOf(j), refs, slot);
    if j.Arr? { i := slot.i; }
  }

  lemma LoadedSlot(h: Heap, h1: Heap, j: Json, refs: seq<Ref>, r: Ref, slot: Slot) returns (i: nat)
    requires AllNew(h, h1, j, SlotsOf(j), refs) && r !in h1 && At(j, slot).Ok?
    ensures i < |refs| && SlotsOf(j)[i] == slot
    ensures var h' := h1[r := CellOf(j, refs)];
            KidTree(h', r, j, slot) && forall x :: InSlot(h', r, j, slot, x) <==> Part(h1, refs[i], At(j, slot).value, x)
    ensures forall x | Part(h1, refs[i], At(j, slot).value, x) :: x in h1 && x !in h
  {
    hide Tree, Part, At;
    i := SlotLeads(j, refs, slot);
    NewTreeStays(h, h1, h1[r := CellOf(j, refs)], refs[i], At(j, slot).value);
  }

  lemma MakeTree(h: Heap, h1: Heap, j: Json, refs: seq<Ref>, r: Ref)
    requires Extends(h, h1) && AllNew(h, h1, j, SlotsOf(j), refs) && r !in h1
    ensures NewTree(h, h1[r := CellOf(j, refs)], r, j)
  {
    hide Part, InSlot, KidTree, At, SlotsOf, SameShape, CellOf;
    var h' := h1[r := CellOf(j, refs)];
    CellShape(j, refs);
    forall slot | At(j, slot).Ok? ensures KidTree(h', r, j, slot) {
      var i := LoadedSlot(h, h1, j, refs, r, slot);
    }
    forall slot, x | InSlot(h', r, j, slot, x) ensures x in h1 && x !in h {
      SlotIsThere(h', r, j, slot, x);
      var i := LoadedSlot(h, h1, j, refs, r, slot);
    }
    forall s, t, x | s != t && InSlot(h', r, j, s, x) ensures !InSlot(h', r, j, t, x) {
      SlotIsThere(h', r, j, s, x);
      var i := LoadedSlot(h, h1, j, refs, r, s);
      if InSlot(h', r, j, t, x) {
        SlotIsThere(h', r, j, t, x);
        var k := LoadedSlot(h, h1, j, refs, r, t);
        assert i != k;
        BothLoaded(h, h1, j, SlotsOf(j), refs, i, k, x);
      }
    }
    forall x | Part(h', r, j, x) ensures x in h' && x !in h {
      var slot := SlotOfPart(h', r, j, x);
    }
  }

  lemma CellShape(j: Json, refs: seq<Ref>)
    requires |refs| == |SlotsOf(j)|
    ensures SameShape(CellOf(j, refs), j)
  {
  }

  lemma BothLoaded(h: Heap, h1: Heap, j: Json, slots: seq<Slot>, refs: seq<Ref>, i: nat, k: nat, x: Ref)
    requires AllNew(h, h1, j, slots, refs) && i != k && i < |slots| && k < |slots|
    requires Part(h1, refs[i], At(j, slots[i]).value, x)
    ensures !Part(h1, refs[k], At(j, slots[k]).value, x)
  {
    hide Part, At, Tree;
    if i < k {
      assert Apart(h1, refs[i], At(j, slots[i]).value, refs[k], At(j, slots[k]).value);
    } else {
      assert Apart(h1, refs[k], At(j, slots[k]).value, refs[i], At(j, slots[i]).value);
    }
  }

  lemma {:induction false} Load(h: Heap, j: Json) returns (h': Heap, r: Ref)
    ensures Extends(h, h') && NewTree(h, h', r, j)
    decreases j, 1, 0
  {
    hide Tree, Part, NewTree, At, CellOf, SlotsOf;
    SlotsAreAll(j);
    var h1, refs := LoadSlots(h, j, SlotsOf(j));
    r := FreeRef(h1);
    MakeTree(h, h1, j, refs, r);
    h' := h1[r := CellOf(j, refs)];
  }

  // ----- a document and a patch -----

  lemma OwnStaysNew(h: Heap, h': Heap, root: Ref, doc: Json, l: Loaded)
    requires Tree(h, root, doc) && Own(h, root, doc, l) && Extends(h, h')
    ensures Own(h', root, doc, l)
    ensures Inserts(l.op) ==> forall x :: Part(h', l.value, ValueOf(l.op), x) <==> Part(h, l.value, ValueOf(l.op), x)
  {
    hide Tree, Part, Decode;
    Frame(h, h', root, doc);
    if Inserts(l.op) { Frame(h, h', l.value, ValueOf(l.op)); }
  }

  // Everything loaded so far is there.
  ghost predicate AllThere(h: Heap, root: Ref, doc: Json, ls: seq<Loaded>) {
    && (forall x | Part(h, root, doc, x) :: x in h)
    && (forall i, x | 0 <= i < |ls| && Inserts(ls[i].op) && Part(h, ls[i].value, ValueOf(ls[i].op), x) :: x in h)
  }

  lemma OneMore(h: Heap, h': Heap, root: Ref, doc: Json, ls: seq<Loaded>, l: Loaded)
    requires Separate(h, root, doc, ls) && AllThere(h, root, doc, ls) && Extends(h, h')
    requires Inserts(l.op) ==> NewTree(h, h', l.value, ValueOf(l.op))
    ensures Separate(h', root, doc, ls + [l]) && AllThere(h', root, doc, ls + [l])
  {
    hide Tree, Part, Inserts, ValueOf;
    var more := ls + [l];
    Frame(h, h', root, doc);
    forall i | 0 <= i < |ls|
      ensures Own(h', root, doc, more[i])
      ensures Inserts(ls[i].op) ==> forall x :: Part(h', ls[i].value, ValueOf(ls[i].op), x) <==> Part(h, ls[i].value, ValueOf(ls[i].op), x)
    {
      assert more[i] == ls[i] && Own(h, root, doc, ls[i]);
      OwnStaysNew(h, h', root, doc, ls[i]);
    }
    forall i, k | 0 <= i < k < |more| ensures OwnBoth(h', more[i], more[k]) {
      if k < |ls| {
        assert OwnBoth(h, ls[i], ls[k]);
        BothStay(h, h', ls[i], ls[k]);
      }
    }
    assert more[|ls|] == l;
    forall i, x | 0 <= i < |more| && Inserts(more[i].op) && Part(h', more[i].value, ValueOf(more[i].op), x) ensures x in h' {
      if i < |ls| { assert Inserts(ls[i].op) && Part(h, ls[i].value, ValueOf(ls[i].op), x); }
    }
  }

  // Every document and patch can be loaded so that nothing is shared.
  lemma {:induction false} CanBeLoaded(doc: Json, ops: seq<Json>) returns (h: Heap, root: Ref, ls: seq<Loaded>)
    ensures OpsOf(ls) == ops && Separate(h, root, doc, ls) && AllThere(h, root, doc, ls)
  {
    hide Tree, Part, Decode, EditOf;
    if ops == [] {
      h, root := Load(map[], doc);
      ls := [];
    } else {
      var n := |ops| - 1;
      var h1, some;
      h1, root, some := CanBeLoaded(doc, ops[..n]);
      var r: Ref;
      if Inserts(ops[n]) { h, r := Load(h1, ValueOf(ops[n])); } else { h, r := h1, 0; }
      OneMore(h1, h, root, doc, some, Loaded(ops[n], r));
      ls := some + [Loaded(ops[n], r)];
      assert ops == ops[..n] + [ops[n]];
      assert OpsOf(ls) == OpsOf(some) + [ops[n]];
    }
  }
}
