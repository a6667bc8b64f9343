// Patches that are other patches once they have run.

module PatchRewrites {
  import opened Basics
  import opened JsonModel
  import opened Pointer
  import opened Patch
  import opened PatchInverse
  import opened PatchValues

  // The operation with the given tokens as its path.
  function Make(tokens: seq<string>, edit: Edit): Json {
    Encode(Op(JoinPointer(tokens), edit))
  }

  predicate Named(tokens: seq<string>) {
    tokens != [] && forall i | 0 <= i < |tokens| :: tokens[i] != ""
  }

  lemma MakeRuns(doc: Json, tokens: seq<string>, edit: Edit)
    requires Named(tokens)
    ensures Decode(Make(tokens, edit)) == Ok(Op(JoinPointer(tokens), edit)) && SplitPointer(JoinPointer(tokens)) == Ok(tokens)
    ensures Step(doc, Make(tokens, edit)) == if !edit.Insert? && Walk(doc, tokens).Err? then Err else EditAt(doc, tokens, edit)
  {
    hide SplitPointer, Encode, EditAt;
    JoinNotRoot(tokens);
    DecodeEncode(Op(JoinPointer(tokens), edit));
    PointerRoundTrip(tokens);
  }

  lemma {:induction false} LastStays(doc: Json, op: Json)
    requires Step(doc, op).Ok?
    ensures AfterRun(doc, [op]) == [op]
  {
    hide Step, Decode, EditOf;
    var next := Step(doc, op).value;
    DecodedStep(doc, op);
    assert [op][1..] == [];
    assert AfterRun(next, []) == [];
    if !EditOf(op).Delete? {
      assert Becomes(next, PlacedBy(doc, op), []) == op.fields["value"];
      SameValue(op, op.fields["value"]);
    }
  }

  // What two operations become when the second edits inside the value of the first.
  lemma {:induction false} AfterTwo(doc: Json, a: Json, b: Json)
    requires Step(doc, a).Ok? && !EditOf(a).Delete? && Step(Step(doc, a).value, b).Ok?
    requires Inside(Step(doc, a).value, TokensOf(b), EditOf(b), PlacedBy(doc, a))
    ensures Find(Step(Step(doc, a).value, b).value, PlacedBy(doc, a)).Ok?
    ensures AfterRun(doc, [a, b]) == [Obj(a.fields["value" := Find(Step(Step(doc, a).value, b).value, PlacedBy(doc, a)).value]), b]
  {
    hide Step, Decode, Inside, Find, PlaceOf;
    var next, place := Step(doc, a).value, PlacedBy(doc, a);
    DecodedStep(doc, a);
    InsideStays(next, b, place);
    LastStays(next, b);
    assert [a, b][1..] == [b] && [b][1..] == [];
    assert Becomes(next, place, [b]) == Becomes(Step(next, b).value, place, []);
  }

  lemma InsideStays(doc: Json, op: Json, place: Place)
    requires Step(doc, op).Ok? && Find(doc, place).Ok? && Inside(doc, TokensOf(op), EditOf(op), place)
    ensures MovedBy(doc, op, place) == Some(place) && Find(Step(doc, op).value, place).Ok?
  {
    InsideChanges(doc, TokensOf(op), EditOf(op), place);
  }

  // ----- a patch that undoes itself -----

  function Single(k: string, v: Json): Json {
    Obj(map[k := v])
  }

  // Empties the list under k, then appends x.
  function Refill(k: string, x: Json): seq<Json> {
    [Make([k], Assign(Arr([]))), Make([k, "-"], Insert(x))]
  }

  function Refilled(k: string, x: Json): seq<Json> {
    [Make([k], Assign(Arr([x]))), Make([k, "-"], Insert(x))]
  }

  lemma RefillSteps(k: string, x: Json, items: seq<Json>, start: seq<Json>)
    requires k != ""
    ensures Step(Single(k, Arr(items)), Make([k], Assign(Arr(start)))) == Ok(Single(k, Arr(start)))
    ensures Step(Single(k, Arr(start)), Make([k, "-"], Insert(x))) == Ok(Single(k, Arr(start + [x])))
  {
    hide Make, Decode, SplitPointer;
    MakeRuns(Single(k, Arr(items)), [k], Assign(Arr(start)));
    MakeRuns(Single(k, Arr(start)), [k, "-"], Insert(x));
    assert map[k := Arr(items)][k := Arr(start)] == map[k := Arr(start)];
    assert map[k := Arr(start)][k := Arr(start + [x])] == map[k := Arr(start + [x])];
    assert [k, "-"][1..] == ["-"];
    assert start[..|start|] + [x] + start[|start|..] == start + [x];
  }

  lemma ApplyTwo(doc: Json, a: Json, b: Json)
    requires Step(doc, a).Ok?
    ensures Apply(doc, [a, b]) == Step(Step(doc, a).value, b)
  {
    hide Step;
    assert [a, b][1..] == [b] && [b][1..] == [];
    assert Apply(doc, [a, b]) == Apply(Step(doc, a).value, [b]);
    if Step(Step(doc, a).value, b).Ok? { assert Apply(Step(Step(doc, a).value, b).value, []) == Step(Step(doc, a).value, b); }
  }

  // The patch leaves one x where there were two; as its run leaves it, it leaves the document alone.
  lemma {:induction false} RefillUndoesItself(k: string, x: Json)
    requires k != ""
    ensures var doc := Single(k, Arr([x, x]));
            && Apply(doc, Refill(k, x)) == Ok(Single(k, Arr([x]))) && Single(k, Arr([x])) != doc
            && AfterRun(doc, Refill(k, x)) == Refilled(k, x) && Apply(doc, AfterRun(doc, Refill(k, x))) == Ok(doc)
  {
    var doc := Single(k, Arr([x, x]));
    assert [] + [x] == [x] && [x] + [x] == [x, x];
    RefillSteps(k, x, [x, x], []);
    RefillSteps(k, x, [x, x], [x]);
    ApplyTwo(doc, Refill(k, x)[0], Refill(k, x)[1]);
    ApplyTwo(doc, Refilled(k, x)[0], Refilled(k, x)[1]);
    assert Single(k, Arr([x])).fields[k] != doc.fields[k];
    RefillInside(k, x);
  }

  lemma RefillInside(k: string, x: Json)
    requires k != ""
    ensures AfterRun(Single(k, Arr([x, x])), Refill(k, x)) == Refilled(k, x)
  {
    hide Make, Decode, SplitPointer, Step, AfterRun, PlacedBy;
    var doc, next, a, b := Single(k, Arr([x, x])), Single(k, Arr([])), Make([k], Assign(Arr([]))), Make([k, "-"], Insert(x));
    assert [] + [x] == [x];
    RefillSteps(k, x, [x, x], []);
    MakeRuns(doc, [k], Assign(Arr([])));
    MakeRuns(next, [k, "-"], Insert(x));
    PlacedUnder(k, Arr([x, x]), Arr([]));
    assert Inside(next, [k, "-"], Insert(x), [Key(k)]);
    AfterTwo(doc, a, b);
    assert Find(Single(k, Arr([x])), [Key(k)]) == Ok(Arr([x]));
    AssignValue([k], Arr([]), Arr([x]));
  }

  lemma PlacedUnder(k: string, v: Json, w: Json)
    requires k != "" && Step(Single(k, v), Make([k], Assign(w))).Ok?
    ensures Decode(Make([k], Assign(w))).Ok? && !EditOf(Make([k], Assign(w))).Delete?
    ensures PlacedBy(Single(k, v), Make([k], Assign(w))) == [Key(k)]
  {
    hide Make, Decode, SplitPointer;
    MakeRuns(Single(k, v), [k], Assign(w));
  }

  lemma AssignValue(tokens: seq<string>, v: Json, w: Json)
    ensures Make(tokens, Assign(v)).Obj?
    ensures Obj(Make(tokens, Assign(v)).fields["value" := w]) == Make(tokens, Assign(w))
  {
    assert Make(tokens, Assign(v)).fields["value" := w] == Make(tokens, Assign(w)).fields;
  }

  // ----- a patch that spoils itself -----

  // Adds a dict with the key m under k, then removes m from it.
  function Strip(k: string, m: string, x: Json): seq<Json> {
    [Make([k], Insert(Single(m, x))), Make([k, m], Delete)]
  }

  function Stripped(k: string, m: string): seq<Json> {
    [Make([k], Insert(Obj(map[]))), Make([k, m], Delete)]
  }

  lemma AddStep(f: map<string, Json>, k: string, v: Json)
    requires k != ""
    ensures Step(Obj(f), Make([k], Insert(v))) == Ok(Obj(f[k := v]))
    ensures Decode(Make([k], Insert(v))).Ok? && PlacedBy(Obj(f), Make([k], Insert(v))) == [Key(k)]
  {
    hide Make, Decode, SplitPointer;
    MakeRuns(Obj(f), [k], Insert(v));
  }

  lemma RemoveStep(f: map<string, Json>, k: string, m: string, g: map<string, Json>)
    requires k != "" && m != ""
    ensures Step(Obj(f[k := Obj(g)]), Make([k, m], Delete))
            == if m in g then Ok(Obj(f[k := Obj(g - {m})])) else Err
  {
    hide Make, Decode, SplitPointer;
    var doc := Obj(f[k := Obj(g)]);
    MakeRuns(doc, [k, m], Delete);
    assert [k, m][1..] == [m] && [m][1..] == [];
    assert Walk(doc, [k, m]) == Walk(Obj(g), [m]);
    if m in g { assert Walk(g[m], []).Ok?; }
    assert f[k := Obj(g)][k := Obj(g - {m})] == f[k := Obj(g - {m})];
  }

  lemma StripInside(f: map<string, Json>, k: string, m: string, x: Json)
    requires k != "" && m != ""
    ensures AfterRun(Obj(f), Strip(k, m, x)) == Stripped(k, m)
  {
    hide Make, Decode, SplitPointer, Step, AfterRun, PlacedBy;
    var a, b, next := Strip(k, m, x)[0], Strip(k, m, x)[1], Obj(f[k := Single(m, x)]);
    AddStep(f, k, Single(m, x));
    RemoveStep(f, k, m, map[m := x]);
    assert map[m := x] - {m} == map[];
    MakeRuns(next, [k, m], Delete);
    MakeRuns(Obj(f), [k], Insert(Single(m, x)));
    assert Inside(next, [k, m], Delete, [Key(k)]);
    AfterTwo(Obj(f), a, b);
    assert Find(Obj(f[k := Obj(map[])]), [Key(k)]) == Ok(Obj(map[]));
    MakeValue([k], Single(m, x), Obj(map[]));
  }

  lemma MakeValue(tokens: seq<string>, v: Json, w: Json)
    ensures Make(tokens, Insert(v)).Obj?
    ensures Obj(Make(tokens, Insert(v)).fields["value" := w]) == Make(tokens, Insert(w))
  {
    assert Make(tokens, Insert(v)).fields["value" := w] == Make(tokens, Insert(w)).fields;
  }

  // The patch is accepted on every dict; as its run leaves it, it is refused on every one.
  lemma {:induction false} StripSpoilsItself(f: map<string, Json>, g: map<string, Json>, k: string, m: string, x: Json)
    requires k != "" && m != ""
    ensures Apply(Obj(f), Strip(k, m, x)) == Ok(Obj(f[k := Obj(map[])]))
    ensures AfterRun(Obj(f), Strip(k, m, x)) == Stripped(k, m) && Apply(Obj(g), AfterRun(Obj(f), Strip(k, m, x))).Err?
  {
    hide Make, Decode, SplitPointer, Step, AfterRun;
    AddStep(f, k, Single(m, x));
    RemoveStep(f, k, m, map[m := x]);
    assert map[m := x] - {m} == map[];
    ApplyTwo(Obj(f), Strip(k, m, x)[0], Strip(k, m, x)[1]);
    StripInside(f, k, m, x);
    AddStep(g, k, Obj(map[]));
    RemoveStep(g, k, m, map[]);
    ApplyTwo(Obj(g), Stripped(k, m)[0], Stripped(k, m)[1]);
  }

  // ----- where the exact condition ends -----

  function ThereAndBack(k: string, m: string, x: Json): seq<Json> {
    [Make([k], Insert(Obj(map[]))), Make([k, m], Insert(x)), Make([k, m], Delete)]
  }

  lemma NestedStep(f: map<string, Json>, k: string, m: string, x: Json)
    requires k != "" && m != ""
    ensures Decode(Make([k, m], Insert(x))).Ok? && EditOf(Make([k, m], Insert(x))) == Insert(x)
    ensures Step(Obj(f[k := Obj(map[])]), Make([k, m], Insert(x))) == Ok(Obj(f[k := Single(m, x)]))
    ensures Inside(Obj(f[k := Obj(map[])]), TokensOf(Make([k, m], Insert(x))), Insert(x), [Key(k)])
    ensures PlacedBy(Obj(f[k := Obj(map[])]), Make([k, m], Insert(x))) == [Key(k), Key(m)]
  {
    hide Make, Decode, SplitPointer;
    MakeRuns(Obj(f[k := Obj(map[])]), [k, m], Insert(x));
    assert [k, m][1..] == [m];
    assert PlaceOf(Obj(map[]), [m], Insert(x)) == [Key(m)];
    assert PlaceOf(Obj(f[k := Obj(map[])]), [k, m], Insert(x)) == [Key(k)] + [Key(m)];
    assert f[k := Obj(map[])][k := Single(m, x)] == f[k := Single(m, x)];
  }

  lemma RemoveBack(f: map<string, Json>, k: string, m: string, x: Json)
    requires k != "" && m != ""
    ensures Decode(Make([k, m], Delete)).Ok? && EditOf(Make([k, m], Delete)) == Delete
    ensures Step(Obj(f[k := Single(m, x)]), Make([k, m], Delete)) == Ok(Obj(f[k := Obj(map[])]))
    ensures Inside(Obj(f[k := Single(m, x)]), TokensOf(Make([k, m], Delete)), Delete, [Key(k)])
    ensures Moved(Obj(f[k := Single(m, x)]), TokensOf(Make([k, m], Delete)), Delete, [Key(k), Key(m)]) == None
  {
    hide Make, Decode, SplitPointer;
    RemoveStep(f, k, m, map[m := x]);
    assert map[m := x] - {m} == map[];
    MakeRuns(Obj(f[k := Single(m, x)]), [k, m], Delete);
    assert [k, m][1..] == [m];
    assert [Key(k), Key(m)][1..] == [Key(m)];
  }

  // Adds a dict, a key in it, and removes that key: the dict is touched twice, and the run leaves the
  // patch as it was.
  lemma {:induction false} TouchedTwiceMayReturn(f: map<string, Json>, k: string, m: string, x: Json)
    requires k != "" && m != ""
    ensures var ops := ThereAndBack(k, m, x);
            Apply(Obj(f), ops).Ok? && !Untouched(Obj(f), ops) && AfterRun(Obj(f), ops) == ops
  {
    hide Make, Decode, SplitPointer, Step, PlacedBy, Inside, Moved, EditOf, Single, MovedBy, Find, TokensOf;
    var ops := ThereAndBack(k, m, x);
    var a, b, c := ops[0], ops[1], ops[2];
    var d1, d2 := Obj(f[k := Obj(map[])]), Obj(f[k := Single(m, x)]);
    assert ops[1..] == [b, c] && [b, c][1..] == [c] && [c][1..] == [];
    AddStep(f, k, Obj(map[]));
    NestedStep(f, k, m, x);
    RemoveBack(f, k, m, x);
    MakeEdit([k], Insert(Obj(map[])));
    FirstReturns(f, k, m, x);
    SecondStays(f, k, m, x);
    LastStays(d2, c);
    DecodedStep(Obj(f), a);
    DecodedStep(d1, b);
    MakeValue([k], Obj(map[]), Obj(map[]));
    MakeValue([k, m], x, x);
    assert AfterRun(d1, [b, c]) == [b] + AfterRun(d2, [c]);
    assert AfterRun(Obj(f), ops) == [a] + AfterRun(d1, [b, c]);
    assert Apply(d1, []) == Ok(d1);
    assert Apply(Obj(f), ops) == Apply(d1, [b, c]) == Apply(d2, [c]) == Apply(d1, []);
  }

  lemma MakeEdit(tokens: seq<string>, edit: Edit)
    requires Named(tokens)
    ensures Decode(Make(tokens, edit)).Ok? && EditOf(Make(tokens, edit)) == edit
  {
    MakeRuns(Null, tokens, edit);
  }

  lemma FirstReturns(f: map<string, Json>, k: string, m: string, x: Json)
    requires k != "" && m != ""
    ensures var d1, rest := Obj(f[k := Obj(map[])]), [Make([k, m], Insert(x)), Make([k, m], Delete)];
            && Find(d1, [Key(k)]).Ok? && Becomes(d1, [Key(k)], rest) == Obj(map[]) && TouchCount(d1, [Key(k)], rest) > 0
  {
    hide Make, Decode, SplitPointer, Step, PlacedBy, Inside, Moved, EditOf, MovedBy, TokensOf;
    var d1, d2 := Obj(f[k := Obj(map[])]), Obj(f[k := Single(m, x)]);
    var b, c := Make([k, m], Insert(x)), Make([k, m], Delete);
    assert [b, c][1..] == [c] && [c][1..] == [];
    NestedStep(f, k, m, x);
    RemoveBack(f, k, m, x);
    assert Find(d1, [Key(k)]) == Ok(Obj(map[])) && Find(d2, [Key(k)]) == Ok(Single(m, x));
    assert m in map[m := x] && Single(m, x) != Obj(map[]);
    InsideStays(d1, b, [Key(k)]);
    InsideStays(d2, c, [Key(k)]);
    assert Becomes(d1, [Key(k)], []) == Obj(map[]);
    assert Becomes(d2, [Key(k)], [c]) == Obj(map[]);
  }

  lemma SecondStays(f: map<string, Json>, k: string, m: string, x: Json)
    requires k != "" && m != ""
    ensures var d2 := Obj(f[k := Single(m, x)]);
            Find(d2, [Key(k), Key(m)]).Ok? && Becomes(d2, [Key(k), Key(m)], [Make([k, m], Delete)]) == x
  {
    hide Make, Decode, SplitPointer, Step, PlacedBy, Inside, Moved, EditOf, TokensOf;
    var d2, place := Obj(f[k := Single(m, x)]), [Key(k), Key(m)];
    assert place[1..] == [Key(m)] && [Key(m)][1..] == [];
    assert Find(d2, place) == Find(Single(m, x), [Key(m)]) == Find(x, []);
    RemoveBack(f, k, m, x);
  }
}
