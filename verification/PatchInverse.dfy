// Every accepted patch can be undone by a patch.

module PatchInverse {
  import opened Basics
  import opened JsonModel
  import opened Text
  import opened Pointer
  import opened Patch

  function Encode(op: Op): Json {
    Obj(match op.edit
        case Insert(v) => map["op" := Str("add"), "path" := Str(op.path), "value" := v]
        case Assign(v) => map["op" := Str("replace"), "path" := Str(op.path), "value" := v]
        case Delete => map["op" := Str("remove"), "path" := Str(op.path)])
  }

  lemma DecodeEncode(op: Op)
    requires op.path != "" && op.path != "/"
    ensures Decode(Encode(op)) == Ok(op)
  {
  }

  // All that is written for an operation is there, among whatever else.
  ghost predicate Holds(op: Json, written: Json) {
    && op.Obj? && written.Obj?
    && forall k | k in written.fields :: k in op.fields && op.fields[k] == written.fields[k]
  }

  // A JSON value is accepted as an operation if and only if it holds what is written for it and the
  // path is not the root.
  lemma DecodeExact(op: Json, o: Op)
    ensures Decode(op) == Ok(o) <==> o.path != "" && o.path != "/" && Holds(op, Encode(o))
  {
    if Holds(op, Encode(o)) {
      var f := Encode(o).fields;
      assert "op" in f && "path" in f && (!o.edit.Delete? ==> "value" in f);
      match o.edit
      case Insert(v) => assert f["op"] == Str("add") && f["value"] == v;
      case Assign(v) => assert f["op"] == Str("replace") && f["value"] == v;
      case Delete => assert f["op"] == Str("remove");
    }
  }

  // ----- one container -----

  // The token and the edit that undo an edit of a container: a list position is named by its
  // decimal digits, a key by itself.
  function UndoToken(parent: Json, token: string, edit: Edit): string
    requires EditParent(parent, token, edit).Ok?
  {
    match parent
    case Arr(items) =>
      (match edit
       case Insert(_) => Digits(InsertPosition(|items|, token).value)
       case _ => Digits(Position(|items|, token).value))
    case _ => token
  }

  function UndoEdit(parent: Json, token: string, edit: Edit): Edit
    requires EditParent(parent, token, edit).Ok?
    requires edit.Insert? || Child(parent, token).Ok?
  {
    match parent
    case Arr(items) =>
      (match edit
       case Insert(_) => Delete
       case Assign(_) => Assign(items[Position(|items|, token).value])
       case Delete => Insert(items[Position(|items|, token).value]))
    case Obj(fields) =>
      if edit.Delete? then Insert(fields[token])
      else if edit.Assign? then Assign(fields[token])
      else if token in fields then Insert(fields[token])
      else Delete
  }

  lemma DigitsNotDash(i: nat)
    ensures Digits(i) != "-"
  {
    assert Digits(i)[0] in Digits(i);
  }

  lemma DigitsPosition(length: nat, i: nat)
    requires i <= length
    ensures i < length ==> Position(length, Digits(i)) == Some(i)
    ensures InsertPosition(length, Digits(i)) == Some(i)
  {
    ParseIntDigits(i);
    DigitsNotDash(i);
    var n := ParseInt(Digits(i));
    assert n == Some(i);
  }

  lemma UndoInsert(items: seq<Json>, i: nat, v: Json)
    requires i <= |items|
    ensures EditParent(Arr(items[..i] + [v] + items[i..]), Digits(i), Delete) == Ok(Arr(items))
    ensures Child(Arr(items[..i] + [v] + items[i..]), Digits(i)).Ok?
  {
    var longer := items[..i] + [v] + items[i..];
    DigitsPosition(|longer|, i);
    assert longer[..i] + longer[i + 1..] == items;
  }

  lemma UndoAssign(items: seq<Json>, i: nat, v: Json)
    requires i < |items|
    ensures EditParent(Arr(items[i := v]), Digits(i), Assign(items[i])) == Ok(Arr(items))
    ensures Child(Arr(items[i := v]), Digits(i)).Ok?
  {
    var changed := items[i := v];
    DigitsPosition(|changed|, i);
    assert changed[i := items[i]] == items;
  }

  lemma UndoDelete(items: seq<Json>, i: nat)
    requires i < |items|
    ensures EditParent(Arr(items[..i] + items[i + 1..]), Digits(i), Insert(items[i])) == Ok(Arr(items))
  {
    var shorter := items[..i] + items[i + 1..];
    DigitsPosition(|shorter|, i);
    assert shorter[..i] + [items[i]] + shorter[i..] == items;
  }

  // What undoing means for one container.
  ghost predicate Undone(parent: Json, changed: Json, token: string, edit: Edit) {
    EditParent(changed, token, edit) == Ok(parent) && (edit.Insert? || Child(changed, token).Ok?)
  }

  lemma UndoParent(parent: Json, token: string, edit: Edit)
    requires EditParent(parent, token, edit).Ok?
    requires edit.Insert? || Child(parent, token).Ok?
    ensures Undone(parent, EditParent(parent, token, edit).value,
                   UndoToken(parent, token, edit), UndoEdit(parent, token, edit))
  {
    if parent.Arr? {
      match edit
      case Insert(v) => UndoInsert(parent.items, InsertPosition(|parent.items|, token).value, v);
      case Assign(v) => UndoAssign(parent.items, Position(|parent.items|, token).value, v);
      case Delete => UndoDelete(parent.items, Position(|parent.items|, token).value);
    } else {
      UndoFields(parent.fields, token, edit);
    }
  }

  lemma UndoFields(fields: map<string, Json>, key: string, edit: Edit)
    requires edit.Insert? || key in fields
    ensures Undone(Obj(fields), EditParent(Obj(fields), key, edit).value, key, UndoEdit(Obj(fields), key, edit))
  {
    var changed := EditParent(Obj(fields), key, edit).value.fields;
    if key in fields {
      assert changed[key := fields[key]] == fields;
    } else {
      assert changed - {key} == fields;
    }
  }

  // ----- one operation -----

  lemma WithChildSame(cur: Json, token: string, child: Json)
    requires Child(cur, token).Ok?
    ensures Child(WithChild(cur, token, child), token) == Ok(child)
    ensures WithChild(WithChild(cur, token, child), token, Child(cur, token).value) == cur
  {
    match cur
    case Arr(items) =>
      var i := Position(|items|, token).value;
      assert items[i := child][i := items[i]] == items;
    case Obj(fields) =>
      assert fields[token := child][token := fields[token]] == fields;
  }

  // An edit under tokens changes the container there and nothing else; undoing it in that
  // container undoes it in the document.
  lemma {:induction false} EditAtContainer(doc: Json, tokens: seq<string>, token: string, edit: Edit)
    requires EditAt(doc, tokens + [token], edit).Ok?
    ensures Walk(doc, tokens).Ok?
    ensures EditParent(Walk(doc, tokens).value, token, edit).Ok?
    ensures Walk(EditAt(doc, tokens + [token], edit).value, tokens) == EditParent(Walk(doc, tokens).value, token, edit)
    decreases |tokens|
  {
    if tokens == [] {
      assert tokens + [token] == [token];
    } else {
      var c := Child(doc, tokens[0]).value;
      assert (tokens + [token])[1..] == tokens[1..] + [token];
      EditAtContainer(c, tokens[1..], token, edit);
      WithChildSame(doc, tokens[0], EditAt(c, tokens[1..] + [token], edit).value);
    }
  }

  lemma {:induction false} UndoAt(doc: Json, tokens: seq<string>, token: string, edit: Edit, undo: string, back: Edit)
    requires EditAt(doc, tokens + [token], edit).Ok?
    requires Walk(doc, tokens).Ok? && EditParent(Walk(doc, tokens).value, token, edit).Ok?
    requires EditParent(EditParent(Walk(doc, tokens).value, token, edit).value, undo, back) == Walk(doc, tokens)
    ensures EditAt(EditAt(doc, tokens + [token], edit).value, tokens + [undo], back) == Ok(doc)
    decreases |tokens|
  {
    if tokens == [] {
      assert tokens + [token] == [token] && tokens + [undo] == [undo];
    } else {
      var c := Child(doc, tokens[0]).value;
      assert (tokens + [token])[1..] == tokens[1..] + [token];
      assert (tokens + [undo])[1..] == tokens[1..] + [undo];
      UndoAt(c, tokens[1..], token, edit, undo, back);
      WithChildSame(doc, tokens[0], EditAt(c, tokens[1..] + [token], edit).value);
    }
  }

  lemma {:induction false} WalkAppend(doc: Json, tokens: seq<string>, token: string)
    ensures Walk(doc, tokens + [token])
            == if Walk(doc, tokens).Ok? then Child(Walk(doc, tokens).value, token) else Err
    decreases |tokens|
  {
    if tokens == [] {
      assert tokens + [token] == [token];
    } else {
      assert (tokens + [token])[1..] == tokens[1..] + [token];
      if Child(doc, tokens[0]).Ok? { WalkAppend(Child(doc, tokens[0]).value, tokens[1..], token); }
    }
  }

  // The tokens of the container an operation edits, and the token inside it.
  ghost predicate Splits(path: string, front: seq<string>, last: string) {
    SplitPointer(path) == Ok(front + [last])
  }

  function Front(path: string): seq<string>
    requires SplitPointer(path).Ok? && SplitPointer(path).value != []
  {
    var tokens := SplitPointer(path).value;
    tokens[..|tokens| - 1]
  }

  function Last(path: string): string
    requires SplitPointer(path).Ok? && SplitPointer(path).value != []
  {
    var tokens := SplitPointer(path).value;
    tokens[|tokens| - 1]
  }

  lemma FrontLast(path: string)
    requires SplitPointer(path).Ok? && SplitPointer(path).value != []
    ensures Splits(path, Front(path), Last(path))
    ensures Last(path) != []
    ensures forall i | 0 <= i < |Front(path)| :: Front(path)[i] != []
  {
    var tokens := SplitPointer(path).value;
    assert tokens == tokens[..|tokens| - 1] + [tokens[|tokens| - 1]];
    SplitTokensNonEmpty(path);
  }

  // An accepted operation found its container, and edited the container it found.
  ghost predicate Lands(doc: Json, changed: Json, front: seq<string>, last: string, edit: Edit) {
    && EditAt(doc, front + [last], edit) == Ok(changed)
    && Walk(doc, front).Ok?
    && EditParent(Walk(doc, front).value, last, edit).Ok?
    && (edit.Insert? || Child(Walk(doc, front).value, last).Ok?)
  }

  lemma RunLands(doc: Json, op: Op, front: seq<string>, last: string)
    requires Splits(op.path, front, last)
    requires Run(doc, op).Ok?
    ensures Lands(doc, Run(doc, op).value, front, last, op.edit)
  {
    EditAtContainer(doc, front, last, op.edit);
    WalkAppend(doc, front, last);
  }

  // The operation that undoes an accepted operation.
  function InverseOp(doc: Json, op: Op): Op
    requires Run(doc, op).Ok?
  {
    var front, last := Front(op.path), Last(op.path);
    FrontLast(op.path);
    RunLands(doc, op, front, last);
    var parent := Walk(doc, front).value;
    Op(JoinPointer(front + [UndoToken(parent, last, op.edit)]), UndoEdit(parent, last, op.edit))
  }

  lemma UndoPointer(front: seq<string>, token: string)
    requires token != [] && forall i | 0 <= i < |front| :: front[i] != []
    ensures JoinPointer(front + [token]) != "" && JoinPointer(front + [token]) != "/"
    ensures Splits(JoinPointer(front + [token]), front, token)
  {
    PointerRoundTrip(front + [token]);
    JoinNotRoot(front + [token]);
  }

  lemma UndoTokenNonEmpty(parent: Json, token: string, edit: Edit)
    requires EditParent(parent, token, edit).Ok? && token != []
    ensures UndoToken(parent, token, edit) != []
  {
  }

  // Undoing in the container is undoing in the document, through a pointer to the container.
  lemma RunUndone(doc: Json, changed: Json, front: seq<string>, last: string, edit: Edit, undo: Op, token: string)
    requires Lands(doc, changed, front, last, edit)
    requires Undone(Walk(doc, front).value, EditParent(Walk(doc, front).value, last, edit).value, token, undo.edit)
    requires Splits(undo.path, front, token)
    ensures Run(changed, undo) == Ok(doc)
  {
    EditAtContainer(doc, front, last, edit);
    UndoAt(doc, front, last, edit, token, undo.edit);
    WalkAppend(changed, front, token);
  }

  lemma {:induction false} InverseOpUndoes(doc: Json, op: Op)
    requires Run(doc, op).Ok?
    ensures InverseOp(doc, op).path != "" && InverseOp(doc, op).path != "/"
    ensures Run(Run(doc, op).value, InverseOp(doc, op)) == Ok(doc)
  {
    var front, last := Front(op.path), Last(op.path);
    FrontLast(op.path);
    RunLands(doc, op, front, last);
    var parent := Walk(doc, front).value;
    UndoTokenNonEmpty(parent, last, op.edit);
    UndoParent(parent, last, op.edit);
    var token := UndoToken(parent, last, op.edit);
    UndoPointer(front, token);
    RunUndone(doc, Run(doc, op).value, front, last, op.edit, InverseOp(doc, op), token);
  }

  // ----- whole patches -----

  // The inverses of the operations, last one first.
  function InversePatch(doc: Json, ops: seq<Json>): seq<Json>
    requires Apply(doc, ops).Ok?
    decreases |ops|
  {
    if ops == [] then [] else
    InversePatch(Step(doc, ops[0]).value, ops[1..]) + [Encode(InverseOp(doc, Decode(ops[0]).value))]
  }

  // Every accepted patch on every document is undone by its inverse patch, which apply_patch
  // accepts; negative and clamped list indices and appends by "-" included.
  lemma {:induction false} PatchInvertible(doc: Json, ops: seq<Json>)
    requires Apply(doc, ops).Ok?
    ensures Apply(Apply(doc, ops).value, InversePatch(doc, ops)) == Ok(doc)
    decreases |ops|
  {
    if ops != [] {
      var op := Decode(ops[0]).value;
      var next := Run(doc, op).value;
      var result := Apply(doc, ops).value;
      PatchInvertible(next, ops[1..]);
      InverseOpUndoes(doc, op);
      var last := Encode(InverseOp(doc, op));
      DecodeEncode(InverseOp(doc, op));
      ApplyAppend(result, InversePatch(next, ops[1..]), [last]);
      assert Apply(next, [last]) == Apply(doc, []);
    }
  }

  // ----- what an operation writes -----

  lemma WrittenInParent(parent: Json, token: string, edit: Edit)
    requires EditParent(parent, token, edit).Ok? && !edit.Delete?
    ensures Child(EditParent(parent, token, edit).value, UndoToken(parent, token, edit)) == Ok(edit.value)
  {
    if parent.Arr? {
      var n := |parent.items|;
      if edit.Insert? {
        DigitsPosition(n + 1, InsertPosition(n, token).value);
      } else {
        DigitsPosition(n, Position(n, token).value);
      }
    }
  }

  // After an accepted "add" or "replace", its value is read back where the operation's pointer
  // points: under the key itself, or under the list position it resolved to.
  lemma ValueReadsBack(doc: Json, op: Op)
    requires Run(doc, op).Ok? && !op.edit.Delete?
    ensures Walk(doc, Front(op.path)).Ok?
    ensures EditParent(Walk(doc, Front(op.path)).value, Last(op.path), op.edit).Ok?
    ensures Walk(Run(doc, op).value,
                 Front(op.path) + [UndoToken(Walk(doc, Front(op.path)).value, Last(op.path), op.edit)])
            == Ok(op.edit.value)
  {
    var front, last := Front(op.path), Last(op.path);
    FrontLast(op.path);
    RunLands(doc, op, front, last);
    EditAtContainer(doc, front, last, op.edit);
    var parent := Walk(doc, front).value;
    WrittenInParent(parent, last, op.edit);
    WalkAppend(Run(doc, op).value, front, UndoToken(parent, last, op.edit));
  }
}
