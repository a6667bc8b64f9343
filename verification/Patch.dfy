// core/B_learning/approval.py: apply_patch, the JSON Patch interpreter
// (add, remove and replace of sections 4.1, 4.2 and 4.3 of RFC 6902, as the code runs them).

module Patch {
  import opened Basics
  import opened JsonModel
  import opened Text
  import opened Pointer

  // ----- walking -----

  // The position that items[int(token)] denotes: a negative index counts from the end.
  function Position(length: nat, token: string): (r: Option<nat>)
    ensures r.Some? ==> r.value < length
  {
    match ParseInt(token)
    case Some(i) =>
      if 0 <= i < length then Some(i)
      else if i < 0 && 0 <= i + length then Some(i + length)
      else None
    case None => None
  }

  // One step into a container: cur[int(p)] on a list, cur[p] otherwise.
  function Child(cur: Json, token: string): Result<Json> {
    match cur
    case Arr(items) =>
      (match Position(|items|, token)
       case Some(i) => Ok(items[i])
       case None => Err)
    case Obj(fields) => if token in fields then Ok(fields[token]) else Err
    case _ => Err
  }

  function Walk(doc: Json, tokens: seq<string>): Result<Json> {
    if tokens == [] then Ok(doc) else
    var c := Child(doc, tokens[0]);
    if c.Ok? then Walk(c.value, tokens[1..]) else Err
  }

  // _get
  method GetAt(doc: Json, pointer: string) returns (r: Result<Json>)
    ensures r == (if SplitPointer(pointer).Ok? then Walk(doc, SplitPointer(pointer).value) else Err)
  {
    var parts := SplitPointer(pointer);
    if parts.Err? {
      return Err;
    }
    var cur := doc;
    for i := 0 to |parts.value|
      invariant Walk(doc, parts.value) == Walk(cur, parts.value[i..])
    {
      var next := Child(cur, parts.value[i]);
      if next.Err? {
        return Err;
      }
      cur := next.value;
    }
    return Ok(cur);
  }

  // ----- editing -----

  // What one operation does to the container its pointer ends in.
  datatype Edit = Insert(value: Json) | Assign(value: Json) | Delete

  // list.insert clamps its index into the list.
  function Clamp(i: int, length: nat): nat {
    if i < 0 then (if i + length < 0 then 0 else i + length)
    else if i > length then length
    else i
  }

  // Where "add" puts a value into a list: "-" appends.
  function InsertPosition(length: nat, token: string): (r: Option<nat>)
    ensures r.Some? ==> r.value <= length
  {
    if token == "-" then Some(length) else
    match ParseInt(token)
    case Some(i) => Some(Clamp(i, length))
    case None => None
  }

  function EditParent(parent: Json, token: string, edit: Edit): Result<Json> {
    match parent
    case Arr(items) =>
      (match edit
       case Insert(v) =>
         (match InsertPosition(|items|, token)
          case Some(i) => Ok(Arr(items[..i] + [v] + items[i..]))
          case None => Err)
       case Assign(v) =>
         (match Position(|items|, token)
          case Some(i) => Ok(Arr(items[i := v]))
          case None => Err)
       case Delete =>
         (match Position(|items|, token)
          case Some(i) => Ok(Arr(items[..i] + items[i + 1..]))
          case None => Err))
    case Obj(fields) =>
      (match edit
       case Insert(v) => Ok(Obj(fields[token := v]))
       case Assign(v) => Ok(Obj(fields[token := v]))
       case Delete => Ok(Obj(fields - {token})))
    case _ => Err
  }

  // Puts a changed child back where Child found it.
  function WithChild(cur: Json, token: string, child: Json): Json
    requires Child(cur, token).Ok?
  {
    match cur
    case Arr(items) => Arr(items[Position(|items|, token).value := child])
    case Obj(fields) => Obj(fields[token := child])
  }

  // The whole document after the container under the given tokens is edited in place.
  function EditAt(doc: Json, tokens: seq<string>, edit: Edit): Result<Json>
    requires tokens != []
  {
    if |tokens| == 1 then EditParent(doc, tokens[0], edit) else
    var c := Child(doc, tokens[0]);
    if c.Err? then Err else
    var changed := EditAt(c.value, tokens[1..], edit);
    if changed.Err? then Err else Ok(WithChild(doc, tokens[0], changed.value))
  }

  // ----- operations -----

  datatype Op = Op(path: string, edit: Edit)

  // The checks of the loop body, in order, on one operation as read from a log.
  function Decode(op: Json): Result<Op> {
    if !op.Obj? then Err else
    var kind := Get(op.fields, "op");
    var path := Get(op.fields, "path");
    if kind !in {Str("add"), Str("replace"), Str("remove")} then Err
    else if !path.Str? then Err
    else if path.s == "" || path.s == "/" then Err
    else if kind == Str("remove") then Ok(Op(path.s, Delete))
    else if "value" !in op.fields then Err
    else Ok(Op(path.s, if kind == Str("add") then Insert(op.fields["value"]) else Assign(op.fields["value"])))
  }

  // One decoded operation.  "replace" and "remove" first ask whether the location exists.
  function Run(doc: Json, op: Op): Result<Json> {
    var tokens := SplitPointer(op.path);
    if tokens.Err? || tokens.value == [] then Err
    else if !op.edit.Insert? && Walk(doc, tokens.value).Err? then Err
    else EditAt(doc, tokens.value, op.edit)
  }

  function Step(doc: Json, op: Json): Result<Json> {
    var d := Decode(op);
    if d.Ok? then Run(doc, d.value) else Err
  }

  function Apply(doc: Json, ops: seq<Json>): Result<Json>
    decreases |ops|
  {
    if ops == [] then Ok(doc) else
    var next := Step(doc, ops[0]);
    if next.Ok? then Apply(next.value, ops[1..]) else Err
  }

  // apply_patch: the loop over the operations, on a copy of the document.
  method ApplyPatch(doc: Json, ops: seq<Json>) returns (r: Result<Json>)
    ensures r == Apply(doc, ops)
  {
    var newDoc := doc;
    for i := 0 to |ops|
      invariant Apply(doc, ops) == Apply(newDoc, ops[i..])
    {
      var op := Decode(ops[i]);
      if op.Err? {
        return Err;
      }
      var tokens := SplitPointer(op.value.path);
      if tokens.Err? || tokens.value == [] {
        return Err;
      }
      if !op.value.edit.Insert? {
        var found := GetAt(newDoc, op.value.path);
        if found.Err? {
          return Err;
        }
      }
      var edited := EditAt(newDoc, tokens.value, op.value.edit);
      if edited.Err? {
        return Err;
      }
      newDoc := edited.value;
    }
    return Ok(newDoc);
  }

  lemma {:induction false} ApplyAppend(doc: Json, a: seq<Json>, b: seq<Json>)
    requires Apply(doc, a).Ok?
    ensures Apply(doc, a + b) == Apply(Apply(doc, a).value, b)
    decreases |a|
  {
    hide Step;
    if a == [] {
      assert a + b == b;
    } else {
      assert (a + b)[1..] == a[1..] + b && (a + b)[0] == a[0];
      ApplyAppend(Step(doc, a[0]).value, a[1..], b);
    }
  }
}
