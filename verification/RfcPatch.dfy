// The patch interpreter of core/B_learning/approval.py against the standards it follows: JSON Pointer
// (sections 3 and 4 of RFC 6901) and add, remove and replace (sections 4.1, 4.2 and 4.3 of RFC 6902).

module RfcPatch {
  import opened Basics
  import opened JsonModel
  import opened Text
  import opened Pointer
  import opened Patch
  import opened PatchInverse

  // ----- the standards -----

  // Section 3 of RFC 6901: "~" only as part of "~0" or "~1".
  predicate WellEscaped(s: string) {
    forall i | 0 <= i < |s| && s[i] == '~' :: i + 1 < |s| && (s[i + 1] == '0' || s[i + 1] == '1')
  }

  // Section 4 of RFC 6901: the tokens behind each slash, empty ones included.
  function RfcTokens(path: string): Result<seq<string>> {
    if path == "" then Ok([])
    else if path[0] != '/' || !WellEscaped(path) then Err
    else Ok(UnescapeAll(SplitSlash(path[1..])))
  }

  // An array index below a bound: a decimal number without sign, blanks or leading zeros.
  ghost function RfcIndex(bound: nat, token: string): (r: Option<nat>)
    ensures r.Some? ==> r.value < bound && Digits(r.value) == token
  {
    if exists n: nat :: n < bound && Digits(n) == token then
      var n: nat :| n < bound && Digits(n) == token;
      Some(n)
    else None
  }

  // Section 4 of RFC 6902: the target location of the operation must exist; for add, its parent.
  ghost function RfcEditParent(parent: Json, token: string, edit: Edit): Result<Json> {
    match parent
    case Arr(items) =>
      if edit.Insert? then
        if token == "-" then Ok(Arr(items + [edit.value]))
        else
          var i := RfcIndex(|items| + 1, token);
          if i.Some? then Ok(Arr(items[..i.value] + [edit.value] + items[i.value..])) else Err
      else
        var i := RfcIndex(|items|, token);
        if i.None? then Err
        else if edit.Assign? then Ok(Arr(items[i.value := edit.value]))
        else Ok(Arr(items[..i.value] + items[i.value + 1..]))
    case Obj(fields) =>
      if edit.Insert? then Ok(Obj(fields[token := edit.value]))
      else if token !in fields then Err
      else if edit.Assign? then Ok(Obj(fields[token := edit.value]))
      else Ok(Obj(fields - {token}))
    case _ => Err
  }

  ghost function RfcEdit(doc: Json, tokens: seq<string>, edit: Edit): Result<Json>
    requires tokens != []
    decreases |tokens|
  {
    if |tokens| == 1 then RfcEditParent(doc, tokens[0], edit)
    else
      match doc
      case Arr(items) =>
        var i := RfcIndex(|items|, tokens[0]);
        if i.None? then Err else
        var changed := RfcEdit(items[i.value], tokens[1..], edit);
        if changed.Ok? then Ok(Arr(items[i.value := changed.value])) else Err
      case Obj(fields) =>
        if tokens[0] !in fields then Err else
        var changed := RfcEdit(fields[tokens[0]], tokens[1..], edit);
        if changed.Ok? then Ok(Obj(fields[tokens[0] := changed.value])) else Err
      case _ => Err
  }

  // One operation below the root.
  ghost function RfcRun(doc: Json, op: Op): Result<Json> {
    var tokens := RfcTokens(op.path);
    if tokens.Err? || tokens.value == [] then Err else RfcEdit(doc, tokens.value, op.edit)
  }

  ghost function RfcApply(doc: Json, ops: seq<Json>): Result<Json>
    decreases |ops|
  {
    if ops == [] then Ok(doc)
    else if Decode(ops[0]).Err? then Err
    else
      var next := RfcRun(doc, Decode(ops[0]).value);
      if next.Ok? then RfcApply(next.value, ops[1..]) else Err
  }

  // ----- where the code is laxer -----

  // Every index the operation uses is one by the standard: in range, without sign, blanks or zeros
  // in front; "-" only to append.
  ghost predicate Standard(doc: Json, tokens: seq<string>, edit: Edit)
    requires tokens != []
    decreases |tokens|
  {
    if |tokens| == 1 then
      doc.Arr? ==>
        if edit.Insert? then tokens[0] == "-" || RfcIndex(|doc.items| + 1, tokens[0]).Some?
        else RfcIndex(|doc.items|, tokens[0]).Some?
    else
      && (doc.Arr? ==> RfcIndex(|doc.items|, tokens[0]).Some?)
      && (Child(doc, tokens[0]).Ok? ==> Standard(Child(doc, tokens[0]).value, tokens[1..], edit))
  }

  ghost predicate NoEmptyToken(path: string) {
    RfcTokens(path).Ok? && forall i | 0 <= i < |RfcTokens(path).value| :: RfcTokens(path).value[i] != []
  }

  // ----- agreement -----

  lemma IndexIsPosition(length: nat, token: string)
    requires RfcIndex(length, token).Some?
    ensures Position(length, token) == RfcIndex(length, token)
  {
    ParseIntDigits(RfcIndex(length, token).value);
  }

  lemma IndexIsInsertPosition(length: nat, token: string)
    requires RfcIndex(length + 1, token).Some?
    ensures InsertPosition(length, token) == RfcIndex(length + 1, token) && token != "-"
  {
    var i := RfcIndex(length + 1, token).value;
    ParseIntDigits(i);
    DigitsNotDash(i);
  }

  // The standard accepts an edit exactly when the code does and the index is one by the standard.
  ghost predicate Agree(rfc: Result<Json>, found: bool, code: Result<Json>, standard: bool) {
    && (rfc.Ok? <==> found && code.Ok? && standard)
    && (rfc.Ok? ==> rfc == code)
  }

  lemma ListInsertAgrees(items: seq<Json>, token: string, v: Json)
    ensures Agree(RfcEditParent(Arr(items), token, Insert(v)), true, EditParent(Arr(items), token, Insert(v)),
                  Standard(Arr(items), [token], Insert(v)))
  {
    var n := |items|;
    hide ParseInt, Clamp, Digits;
    if RfcIndex(n + 1, token).Some? { IndexIsInsertPosition(n, token); }
    assert items[..n] + [v] + items[n..] == items + [v];
  }

  lemma ListEditAgrees(items: seq<Json>, token: string, edit: Edit)
    requires !edit.Insert?
    ensures Agree(RfcEditParent(Arr(items), token, edit), Child(Arr(items), token).Ok?, EditParent(Arr(items), token, edit),
                  Standard(Arr(items), [token], edit))
  {
    hide Position, Digits, RfcIndex;
    if RfcIndex(|items|, token).Some? { IndexIsPosition(|items|, token); }
  }

  lemma FieldsAgree(parent: Json, token: string, edit: Edit)
    requires !parent.Arr?
    ensures Agree(RfcEditParent(parent, token, edit), edit.Insert? || Child(parent, token).Ok?, EditParent(parent, token, edit),
                  Standard(parent, [token], edit))
  {
  }

  lemma {:induction false} ParentAgrees(parent: Json, token: string, edit: Edit)
    ensures Agree(RfcEditParent(parent, token, edit), edit.Insert? || Child(parent, token).Ok?, EditParent(parent, token, edit),
                  Standard(parent, [token], edit))
  {
    hide *;
    if !parent.Arr? {
      FieldsAgree(parent, token, edit);
    } else if edit.Insert? {
      ListInsertAgrees(parent.items, token, edit.value);
    } else {
      ListEditAgrees(parent.items, token, edit);
    }
  }

  // One step down a list or a dict.
  lemma {:induction false} StepAgrees(doc: Json, tokens: seq<string>, edit: Edit)
    requires |tokens| > 1
    requires Child(doc, tokens[0]).Ok? ==>
               var c := Child(doc, tokens[0]).value;
               Agree(RfcEdit(c, tokens[1..], edit), edit.Insert? || Walk(c, tokens[1..]).Ok?,
                     EditAt(c, tokens[1..], edit), Standard(c, tokens[1..], edit))
    ensures Agree(RfcEdit(doc, tokens, edit), edit.Insert? || Walk(doc, tokens).Ok?, EditAt(doc, tokens, edit), Standard(doc, tokens, edit))
  {
    hide Position, Digits, RfcIndex, RfcEditParent, EditParent;
    if doc.Arr? && RfcIndex(|doc.items|, tokens[0]).Some? { IndexIsPosition(|doc.items|, tokens[0]); }
  }

  lemma {:induction false} EditAgrees(doc: Json, tokens: seq<string>, edit: Edit)
    requires tokens != []
    ensures Agree(RfcEdit(doc, tokens, edit), edit.Insert? || Walk(doc, tokens).Ok?, EditAt(doc, tokens, edit), Standard(doc, tokens, edit))
    decreases |tokens|
  {
    if |tokens| == 1 {
      hide RfcEditParent, EditParent, Agree;
      assert tokens == [tokens[0]] && tokens[1..] == [];
      ParentAgrees(doc, tokens[0], edit);
      WalkOne(doc, tokens);
    } else {
      hide *;
      if Child(doc, tokens[0]).Ok? { EditAgrees(Child(doc, tokens[0]).value, tokens[1..], edit); }
      StepAgrees(doc, tokens, edit);
    }
  }

  lemma WalkOne(doc: Json, tokens: seq<string>)
    requires |tokens| == 1
    ensures Walk(doc, tokens).Ok? <==> Child(doc, tokens[0]).Ok?
  {
  }

  lemma FirstPiece(s: string)
    ensures s == [] || s[0] == '/' ==> SplitSlash(s)[0] == []
  {
  }

  lemma UnescapeEmpty()
    ensures Unescape([]) == []
  {
  }

  lemma {:induction false} TokensAgree(path: string)
    requires NoEmptyToken(path) && RfcTokens(path).value != []
    ensures SplitPointer(path) == RfcTokens(path)
  {
    var raw := SplitSlash(path[1..]);
    UnescapeEmpty();
    forall i | 0 <= i < |raw| ensures raw[i] != [] {
      assert RfcTokens(path).value[i] == Unescape(raw[i]);
    }
    DropNothing(raw);
    FirstPiece(path[1..]);
    assert StripSlashLeft(path) == path[1..];
  }

  // For pointers without empty tokens the standard accepts an operation exactly when the code does
  // and every index is one by the standard; and then both give the same document.
  lemma {:induction false} RunAgrees(doc: Json, op: Op)
    requires NoEmptyToken(op.path) && RfcTokens(op.path).value != []
    ensures RfcRun(doc, op).Ok? <==> Run(doc, op).Ok? && Standard(doc, RfcTokens(op.path).value, op.edit)
    ensures RfcRun(doc, op).Ok? ==> Run(doc, op) == RfcRun(doc, op)
  {
    TokensAgree(op.path);
    EditAgrees(doc, RfcTokens(op.path).value, op.edit);
  }

  // So the code refines the standard: a patch without empty tokens that the standard accepts, the
  // code accepts with the same result.
  lemma {:induction false} ApplyRefinesRfc(doc: Json, ops: seq<Json>)
    requires RfcApply(doc, ops).Ok?
    requires forall i | 0 <= i < |ops| && Decode(ops[i]).Ok? :: NoEmptyToken(Decode(ops[i]).value.path)
    ensures Apply(doc, ops) == RfcApply(doc, ops)
    decreases |ops|
  {
    if ops != [] {
      var op := Decode(ops[0]).value;
      RunAgrees(doc, op);
      assert forall i | 0 <= i < |ops[1..]| :: ops[1..][i] == ops[i + 1];
      ApplyRefinesRfc(RfcRun(doc, op).value, ops[1..]);
    }
  }
}
