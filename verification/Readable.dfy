// The printer is uniquely readable: a printed value followed by anything that may follow a value
// inside a document determines the value and what follows it.

module Readable {
  import opened Basics
  import opened JsonModel

  // What may come after a value: the end of the text, a comma or a closing bracket.
  predicate Stops(s: string) {
    s == [] || s[0] in ",]}"
  }

  predicate IsScalar(j: Json) {
    !j.Str? && !j.Arr? && !j.Obj?
  }

  predicate IsTokenChar(c: char) {
    IsNumberChar(c) || 'a' <= c <= 'z' || c == 'I' || c == 'N'
  }

  predicate IsToken(s: string) {
    forall i | 0 <= i < |s| :: IsTokenChar(s[i])
  }

  lemma ScalarToken(j: Json)
    requires IsScalar(j)
    ensures IsToken(Print(j)) && Print(j) != []
  {
    var s := Print(j);
    match j
    case Int(n) =>
      forall i | 0 <= i < |s| ensures IsTokenChar(s[i]) { IntChar(n, s[i]); }
    case Float(text) =>
      assert forall i | 0 <= i < |s| :: s[i] in s;
    case _ =>
  }

  lemma IntChar(n: int, c: char)
    requires c in IntText(n)
    ensures c == '-' || '0' <= c <= '9'
  {
    if c != '-' { assert c in Digits(if n < 0 then -n else n); }
  }

  lemma TokenNotLonger(x: string, y: string, s: string, t: string)
    requires IsToken(y) && Stops(s)
    requires x + s == y + t
    ensures |y| <= |x|
  {
    assert forall i | 0 <= i < |y| :: (y + t)[i] == y[i];
    assert s != [] ==> (x + s)[|x|] == s[0];
  }

  // A token ends where the token characters end.
  lemma TokenReadable(x: string, y: string, s: string, t: string)
    requires IsToken(x) && IsToken(y)
    requires Stops(s) && Stops(t)
    requires x + s == y + t
    ensures x == y && s == t
  {
    TokenNotLonger(x, y, s, t);
    TokenNotLonger(y, x, t, s);
    SplitSame(x, y, s, t);
  }

  lemma ScalarReadable(a: Json, b: Json, s: string, t: string)
    requires IsScalar(a) && IsScalar(b)
    requires Print(a) + s == Print(b) + t
    requires Stops(s) && Stops(t)
    ensures a == b && s == t
  {
    ScalarToken(a);
    ScalarToken(b);
    TokenReadable(Print(a), Print(b), s, t);
    ScalarKind(a);
    ScalarKind(b);
    if a.Int? { IntTextInjective(a.n, b.n); }
  }

  predicate IsIntText(s: string) {
    forall c | c in s :: c == '-' || '0' <= c <= '9'
  }

  // The three kinds of scalar text are disjoint.
  lemma ScalarKind(j: Json)
    requires IsScalar(j)
    ensures j.Int? <==> IsIntText(Print(j))
    ensures j.Float? <==> IsFloatText(Print(j))
  {
    var s := Print(j);
    if j.Int? {
      forall c | c in s ensures c == '-' || '0' <= c <= '9' { IntChar(j.n, c); }
      assert |s| > 1 ==> s[1] in s;
    } else if j.Float? {
      assert s == "NaN" || s == "Infinity" || s == "-Infinity" ==> s[1] in s;
    } else {
      assert s[1] in s;
    }
  }

  lemma FirstChar(j: Json)
    ensures Print(j) != []
    ensures j.Str? <==> Print(j)[0] == '"'
    ensures j.Arr? <==> Print(j)[0] == '['
    ensures j.Obj? <==> Print(j)[0] == '{'
    ensures !Stops(Print(j))
  {
    if IsScalar(j) {
      ScalarToken(j);
    } else {
      assert j.Obj? && j.fields != map[] ==> SortedKeys(j.fields.Keys) != [];
    }
  }

  lemma {:induction false} ValueReadable(a: Json, b: Json, s: string, t: string)
    requires Print(a) + s == Print(b) + t
    requires Stops(s) && Stops(t)
    ensures a == b && s == t
    decreases a, 1, 0
  {
    FirstChar(a);
    FirstChar(b);
    assert Print(a)[0] == (Print(a) + s)[0] == (Print(b) + t)[0] == Print(b)[0];
    match a
    case Str(x) => QuoteReadable(x, b.s, s, t);
    case Arr(xs) => ArrayReadable(xs, b.items, s, t);
    case Obj(_) => ObjectReadable(a, b, s, t);
    case _ => ScalarReadable(a, b, s, t);
  }

  lemma ItemsStop(xs: seq<Json>, s: string)
    ensures Stops(PrintItems(xs) + s)
    ensures (PrintItems(xs) + s)[0] == ']' <==> xs == []
  {
    if xs != [] { assert PrintItems(xs)[0] == ','; }
  }

  lemma {:induction false} ArrayReadable(xs: seq<Json>, ys: seq<Json>, s: string, t: string)
    requires Print(Arr(xs)) + s == Print(Arr(ys)) + t
    ensures xs == ys && s == t
    decreases xs, 2, 0
  {
    ArrayTail(xs, s);
    ArrayTail(ys, t);
    if xs == [] {
      SplitSame("[]", "[]", s, t);
    } else {
      ItemsStop(xs[1..], s);
      ItemsStop(ys[1..], t);
      ValueReadable(xs[0], ys[0], PrintItems(xs[1..]) + s, PrintItems(ys[1..]) + t);
      ItemsReadable(xs[1..], ys[1..], s, t);
      assert xs == [xs[0]] + xs[1..] && ys == [ys[0]] + ys[1..];
    }
  }

  lemma ArrayTail(xs: seq<Json>, s: string)
    ensures |Print(Arr(xs))| >= 2
    ensures xs == [] <==> (Print(Arr(xs)) + s)[1] == ']'
    ensures xs != [] ==> (Print(Arr(xs)) + s)[1..] == Print(xs[0]) + (PrintItems(xs[1..]) + s)
  {
    if xs != [] {
      FirstChar(xs[0]);
      Regroup("[", Print(xs[0]), PrintItems(xs[1..]), s);
    }
  }

  lemma ItemsTail(xs: seq<Json>, s: string)
    requires xs != []
    ensures (PrintItems(xs) + s)[1..] == Print(xs[0]) + (PrintItems(xs[1..]) + s)
  {
    Regroup(",", Print(xs[0]), PrintItems(xs[1..]), s);
  }

  lemma {:induction false} ItemsReadable(xs: seq<Json>, ys: seq<Json>, s: string, t: string)
    requires PrintItems(xs) + s == PrintItems(ys) + t
    ensures xs == ys && s == t
    decreases xs, 0, 0
  {
    ItemsStop(xs, s);
    ItemsStop(ys, t);
    if xs == [] {
      SplitSame("]", "]", s, t);
    } else {
      ItemsTail(xs, s);
      ItemsTail(ys, t);
      ItemsStop(xs[1..], s);
      ItemsStop(ys[1..], t);
      ValueReadable(xs[0], ys[0], PrintItems(xs[1..]) + s, PrintItems(ys[1..]) + t);
      ItemsReadable(xs[1..], ys[1..], s, t);
      assert xs == [xs[0]] + xs[1..] && ys == [ys[0]] + ys[1..];
    }
  }

  ghost predicate KeysOf(o: Json, ks: seq<string>) {
    o.Obj? && forall k | k in ks :: k in o.fields
  }

  ghost predicate SameMembers(a: Json, b: Json, ks: seq<string>)
    requires KeysOf(a, ks) && KeysOf(b, ks)
  {
    forall k | k in ks :: a.fields[k] == b.fields[k]
  }

  lemma {:induction false} ObjectReadable(a: Json, b: Json, s: string, t: string)
    requires a.Obj? && b.Obj?
    requires Print(a) + s == Print(b) + t
    ensures a == b && s == t
    decreases a, 0, 1 + |SortedKeys(a.fields.Keys)|
  {
    var ks, ls := SortedKeys(a.fields.Keys), SortedKeys(b.fields.Keys);
    SortedKeysOf(a);
    SortedKeysOf(b);
    ObjectTail(a, ks, s);
    ObjectTail(b, ls, t);
    if ks == [] {
      SplitSame("{}", "{}", s, t);
    } else {
      MembersStop(a, ks[1..], s);
      MembersStop(b, ls[1..], t);
      MemberReadable(a, b, ks[0], ls[0], PrintMembers(a, ks[1..]) + s, PrintMembers(b, ls[1..]) + t);
      MembersReadable(a, b, ks[1..], ls[1..], s, t);
      assert ks == [ks[0]] + ks[1..] && ls == [ls[0]] + ls[1..];
    }
    SameObjects(a, b, ks);
  }

  lemma SortedKeysOf(o: Json)
    requires o.Obj?
    ensures KeysOf(o, SortedKeys(o.fields.Keys))
  {
    var ks := SortedKeys(o.fields.Keys);
    assert forall k | k in ks :: k in Elements(ks);
  }

  lemma SameObjects(a: Json, b: Json, ks: seq<string>)
    requires a.Obj? && b.Obj?
    requires ks == SortedKeys(a.fields.Keys) == SortedKeys(b.fields.Keys)
    requires KeysOf(a, ks) && KeysOf(b, ks) && SameMembers(a, b, ks)
    ensures a == b
  {
    assert a.fields.Keys == Elements(ks) == b.fields.Keys;
    assert forall k | k in a.fields :: k in Elements(ks) && k in ks;
    assert a.fields == b.fields;
  }

  lemma ObjectText(o: Json, ks: seq<string>)
    requires o.Obj? && ks == SortedKeys(o.fields.Keys) && KeysOf(o, ks)
    ensures ks == [] ==> Print(o) == "{}"
    ensures ks != [] ==> Print(o) == "{" + PrintMember(o, ks[0]) + PrintMembers(o, ks[1..])
    ensures ks != [] ==> PrintMember(o, ks[0])[0] == '"'
  {
  }

  lemma ObjectTail(o: Json, ks: seq<string>, s: string)
    requires o.Obj? && ks == SortedKeys(o.fields.Keys) && KeysOf(o, ks)
    ensures |Print(o)| >= 2
    ensures ks == [] <==> (Print(o) + s)[1] == '}'
    ensures ks != [] ==> (Print(o) + s)[1..] == PrintMember(o, ks[0]) + (PrintMembers(o, ks[1..]) + s)
  {
    ObjectText(o, ks);
    if ks != [] {
      var m, r := PrintMember(o, ks[0]), PrintMembers(o, ks[1..]);
      Regroup("{", m, r, s);
      SplitSame("{", "{", (Print(o) + s)[1..], m + (r + s));
    }
  }

  lemma MembersStop(o: Json, ks: seq<string>, s: string)
    requires KeysOf(o, ks)
    ensures Stops(PrintMembers(o, ks) + s)
    ensures (PrintMembers(o, ks) + s)[0] == '}' <==> ks == []
  {
    if ks != [] { assert PrintMembers(o, ks)[0] == ','; }
  }

  lemma {:induction false} MemberReadable(a: Json, b: Json, k: string, l: string, s: string, t: string)
    requires KeysOf(a, [k]) && KeysOf(b, [l])
    requires PrintMember(a, k) + s == PrintMember(b, l) + t
    requires Stops(s) && Stops(t)
    ensures k == l && a.fields[k] == b.fields[l] && s == t
    decreases a, 0, 0
  {
    var x, y := Print(a.fields[k]), Print(b.fields[l]);
    assert k in [k] && l in [l];
    Regroup(Quote(k), ":", x, s);
    Regroup(Quote(l), ":", y, t);
    QuoteReadable(k, l, ":" + x + s, ":" + y + t);
    assert (":" + x + s)[1..] == x + s && (":" + y + t)[1..] == y + t;
    ValueReadable(a.fields[k], b.fields[l], s, t);
  }

  lemma MembersTail(o: Json, ks: seq<string>, s: string)
    requires KeysOf(o, ks) && ks != []
    ensures (PrintMembers(o, ks) + s)[1..] == PrintMember(o, ks[0]) + (PrintMembers(o, ks[1..]) + s)
  {
    Regroup(",", PrintMember(o, ks[0]), PrintMembers(o, ks[1..]), s);
  }

  lemma {:induction false} MembersReadable(a: Json, b: Json, ks: seq<string>, ls: seq<string>, s: string, t: string)
    requires KeysOf(a, ks) && KeysOf(b, ls)
    requires PrintMembers(a, ks) + s == PrintMembers(b, ls) + t
    ensures ks == ls && SameMembers(a, b, ks) && s == t
    decreases a, 0, 1 + |ks|
  {
    MembersStop(a, ks, s);
    MembersStop(b, ls, t);
    if ks == [] {
      SplitSame("}", "}", s, t);
    } else {
      MembersTail(a, ks, s);
      MembersTail(b, ls, t);
      MembersStop(a, ks[1..], s);
      MembersStop(b, ls[1..], t);
      MemberReadable(a, b, ks[0], ls[0], PrintMembers(a, ks[1..]) + s, PrintMembers(b, ls[1..]) + t);
      MembersReadable(a, b, ks[1..], ls[1..], s, t);
      assert ks == [ks[0]] + ks[1..] && ls == [ls[0]] + ls[1..];
    }
  }

  // Different values print differently.
  lemma PrintInjective(a: Json, b: Json)
    requires Print(a) == Print(b)
    ensures a == b
  {
    assert Print(a) + [] == Print(b) + [];
    ValueReadable(a, b, [], []);
  }
}
