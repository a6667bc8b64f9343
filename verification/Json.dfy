// JSON values and the printer every hash in the repository is taken over:
// json.dumps(obj, sort_keys=True, separators=(",", ":"), ensure_ascii=False).

module JsonModel {
  import opened Basics

  // ----- values -----

  predicate IsNumberChar(c: char) {
    '0' <= c <= '9' || c == '+' || c == '-' || c == '.' || c == 'e'
  }

  // What json.dumps prints for a float.  It is never an integer literal.
  predicate IsFloatText(s: string) {
    || s == "NaN" || s == "Infinity" || s == "-Infinity"
    || ((forall c | c in s :: IsNumberChar(c)) && ('.' in s || 'e' in s))
  }

  type FloatText = s: string | IsFloatText(s) witness "0.0"

  // A dict is a map: Python compares dicts without regard to order, and the printer sorts.
  datatype Json =
    | Null
    | Bool(b: bool)
    | Int(n: int)
    | Float(text: FloatText)
    | Str(s: string)
    | Arr(items: seq<Json>)
    | Obj(fields: map<string, Json>)

  // dict.get(key): None when the key is absent
  function Get(fields: map<string, Json>, key: string): Json {
    if key in fields then fields[key] else Null
  }

  // bool(value)
  predicate Truthy(j: Json) {
    match j
    case Null => false
    case Bool(b) => b
    case Int(n) => n != 0
    case Float(text) => text != "0.0" && text != "-0.0"
    case Str(s) => s != ""
    case Arr(items) => items != []
    case Obj(fields) => fields != map[]
  }

  // ----- the order of sort_keys: code point by code point, a prefix first -----

  predicate Less(a: string, b: string) {
    b != [] && (a == [] || a[0] < b[0] || (a[0] == b[0] && Less(a[1..], b[1..])))
  }

  lemma {:induction false} LessTotal(a: string, b: string)
    ensures Less(a, b) || Less(b, a) || a == b
    ensures !(Less(a, b) && Less(b, a))
    ensures !Less(a, a)
  {
    if a != [] && b != [] {
      LessTotal(a[1..], b[1..]);
      assert a == [a[0]] + a[1..] && b == [b[0]] + b[1..];
    }
    LessIrreflexive(a);
  }

  lemma {:induction false} LessIrreflexive(a: string)
    ensures !Less(a, a)
  {
    if a != [] { LessIrreflexive(a[1..]); }
  }

  lemma {:induction false} LessTransitive(a: string, b: string, c: string)
    requires Less(a, b) && Less(b, c)
    ensures Less(a, c)
  {
    if a != [] && a[0] == b[0] == c[0] { LessTransitive(a[1..], b[1..], c[1..]); }
  }

  // The first place where two strings differ: the one ends there, or has the smaller code there.
  ghost predicate DifferFirstAt(a: string, b: string, n: nat) {
    n <= |a| && n < |b| && a[..n] == b[..n] && (n == |a| || a[n] as int < b[n] as int)
  }

  // Code order, with a prefix first.
  ghost predicate CodeBefore(a: string, b: string) {
    exists n: nat :: DifferFirstAt(a, b, n)
  }

  lemma {:induction false} LessExact(a: string, b: string)
    ensures Less(a, b) <==> CodeBefore(a, b)
  {
    if a == [] && b != [] {
      assert DifferFirstAt(a, b, 0);
    } else if b != [] && a[0] == b[0] {
      LessExact(a[1..], b[1..]);
      if Less(a[1..], b[1..]) {
        var n: nat :| DifferFirstAt(a[1..], b[1..], n);
        assert a[..n + 1] == [a[0]] + a[1..][..n] && b[..n + 1] == [b[0]] + b[1..][..n];
        assert DifferFirstAt(a, b, n + 1);
      }
      if n: nat :| DifferFirstAt(a, b, n) {
        assert n > 0;
        assert a[1..][..n - 1] == a[..n][1..] && b[1..][..n - 1] == b[..n][1..];
        assert DifferFirstAt(a[1..], b[1..], n - 1);
      }
    } else if b != [] {
      assert a[..0] == b[..0];
      if Less(a, b) { assert DifferFirstAt(a, b, 0); }
      if n: nat :| DifferFirstAt(a, b, n) { assert n > 0 ==> a[..n][0] == b[..n][0]; }
    }
  }

  predicate Least(k: string, s: set<string>) {
    k in s && forall x | x in s :: x == k || Less(k, x)
  }

  lemma {:induction false} LeastExists(s: set<string>)
    requires s != {}
    ensures exists k :: Least(k, s)
  {
    var x :| x in s;
    if s == {x} {
      assert Least(x, s);
    } else {
      LeastExists(s - {x});
      var k :| Least(k, s - {x});
      LessTotal(k, x);
      forall y | y in s && Less(x, k) ensures y == x || Less(x, y) {
        if y != x && y != k { LessTransitive(x, k, y); }
      }
      assert Least(if Less(x, k) then x else k, s);
    }
  }

  ghost predicate Ascending(ks: seq<string>) {
    forall i, j :: 0 <= i < j < |ks| ==> Less(ks[i], ks[j])
  }

  lemma LeastUnique(s: set<string>)
    ensures forall k, l :: Least(k, s) && Least(l, s) ==> k == l
  {
    forall k, l | Least(k, s) && Least(l, s) ensures k == l { LessTotal(k, l); }
  }

  // sorted(keys)
  function SortedKeys(s: set<string>): (ks: seq<string>)
    ensures Ascending(ks)
    ensures Elements(ks) == s
  {
    if s == {} then [] else
    LeastExists(s);
    LeastUnique(s);
    var k :| Least(k, s);
    var rest := SortedKeys(s - {k});
    assert forall i | 0 <= i < |rest| :: rest[i] in Elements(rest);
    assert Elements([k] + rest) == {k} + Elements(rest);
    [k] + rest
  }

  // Of two keys the one printed first is a proper prefix of the other, or has the smaller code where
  // they first differ.
  lemma {:induction false} KeysInCodeOrder(s: set<string>, i: nat, j: nat)
    requires i < j < |SortedKeys(s)|
    ensures CodeBefore(SortedKeys(s)[i], SortedKeys(s)[j])
  {
    var ks := SortedKeys(s);
    assert Less(ks[i], ks[j]);
    LessExact(ks[i], ks[j]);
  }

  // The order leaves no choice: any ascending listing of the same keys is the sorted one.
  lemma {:induction false} AscendingUnique(ks: seq<string>, ls: seq<string>)
    requires Ascending(ks) && Ascending(ls)
    requires Elements(ks) == Elements(ls)
    ensures ks == ls
  {
    if ks == [] {
      assert forall i | 0 <= i < |ls| :: ls[i] in Elements(ls);
    } else {
      assert ks[0] in Elements(ks);
      assert ls != [];
      assert ls[0] in Elements(ls);
      var i :| 0 <= i < |ls| && ls[i] == ks[0];
      var j :| 0 <= j < |ks| && ks[j] == ls[0];
      LessTotal(ks[0], ls[0]);
      assert ks[0] == ls[0];
      forall x ensures x in Elements(ks[1..]) <==> x in Elements(ls[1..]) {
        AscendingTail(ks, x);
        AscendingTail(ls, x);
        assert x in ks <==> x in Elements(ks);
        assert x in ls <==> x in Elements(ls);
      }
      AscendingUnique(ks[1..], ls[1..]);
      assert ks == [ks[0]] + ks[1..] && ls == [ls[0]] + ls[1..];
    }
  }

  lemma AscendingTail(ks: seq<string>, x: string)
    requires Ascending(ks) && ks != []
    ensures x in ks[1..] <==> x in ks && x != ks[0]
  {
    LessTotal(ks[0], x);
    if x in ks && x != ks[0] {
      var i :| 0 <= i < |ks| && ks[i] == x;
      assert ks[1..][i - 1] == x;
    }
  }

  // ----- scalars -----

  function Digit(d: nat): char
    requires d < 16
  {
    if d < 10 then ('0' as int + d) as char else ('a' as int + d - 10) as char
  }

  function Digits(n: nat): (s: string)
    ensures s != [] && forall c | c in s :: '0' <= c <= '9'
  {
    if n < 10 then [Digit(n)] else Digits(n / 10) + [Digit(n % 10)]
  }

  lemma DigitsLength(n: nat)
    ensures |Digits(n)| >= 2 <==> n >= 10
    ensures n >= 10 ==> Digits(n)[..|Digits(n)| - 1] == Digits(n / 10)
    ensures Digits(n)[|Digits(n)| - 1] == Digit(n % 10)
  {
  }

  lemma {:induction false} DigitsInjective(m: nat, n: nat)
    requires Digits(m) == Digits(n)
    ensures m == n
  {
    DigitsLength(m);
    DigitsLength(n);
    if m >= 10 { DigitsInjective(m / 10, n / 10); }
  }

  // str(n) for an int
  function IntText(n: int): string {
    if n < 0 then "-" + Digits(-n) else Digits(n)
  }

  lemma IntSign(n: int)
    ensures IntText(n) != []
    ensures n < 0 ==> IntText(n)[0] == '-' && IntText(n)[1..] == Digits(-n)
    ensures n >= 0 ==> IntText(n)[0] != '-'
  {
    if n >= 0 { assert IntText(n)[0] in Digits(n); }
  }

  lemma IntTextInjective(m: int, n: int)
    requires IntText(m) == IntText(n)
    ensures m == n
  {
    IntSign(m);
    IntSign(n);
    if m < 0 { DigitsInjective(-m, -n); } else { DigitsInjective(m, n); }
  }

  // ----- strings: section 7 of RFC 8259, with ensure_ascii=False -----

  function EscapeChar(c: char): string {
    if c == '"' then "\\\""
    else if c == '\\' then "\\\\"
    else if c == '\n' then "\\n"
    else if c == '\r' then "\\r"
    else if c == '\t' then "\\t"
    else if c as int == 8 then "\\b"
    else if c as int == 12 then "\\f"
    else if c as int < 0x20 then "\\u00" + [Digit(c as int / 16), Digit(c as int % 16)]
    else [c]
  }

  function Escape(s: string): string {
    if s == [] then [] else EscapeChar(s[0]) + Escape(s[1..])
  }

  function Quote(s: string): string {
    "\"" + Escape(s) + "\""
  }

  lemma EscapeCharReadable(c: char, d: char, s: string, t: string)
    requires EscapeChar(c) + s == EscapeChar(d) + t
    ensures c == d && s == t
  {
    var a, b := EscapeChar(c), EscapeChar(d);
    assert a[0] == (a + s)[0] == (b + t)[0] == b[0];
    if a[0] == '\\' {
      assert a[1] == (a + s)[1] == (b + t)[1] == b[1];
      if a[1] == 'u' {
        assert a[4] == (a + s)[4] == (b + t)[4] == b[4];
        assert a[5] == (a + s)[5] == (b + t)[5] == b[5];
        assert c as int == d as int;
      }
    }
    assert c == d;
    SplitSame(a, b, s, t);
  }

  lemma EscapeHead(x: string, s: string)
    ensures x == [] ==> Escape(x) + "\"" + s == "\"" + s
    ensures x != [] ==> Escape(x) + "\"" + s == EscapeChar(x[0]) + (Escape(x[1..]) + "\"" + s)
    ensures (Escape(x) + "\"" + s)[0] == '"' <==> x == []
  {
    if x == [] {
      assert Escape(x) + "\"" + s == "\"" + s;
    } else {
      Regroup(EscapeChar(x[0]), Escape(x[1..]), "\"", s);
    }
  }

  // The closing quote is the first one that is not escaped.
  lemma {:induction false} EscapeReadable(x: string, y: string, s: string, t: string)
    requires Escape(x) + "\"" + s == Escape(y) + "\"" + t
    ensures x == y && s == t
  {
    EscapeHead(x, s);
    EscapeHead(y, t);
    if x == [] {
      SplitSame("\"", "\"", s, t);
    } else {
      EscapeCharReadable(x[0], y[0], Escape(x[1..]) + "\"" + s, Escape(y[1..]) + "\"" + t);
      EscapeReadable(x[1..], y[1..], s, t);
      assert x == [x[0]] + x[1..] && y == [y[0]] + y[1..];
    }
  }

  lemma QuoteReadable(x: string, y: string, s: string, t: string)
    requires Quote(x) + s == Quote(y) + t
    ensures x == y && s == t
  {
    Regroup("\"", Escape(x), "\"", s);
    Regroup("\"", Escape(y), "\"", t);
    SplitSame("\"", "\"", Escape(x) + "\"" + s, Escape(y) + "\"" + t);
    EscapeReadable(x, y, s, t);
  }

  // ----- the printer -----

  function Print(j: Json): string
    decreases j, 1, 0
  {
    match j
    case Null => "null"
    case Bool(b) => if b then "true" else "false"
    case Int(n) => IntText(n)
    case Float(text) => text
    case Str(s) => Quote(s)
    case Arr(items) =>
      if items == [] then "[]" else "[" + Print(items[0]) + PrintItems(items[1..])
    case Obj(fields) =>
      var ks := SortedKeys(fields.Keys);
      if ks == [] then "{}" else
      assert ks[0] in Elements(ks);
      assert forall k | k in ks[1..] :: k in Elements(ks);
      "{" + PrintMember(j, ks[0]) + PrintMembers(j, ks[1..])
  }

  function PrintItems(items: seq<Json>): string
    decreases items, 0, 0
  {
    if items == [] then "]" else "," + Print(items[0]) + PrintItems(items[1..])
  }

  function PrintMember(o: Json, k: string): string
    requires o.Obj? && k in o.fields
    decreases o, 0, 0
  {
    Quote(k) + ":" + Print(o.fields[k])
  }

  function PrintMembers(o: Json, ks: seq<string>): string
    requires o.Obj? && forall k | k in ks :: k in o.fields
    decreases o, 0, 1 + |ks|
  {
    if ks == [] then "}" else "," + PrintMember(o, ks[0]) + PrintMembers(o, ks[1..])
  }
}
