// A reader of compact JSON texts, as RFC 8259 describes them, and what it makes of printed values.

module JsonReader {
  import opened Basics
  import opened JsonModel
  import opened Text
  import opened Readable

  // ----- the reader -----

  // A value, and the text behind it.
  type Read<T> = Option<(T, string)>

  function HexValue(c: char): Option<nat> {
    if '0' <= c <= '9' then Some((c - '0') as nat)
    else if 'a' <= c <= 'f' then Some(10 + (c - 'a') as nat)
    else if 'A' <= c <= 'F' then Some(10 + (c - 'A') as nat)
    else None
  }

  // The character of a two-character escape, section 7.
  function ShortEscape(c: char): Option<char> {
    if c == '"' || c == '\\' || c == '/' then Some(c)
    else if c == 'b' then Some(8 as char)
    else if c == 'f' then Some(12 as char)
    else if c == 'n' then Some(10 as char)
    else if c == 'r' then Some(13 as char)
    else if c == 't' then Some(9 as char)
    else None
  }

  // The character of \uXXXX; halves of surrogate pairs are not read.
  function LongEscape(s: string): Option<char>
    requires |s| == 4
  {
    var a, b, c, d := HexValue(s[0]), HexValue(s[1]), HexValue(s[2]), HexValue(s[3]);
    if a.None? || b.None? || c.None? || d.None? then None else
    var n := ((a.value * 16 + b.value) * 16 + c.value) * 16 + d.value;
    if n < 0xD800 || 0xE000 <= n < 0x10000 then Some(n as char) else None
  }

  // The characters up to the closing quote.
  function ReadChars(s: string): (r: Read<string>)
    ensures r.Some? ==> |r.value.1| < |s|
  {
    if s == [] || s[0] as int < 0x20 then None
    else if s[0] == '"' then Some(([], s[1..]))
    else
      var step: Option<(char, nat)> :=
        if s[0] != '\\' then Some((s[0], 1))
        else if |s| < 2 then None
        else if s[1] == 'u' then
          if |s| < 6 || LongEscape(s[2..6]).None? then None else Some((LongEscape(s[2..6]).value, 6))
        else if ShortEscape(s[1]).Some? then Some((ShortEscape(s[1]).value, 2)) else None;
      if step.None? then None else
      var rest := ReadChars(s[step.value.1..]);
      if rest.Some? then Some(([step.value.0] + rest.value.0, rest.value.1)) else None
  }

  function TokenEnd(s: string): (n: nat)
    ensures n <= |s|
  {
    if s == [] || !IsTokenChar(s[0]) then 0 else 1 + TokenEnd(s[1..])
  }

  function ReadToken(token: string): Option<Json> {
    if token == "null" then Some(Null)
    else if token == "true" then Some(Bool(true))
    else if token == "false" then Some(Bool(false))
    else if IsFloatText(token) then Some(Float(token))
    else if token != "" && token[0] != '+' && ParseInt(token).Some? then Some(Int(ParseInt(token).value))
    else None
  }

  function ReadValue(s: string): (r: Read<Json>)
    ensures r.Some? ==> |r.value.1| < |s|
    decreases |s|, 1
  {
    if s == [] then None
    else if s[0] == '"' then
      var t := ReadChars(s[1..]);
      if t.Some? then Some((Str(t.value.0), t.value.1)) else None
    else if s[0] == '[' then
      if |s| > 1 && s[1] == ']' then Some((Arr([]), s[2..])) else
      var t := ReadItems(s[1..]);
      if t.Some? then Some((Arr(t.value.0), t.value.1)) else None
    else if s[0] == '{' then
      if |s| > 1 && s[1] == '}' then Some((Obj(map[]), s[2..])) else
      var t := ReadMembers(s[1..]);
      if t.Some? then Some((Obj(t.value.0), t.value.1)) else None
    else
      var n := TokenEnd(s);
      var j := ReadToken(s[..n]);
      if n > 0 && j.Some? then Some((j.value, s[n..])) else None
  }

  // The items up to the closing bracket.
  function ReadItems(s: string): (r: Read<seq<Json>>)
    ensures r.Some? ==> |r.value.1| < |s|
    decreases |s|, 2
  {
    var first := ReadValue(s);
    if first.None? || first.value.1 == [] then None
    else if first.value.1[0] == ']' then Some(([first.value.0], first.value.1[1..]))
    else if first.value.1[0] != ',' then None
    else
      var rest := ReadItems(first.value.1[1..]);
      if rest.Some? then Some(([first.value.0] + rest.value.0, rest.value.1)) else None
  }

  // The members up to the closing brace; of two with one name the later counts.
  function ReadMembers(s: string): (r: Read<map<string, Json>>)
    ensures r.Some? ==> |r.value.1| < |s|
    decreases |s|, 2
  {
    if s == [] || s[0] != '"' then None else
    var key := ReadChars(s[1..]);
    if key.None? || key.value.1 == [] || key.value.1[0] != ':' then None else
    var value := ReadValue(key.value.1[1..]);
    if value.None? || value.value.1 == [] then None else
    var one := map[key.value.0 := value.value.0];
    if value.value.1[0] == '}' then Some((one, value.value.1[1..]))
    else if value.value.1[0] != ',' then None
    else
      var rest := ReadMembers(value.value.1[1..]);
      if rest.Some? then Some((one + rest.value.0, rest.value.1)) else None
  }

  // ----- strings read back -----

  lemma DigitIsHex(d: nat)
    requires d < 16
    ensures HexValue(Digit(d)) == Some(d)
  {
  }

  lemma ControlReads(c: char)
    requires c as int < 0x20
    ensures LongEscape("00" + [Digit(c as int / 16), Digit(c as int % 16)]) == Some(c)
  {
    DigitIsHex(0);
    DigitIsHex(c as int / 16);
    DigitIsHex(c as int % 16);
    var s := "00" + [Digit(c as int / 16), Digit(c as int % 16)];
    assert s[0] == '0' && s[1] == '0';
  }

  lemma LongText(a: char, b: char, s: string)
    ensures var t := "\\u00" + [a, b] + s;
            |t| == 6 + |s| && t[0] == '\\' && t[1] == 'u' && t[2..6] == "00" + [a, b] && t[6..] == s
  {
    var e := "\\u00" + [a, b];
    assert |e| == 6 && e[0] == '\\' && e[1] == 'u' && e[2..6] == "00" + [a, b];
    assert (e + s)[2..6] == e[2..6];
  }

  lemma LongReads(c: char, s: string)
    requires c as int < 0x20 && ReadChars(s).Some?
    ensures ReadChars("\\u00" + [Digit(c as int / 16), Digit(c as int % 16)] + s) == Some(([c] + ReadChars(s).value.0, ReadChars(s).value.1))
  {
    var a, b := Digit(c as int / 16), Digit(c as int % 16);
    ControlReads(c);
    LongText(a, b, s);
    hide LongEscape, ShortEscape, Digit;
  }

  lemma ShortReads(e: char, c: char, s: string)
    requires ShortEscape(e) == Some(c) && ReadChars(s).Some?
    ensures ReadChars(['\\', e] + s) == Some(([c] + ReadChars(s).value.0, ReadChars(s).value.1))
  {
    assert e != 'u';
    hide ShortEscape, LongEscape;
    var t := ['\\', e] + s;
    assert t[0] == '\\' && t[1] == e && t[2..] == s;
  }

  lemma PlainReads(c: char, s: string)
    requires c as int >= 0x20 && c != '"' && c != '\\' && ReadChars(s).Some?
    ensures ReadChars([c] + s) == Some(([c] + ReadChars(s).value.0, ReadChars(s).value.1))
  {
    hide ShortEscape, LongEscape;
    var t := [c] + s;
    assert t[0] == c && t[1..] == s;
  }

  // One printed character in front of anything.
  lemma CharReads(c: char, s: string)
    requires ReadChars(s).Some?
    ensures ReadChars(EscapeChar(c) + s) == Some(([c] + ReadChars(s).value.0, ReadChars(s).value.1))
  {
    var e := EscapeChar(c);
    if |e| == 1 {
      PlainReads(c, s);
    } else if |e| == 2 {
      assert e == ['\\', e[1]];
      ShortReads(e[1], c, s);
    } else {
      LongReads(c, s);
    }
    hide ReadChars;
  }

  lemma ControlEscape(c: char) returns (h: char, l: char)
    requires c as int < 0x20 && c as int !in [8, 9, 10, 12, 13]
    ensures h in "0123456789abcdef" && l in "0123456789abcdef"
    ensures EscapeChar(c) == "\\u00" + [h, l] && LongEscape(['0', '0', h, l]) == Some(c)
  {
    h, l := Digit(c as int / 16), Digit(c as int % 16);
    PrintedLong(c);
    hide EscapeChar, Digit, HexValue, LongEscape;
    SmallHex(c as int / 16);
    SmallHex(c as int % 16);
    LongOfHex(h, l, c as int / 16, c as int % 16);
  }

  lemma PrintedLong(c: char)
    requires c as int < 0x20 && c as int !in [8, 9, 10, 12, 13]
    ensures EscapeChar(c) == "\\u00" + [Digit(c as int / 16), Digit(c as int % 16)]
  {
    hide Digit;
  }

  lemma LongOfHex(h: char, l: char, m: nat, n: nat)
    requires HexValue(h) == Some(m) && HexValue(l) == Some(n) && m < 2 && n < 16
    ensures LongEscape(['0', '0', h, l]) == Some((16 * m + n) as char)
  {
    assert HexValue('0') == Some(0);
    hide HexValue;
  }

  // How a character is printed: by its two-character escape, if it has one and needs it; another control
  // character in four small hex digits; any other as it is.
  lemma {:induction false} EscapeExact(c: char)
    ensures forall x | ShortEscape(x) == Some(c) && c != '/' :: EscapeChar(c) == ['\\', x]
    ensures c as int < 0x20 && (forall x :: ShortEscape(x) != Some(c)) ==>
              exists h, l :: h in "0123456789abcdef" && l in "0123456789abcdef"
                             && EscapeChar(c) == "\\u00" + [h, l] && LongEscape(['0', '0', h, l]) == Some(c)
    ensures c as int >= 0x20 && c != '"' && c != '\\' ==> EscapeChar(c) == [c]
  {
    if c as int < 0x20 && forall x :: ShortEscape(x) != Some(c) {
      assert ShortEscape('n') == Some('\n') && ShortEscape('r') == Some('\r') && ShortEscape('t') == Some('\t');
      assert ShortEscape('b') == Some(8 as char) && ShortEscape('f') == Some(12 as char);
      hide EscapeChar, LongEscape, ShortEscape;
      var h, l := ControlEscape(c);
    } else {
      hide LongEscape;
    }
  }

  lemma SmallHex(n: nat)
    requires n < 16
    ensures Digit(n) in "0123456789abcdef" && HexValue(Digit(n)) == Some(n)
  {
    assert "0123456789abcdef"[n] == Digit(n);
  }

  lemma QuoteEnds(s: string)
    ensures ReadChars("\"" + s) == Some(([], s))
  {
    assert ("\"" + s)[1..] == s;
  }

  lemma EscapeOne(x: string, t: string)
    requires x != []
    ensures Escape(x) + t == EscapeChar(x[0]) + (Escape(x[1..]) + t)
  {
    hide EscapeChar;
  }

  lemma {:induction false} CharsRead(x: string, s: string)
    ensures ReadChars(Escape(x) + ("\"" + s)) == Some((x, s))
  {
    hide ReadChars, EscapeChar;
    if x == [] {
      QuoteEnds(s);
      assert Escape(x) + ("\"" + s) == "\"" + s;
    } else {
      hide Escape;
      CharsRead(x[1..], s);
      CharReads(x[0], Escape(x[1..]) + ("\"" + s));
      EscapeOne(x, "\"" + s);
      assert [x[0]] + x[1..] == x;
    }
  }

  lemma StringReads(x: string, s: string)
    ensures (Quote(x) + s)[0] == '"' && ReadChars((Quote(x) + s)[1..]) == Some((x, s))
  {
    hide ReadChars;
    CharsRead(x, s);
    assert Quote(x) + s == "\"" + (Escape(x) + ("\"" + s));
    assert (Quote(x) + s)[1..] == Escape(x) + ("\"" + s);
  }

  // ----- scalars read back -----

  lemma {:induction false} TokenEnds(x: string, s: string)
    requires IsToken(x) && Stops(s)
    ensures TokenEnd(x + s) == |x|
  {
    if x == [] {
      assert x + s == s;
    } else {
      assert (x + s)[1..] == x[1..] + s;
      TokenEnds(x[1..], s);
    }
  }

  lemma IntParses(n: int)
    ensures ParseInt(IntText(n)) == Some(n)
  {
    hide ParseInt, Digits;
    if n < 0 { ParseNegative(-n, n); } else { ParseIntDigits(n); }
  }

  lemma NoWord(s: string)
    requires s != "" && (s[0] == '-' || '0' <= s[0] <= '9')
    ensures s != "null" && s != "true" && s != "false" && s[0] != '+'
  {
  }

  lemma IntReads(n: int)
    ensures ReadToken(IntText(n)) == Some(Int(n))
  {
    IntSign(n);
    IntChar(n, IntText(n)[0]);
    ScalarKind(Int(n));
    IntParses(n);
    NoWord(IntText(n));
    hide ParseInt, IsFloatText, IntText;
  }

  lemma ScalarReads(j: Json)
    requires IsScalar(j)
    ensures ReadToken(Print(j)) == Some(j)
  {
    if j.Int? {
      IntReads(j.n);
    } else if j.Float? {
      FloatReads(j.text);
    }
  }

  lemma FloatReads(text: FloatText)
    ensures ReadToken(text) == Some(Float(text))
  {
    ScalarKind(Null);
    ScalarKind(Bool(true));
    ScalarKind(Bool(false));
    hide IsFloatText, ParseInt;
  }

  // ----- values read back -----

  lemma {:induction false} PrintedReads(j: Json, s: string)
    requires Stops(s)
    ensures ReadValue(Print(j) + s) == Some((j, s))
    decreases j, 1, 0
  {
    hide ReadChars, ReadToken, ReadItems, ReadMembers, TokenEnd, IsToken;
    FirstChar(j);
    var t := Print(j) + s;
    assert t[0] == Print(j)[0];
    match j
    case Str(x) => StringReads(x, s);
    case Arr(items) => ListReads(items, s);
    case Obj(_) => ObjectReads(j, s);
    case _ =>
      ScalarToken(j);
      TokenEnds(Print(j), s);
      ScalarReads(j);
      ScalarFirst(j);
      assert t[..|Print(j)|] == Print(j) && t[|Print(j)|..] == s;
  }

  lemma ScalarFirst(j: Json)
    requires IsScalar(j)
    ensures Print(j) != [] && Print(j)[0] != '"' && Print(j)[0] != '[' && Print(j)[0] != '{'
  {
    FirstChar(j);
  }

  lemma {:induction false} ListReads(items: seq<Json>, s: string)
    ensures ReadValue(Print(Arr(items)) + s) == Some((Arr(items), s))
    decreases items, 0, 1
  {
    hide ReadItems, ReadMembers, ReadChars, ReadToken;
    var t := Print(Arr(items)) + s;
    if items == [] {
      assert t[0] == '[' && t[1] == ']' && t[2..] == s;
    } else {
      ItemsRead(items, s);
      var u := Print(items[0]) + (PrintItems(items[1..]) + s);
      assert t == "[" + u && t[1..] == u;
      FirstChar(items[0]);
      assert u[0] == Print(items[0])[0];
    }
  }

  lemma {:induction false} ItemsRead(items: seq<Json>, s: string)
    requires items != []
    ensures ReadItems(Print(items[0]) + (PrintItems(items[1..]) + s)) == Some((items, s))
    decreases items, 0, 0
  {
    hide ReadValue, ReadMembers, ReadChars, ReadToken, Print;
    var rest := PrintItems(items[1..]) + s;
    ItemsStop(items[1..], s);
    PrintedReads(items[0], rest);
    if |items| == 1 {
      assert rest == "]" + s && rest[1..] == s && items == [items[0]];
    } else {
      ItemsRead(items[1..], s);
      assert rest == "," + (Print(items[1]) + (PrintItems(items[2..]) + s));
      assert rest[1..] == Print(items[1]) + (PrintItems(items[2..]) + s);
      assert items[1..][0] == items[1] && items[1..][1..] == items[2..];
      assert items == [items[0]] + items[1..];
    }
  }

  // The members with these keys.
  function Part(fields: map<string, Json>, ks: seq<string>): map<string, Json> {
    map k | k in fields && k in ks :: fields[k]
  }

  lemma SortedDistinct(s: set<string>)
    ensures Distinct(SortedKeys(s))
  {
    var ks := SortedKeys(s);
    forall i, j | 0 <= i < j < |ks| ensures ks[i] != ks[j] {
      assert Less(ks[i], ks[j]);
      LessIrreflexive(ks[i]);
    }
  }

  lemma MemberReads(k: string, v: Json, rest: string)
    requires rest != [] && ReadValue(Print(v) + rest) == Some((v, rest))
    ensures rest[0] == '}' ==> ReadMembers(Quote(k) + ":" + Print(v) + rest) == Some((map[k := v], rest[1..]))
    ensures rest[0] == ',' && ReadMembers(rest[1..]).Some? ==>
              ReadMembers(Quote(k) + ":" + Print(v) + rest) == Some((map[k := v] + ReadMembers(rest[1..]).value.0, ReadMembers(rest[1..]).value.1))
  {
    hide ReadValue, ReadChars, Print, Quote;
    var behind := ":" + (Print(v) + rest);
    assert Quote(k) + ":" + Print(v) + rest == Quote(k) + behind;
    StringReads(k, behind);
    assert behind[0] == ':' && behind[1..] == Print(v) + rest;
  }

  lemma KeysOf(fields: map<string, Json>)
    requires fields != map[]
    ensures var ks := SortedKeys(fields.Keys);
            ks != [] && Distinct(ks) && (forall k | k in ks :: k in fields) && Part(fields, ks) == fields
  {
    var ks := SortedKeys(fields.Keys);
    SortedDistinct(fields.Keys);
    assert Elements(ks) == fields.Keys;
    hide SortedKeys;
    assert forall k :: k in ks <==> k in Elements(ks);
    var k :| k in fields;
    assert k in Elements(ks);
  }

  lemma ObjectText(o: Json, ks: seq<string>, s: string)
    requires o.Obj? && ks == SortedKeys(o.fields.Keys) && ks != [] && forall k | k in ks :: k in o.fields
    ensures var u := PrintMember(o, ks[0]) + (PrintMembers(o, ks[1..]) + s);
            Print(o) + s == "{" + u && u != [] && u[0] == '"'
  {
    MemberStarts(o, ks[0]);
    ObjectPrints(o, ks);
    hide Print, PrintMember, PrintMembers, SortedKeys;
    ThreeAndMore("{", PrintMember(o, ks[0]), PrintMembers(o, ks[1..]), s);
  }

  lemma ThreeAndMore(a: string, b: string, c: string, d: string)
    ensures a + b + c + d == a + (b + (c + d))
  {
  }

  lemma ObjectPrints(o: Json, ks: seq<string>)
    requires o.Obj? && ks == SortedKeys(o.fields.Keys) && ks != [] && forall k | k in ks :: k in o.fields
    ensures Print(o) == "{" + PrintMember(o, ks[0]) + PrintMembers(o, ks[1..])
  {
    hide SortedKeys, PrintMember, PrintMembers, IntText, Quote, PrintItems;
  }

  lemma MemberStarts(o: Json, k: string)
    requires o.Obj? && k in o.fields
    ensures PrintMember(o, k) != "" && PrintMember(o, k)[0] == '"'
  {
    hide Print;
  }

  lemma {:induction false} ObjectReads(o: Json, s: string)
    requires o.Obj?
    ensures ReadValue(Print(o) + s) == Some((o, s))
    decreases o, 0, 1 + |SortedKeys(o.fields.Keys)|
  {
    hide ReadItems, ReadMembers, ReadChars, ReadToken, PrintMember, PrintMembers, SortedKeys, Part, TokenEnd;
    if o.fields == map[] {
      EmptyObject(o, s);
    } else {
      var ks := SortedKeys(o.fields.Keys);
      KeysOf(o.fields);
      ObjectText(o, ks, s);
      hide Print;
      MembersRead(o, ks, s);
      var u := PrintMember(o, ks[0]) + (PrintMembers(o, ks[1..]) + s);
      assert ("{" + u)[1..] == u;
    }
  }

  lemma EmptyObject(o: Json, s: string)
    requires o == Obj(map[])
    ensures ReadValue(Print(o) + s) == Some((o, s))
  {
    var t := Print(o) + s;
    assert Print(o) == "{}";
    assert t[0] == '{' && t[1] == '}' && t[2..] == s;
  }

  lemma {:induction false} MembersRead(o: Json, ks: seq<string>, s: string)
    requires o.Obj? && ks != [] && (forall k | k in ks :: k in o.fields) && Distinct(ks)
    ensures ReadMembers(PrintMember(o, ks[0]) + (PrintMembers(o, ks[1..]) + s)) == Some((Part(o.fields, ks), s))
    decreases o, 0, |ks|
  {
    hide ReadValue, ReadItems, ReadMembers, ReadChars, ReadToken, Print, Part;
    var k, rest := ks[0], PrintMembers(o, ks[1..]) + s;
    var v := o.fields[k];
    RestStops(o, ks[1..], s);
    PrintedReads(v, rest);
    MemberReads(k, v, rest);
    assert PrintMember(o, k) + rest == Quote(k) + ":" + Print(v) + rest;
    RestOf(o, ks, s);
    hide PrintMember, PrintMembers, Quote;
    if |ks| == 1 {
      PartOfOne(o.fields, ks);
    } else {
      MembersRead(o, ks[1..], s);
      PartOfMore(o.fields, ks);
    }
  }

  // What stands behind the first member.
  lemma RestOf(o: Json, ks: seq<string>, s: string)
    requires o.Obj? && ks != [] && forall k | k in ks :: k in o.fields
    ensures var rest := PrintMembers(o, ks[1..]) + s;
            if |ks| == 1 then rest == "}" + s && rest[1..] == s
            else rest[1..] == PrintMember(o, ks[1..][0]) + (PrintMembers(o, ks[1..][1..]) + s)
  {
    hide PrintMember;
    var rest := PrintMembers(o, ks[1..]) + s;
    if |ks| > 1 {
      assert PrintMembers(o, ks[1..]) == "," + PrintMember(o, ks[1..][0]) + PrintMembers(o, ks[1..][1..]);
      assert rest == "," + (PrintMember(o, ks[1..][0]) + (PrintMembers(o, ks[1..][1..]) + s));
    }
  }

  lemma RestStops(o: Json, ks: seq<string>, s: string)
    requires o.Obj? && forall k | k in ks :: k in o.fields
    ensures var rest := PrintMembers(o, ks) + s; Stops(rest) && rest != [] && (rest[0] == '}' <==> ks == [])
  {
    hide PrintMember;
    if ks != [] { assert PrintMembers(o, ks)[0] == ','; }
  }

  lemma PartOfOne(fields: map<string, Json>, ks: seq<string>)
    requires |ks| == 1 && ks[0] in fields
    ensures Part(fields, ks) == map[ks[0] := fields[ks[0]]]
  {
  }

  lemma PartOfMore(fields: map<string, Json>, ks: seq<string>)
    requires |ks| > 1 && Distinct(ks) && forall k | k in ks :: k in fields
    ensures Part(fields, ks) == map[ks[0] := fields[ks[0]]] + Part(fields, ks[1..])
  {
    assert forall k :: k in ks <==> k == ks[0] || k in ks[1..];
  }

  // Reading undoes printing.
  lemma {:induction false} PrintRoundTrip(j: Json)
    ensures ReadValue(Print(j)) == Some((j, ""))
  {
    PrintedReads(j, "");
    assert Print(j) + "" == Print(j);
  }

  // ----- the order of the members -----

  // Every key once, in code order.
  ghost predicate CodeListing(ks: seq<string>, fields: map<string, Json>) {
    && Elements(ks) == fields.Keys
    && forall i, j | 0 <= i < j < |ks| :: CodeBefore(ks[i], ks[j])
  }

  function Joined(o: Json, ks: seq<string>): string
    requires o.Obj? && ks != [] && forall k | k in ks :: k in o.fields
    decreases |ks|
  {
    var member := Quote(ks[0]) + ":" + Print(o.fields[ks[0]]);
    if |ks| == 1 then member else member + "," + Joined(o, ks[1..])
  }

  lemma {:induction false} MembersJoined(o: Json, ks: seq<string>)
    requires o.Obj? && ks != [] && forall k | k in ks :: k in o.fields
    ensures PrintMember(o, ks[0]) + PrintMembers(o, ks[1..]) == Joined(o, ks) + "}"
    decreases |ks|
  {
    hide Print, Quote;
    if |ks| > 1 {
      MembersJoined(o, ks[1..]);
      assert ks[1..][0] == ks[1];
      assert PrintMembers(o, ks[1..]) == "," + (PrintMember(o, ks[1]) + PrintMembers(o, ks[1..][1..]));
    }
  }

  lemma SortedIsCodeListing(fields: map<string, Json>)
    ensures CodeListing(SortedKeys(fields.Keys), fields)
  {
    var ks := SortedKeys(fields.Keys);
    forall i, j | 0 <= i < j < |ks| ensures CodeBefore(ks[i], ks[j]) { KeysInCodeOrder(fields.Keys, i, j); }
  }

  // An object is printed as its members in code order of the keys, which leaves no choice.
  lemma {:induction false} ObjectLayout(o: Json) returns (ks: seq<string>)
    requires o.Obj? && o.fields != map[]
    ensures CodeListing(ks, o.fields) && ks != [] && (forall k | k in ks :: k in o.fields)
    ensures Print(o) == "{" + Joined(o, ks) + "}"
  {
    hide Print, PrintMember, PrintMembers, Joined, Part, CodeListing, SortedKeys;
    ks := SortedKeys(o.fields.Keys);
    KeysOf(o.fields);
    SortedIsCodeListing(o.fields);
    ObjectPrints(o, ks);
    MembersJoined(o, ks);
    InBraces(PrintMember(o, ks[0]), PrintMembers(o, ks[1..]), Joined(o, ks));
  }

  lemma InBraces(m: string, r: string, j: string)
    requires m + r == j + "}"
    ensures "{" + m + r == "{" + j + "}"
  {
    assert "{" + m + r == "{" + (m + r) && "{" + (j + "}") == "{" + j + "}";
  }
}
