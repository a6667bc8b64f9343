// The Python string operations the modelled code uses.

module Text {
  import opened Basics
  import opened JsonModel

  // str.isspace for one character
  predicate IsSpace(c: char) {
    var n := c as int;
    || 9 <= n <= 13 || 28 <= n <= 32 || n == 0x85 || n == 0xA0 || n == 0x1680
    || 0x2000 <= n <= 0x200A || n == 0x2028 || n == 0x2029 || n == 0x202F || n == 0x205F || n == 0x3000
  }

  // The white space of Python, character by character.
  const SPACES: string := LOW_SPACES + HIGH_SPACES

  const LOW_SPACES := "\t\n\U{0B}\U{0C}\r\U{1C}\U{1D}\U{1E}\U{1F} \U{85}\U{A0}\U{1680}"

  const HIGH_SPACES: string :=
    "\U{2000}\U{2001}\U{2002}\U{2003}\U{2004}\U{2005}\U{2006}\U{2007}\U{2008}\U{2009}\U{200A}"
    + "\U{2028}\U{2029}\U{202F}\U{205F}\U{3000}"

  lemma SpacesAre(c: char)
    ensures IsSpace(c) <==> c in SPACES
  {
    assert SPACES == LOW_SPACES + HIGH_SPACES;
    LowSpaces(c);
    HighSpaces(c);
    hide LOW_SPACES, HIGH_SPACES, SPACES;
  }

  lemma LowSpaces(c: char)
    ensures c in LOW_SPACES <==> var n := c as int; 9 <= n <= 13 || 28 <= n <= 32 || n == 0x85 || n == 0xA0 || n == 0x1680
  {
    var n := c as int;
    if c in LOW_SPACES { var i :| 0 <= i < |LOW_SPACES| && LOW_SPACES[i] == c; }
    if 9 <= n <= 13 { assert LOW_SPACES[n - 9] == c; }
    if 28 <= n <= 32 { assert LOW_SPACES[n - 23] == c; }
    assert LOW_SPACES[10] == '\U{85}' && LOW_SPACES[11] == '\U{A0}' && LOW_SPACES[12] == '\U{1680}';
  }

  lemma HighSpaces(c: char)
    ensures c in HIGH_SPACES <==>
              var n := c as int; 0x2000 <= n <= 0x200A || n == 0x2028 || n == 0x2029 || n == 0x202F || n == 0x205F || n == 0x3000
  {
    var n := c as int;
    if c in HIGH_SPACES { var i :| 0 <= i < |HIGH_SPACES| && HIGH_SPACES[i] == c; }
    if 0x2000 <= n <= 0x200A { assert HIGH_SPACES[n - 0x2000] == c; }
    assert HIGH_SPACES[11] == '\U{2028}' && HIGH_SPACES[12] == '\U{2029}' && HIGH_SPACES[13] == '\U{202F}';
    assert HIGH_SPACES[14] == '\U{205F}' && HIGH_SPACES[15] == '\U{3000}';
  }

  function StripLeft(s: string): (r: string)
    ensures |r| <= |s| && r == s[|s| - |r|..]
    ensures r == [] || !IsSpace(r[0])
  {
    if s != [] && IsSpace(s[0]) then StripLeft(s[1..]) else s
  }

  function StripRight(s: string): (r: string)
    ensures |r| <= |s| && r == s[..|r|]
    ensures r == [] || !IsSpace(r[|r| - 1])
  {
    if s != [] && IsSpace(s[|s| - 1]) then StripRight(s[..|s| - 1]) else s
  }

  // s.strip()
  function Strip(s: string): string {
    StripRight(StripLeft(s))
  }

  // s.lower(), exact wherever the result is compared with ASCII text: besides A to Z, only the
  // Kelvin sign has an ASCII letter as its lower case.
  function LowerChar(c: char): char {
    if 'A' <= c <= 'Z' then (c as int + 32) as char
    else if c as int == 0x212A then 'k'
    else c
  }

  function Lower(s: string): (r: string)
    ensures |r| == |s|
  {
    if s == [] then [] else [LowerChar(s[0])] + Lower(s[1..])
  }

  // A character whose lower case is this small letter, or which is that character itself.
  predicate LowersTo(c: char, small: char) {
    || (c == small && !('A' <= c <= 'Z'))
    || ('a' <= small <= 'z' && c as int + 32 == small as int)
    || (small == 'k' && c == '\U{212A}')
  }

  // A text in lower case is this ASCII word if and only if it is the word in any case of letters.
  lemma {:induction false} LowerExact(s: string, word: string)
    requires forall i | 0 <= i < |word| :: word[i] as int < 0x80
    ensures Lower(s) == word <==> |s| == |word| && forall i | 0 <= i < |s| :: LowersTo(s[i], word[i])
  {
    if s != [] && word != [] {
      LowerExact(s[1..], word[1..]);
      assert LowerChar(s[0]) == word[0] <==> LowersTo(s[0], word[0]);
      hide LowerChar, LowersTo;
      assert word == [word[0]] + word[1..];
      assert Lower(s)[0] == LowerChar(s[0]) && Lower(s)[1..] == Lower(s[1..]);
      if |s| == |word| { ShiftedTo(s, word); }
    }
  }

  lemma ShiftedTo(s: string, word: string)
    requires |s| == |word| && s != []
    ensures (forall i | 0 <= i < |s| :: LowersTo(s[i], word[i]))
            <==> LowersTo(s[0], word[0]) && forall i | 0 <= i < |s[1..]| :: LowersTo(s[1..][i], word[1..][i])
  {
    hide LowersTo;
    if LowersTo(s[0], word[0]) && forall i | 0 <= i < |s[1..]| :: LowersTo(s[1..][i], word[1..][i]) {
      forall i | 0 <= i < |s| ensures LowersTo(s[i], word[i]) {
        if i > 0 { assert s[i] == s[1..][i - 1] && word[i] == word[1..][i - 1]; }
      }
    }
    forall i | 0 <= i < |s| - 1 ensures s[1..][i] == s[i + 1] && word[1..][i] == word[i + 1] {}
  }

  predicate StartsWith(s: string, p: string) {
    p <= s
  }

  predicate EndsWith(s: string, p: string) {
    |p| <= |s| && s[|s| - |p|..] == p
  }

  // s.replace(pattern, sub) for a non-empty pattern: leftmost occurrences, without overlap
  function Replace(s: string, pattern: string, sub: string): string
    requires pattern != []
  {
    if s == [] then []
    else if pattern <= s then sub + Replace(s[|pattern|..], pattern, sub)
    else [s[0]] + Replace(s[1..], pattern, sub)
  }

  lemma ReplaceSkip(c: char, rest: string, p: char, q: char, sub: string)
    requires c != p || rest == [] || rest[0] != q
    ensures Replace([c] + rest, [p, q], sub) == [c] + Replace(rest, [p, q], sub)
  {
    var s := [c] + rest;
    assert s[0] == c && s[1..] == rest;
    assert [p, q][1] == q && (rest != [] ==> s[1] == rest[0]);
  }

  lemma ReplaceHit(rest: string, p: char, q: char, sub: string)
    ensures Replace([p, q] + rest, [p, q], sub) == sub + Replace(rest, [p, q], sub)
  {
    assert ([p, q] + rest)[2..] == rest;
  }

  // s.split("/")
  function SplitSlash(s: string): (parts: seq<string>)
    ensures parts != []
  {
    if s == [] then [[]]
    else
      var rest := SplitSlash(s[1..]);
      if s[0] == '/' then [[]] + rest else [[s[0]] + rest[0]] + rest[1..]
  }

  // [p for p in parts if p != ""]
  function DropEmpty(parts: seq<string>): (r: seq<string>)
    ensures forall i | 0 <= i < |r| :: r[i] != []
  {
    if parts == [] then []
    else if parts[0] == [] then DropEmpty(parts[1..])
    else [parts[0]] + DropEmpty(parts[1..])
  }

  // s.lstrip("/")
  function StripSlashLeft(s: string): string {
    if s != [] && s[0] == '/' then StripSlashLeft(s[1..]) else s
  }

  function StripSlashRight(s: string): string {
    if s != [] && s[|s| - 1] == '/' then StripSlashRight(s[..|s| - 1]) else s
  }

  // s.strip("/")
  function StripSlash(s: string): string {
    StripSlashRight(StripSlashLeft(s))
  }

  // ----- int(s), for ASCII digits -----

  predicate IsDigit(c: char) {
    '0' <= c <= '9'
  }

  // Digits, single underscores allowed between them.
  function ParseNat(s: string): (r: Option<int>)
    ensures r.Some? ==> r.value >= 0
  {
    if s == [] || !IsDigit(s[|s| - 1]) then None else
    var d := s[|s| - 1] as int - '0' as int;
    var front := s[..|s| - 1];
    if front == [] then Some(d) else
    var high := ParseNat(if front[|front| - 1] == '_' then front[..|front| - 1] else front);
    if high.Some? then Some(10 * high.value + d) else None
  }

  function ParseInt(s: string): Option<int> {
    var t := Strip(s);
    if t != [] && (t[0] == '-' || t[0] == '+') then
      var n := ParseNat(t[1..]);
      if n.Some? && t[0] == '-' then Some(-n.value) else n
    else
      ParseNat(t)
  }

  // Digits with single underscores between them.
  ghost predicate Grouped(s: string) {
    && s != [] && IsDigit(s[0]) && IsDigit(s[|s| - 1])
    && (forall i | 0 <= i < |s| :: IsDigit(s[i]) || s[i] == '_')
    && forall i | 0 < i < |s| && s[i] == '_' :: s[i - 1] != '_'
  }

  function NoUnderscores(s: string): string {
    if s == [] then []
    else NoUnderscores(s[..|s| - 1]) + (if s[|s| - 1] == '_' then [] else [s[|s| - 1]])
  }

  // Exactly these are read, and the underscores do not count.
  lemma {:induction false} ParseNatExact(s: string)
    ensures ParseNat(s).Some? <==> Grouped(s)
    ensures Grouped(s) ==> ParseNat(s) == ParseNat(NoUnderscores(s))
    decreases |s|
  {
    if |s| > 1 && IsDigit(s[|s| - 1]) {
      var front := s[..|s| - 1];
      var rest := if front[|front| - 1] == '_' then front[..|front| - 1] else front;
      ParseNatExact(rest);
      GroupedFront(s, rest);
      ParseNatFront(s, rest);
      hide Grouped, ParseNat, NoUnderscores;
      if Grouped(rest) { LastDigitParses(NoUnderscores(rest), s[|s| - 1]); }
    } else {
      ParseNatShort(s);
    }
  }

  lemma ParseNatShort(s: string)
    requires |s| <= 1 || !IsDigit(s[|s| - 1])
    ensures ParseNat(s).Some? <==> Grouped(s)
    ensures Grouped(s) ==> ParseNat(s) == ParseNat(NoUnderscores(s))
  {
    if |s| == 1 { assert s[..0] == [] && NoUnderscores(s[..0]) == []; }
  }

  lemma ParseNatFront(s: string, rest: string)
    requires |s| > 1 && IsDigit(s[|s| - 1])
    requires var front := s[..|s| - 1]; rest == if front[|front| - 1] == '_' then front[..|front| - 1] else front
    ensures ParseNat(s) == match ParseNat(rest) case Some(v) => Some(10 * v + (s[|s| - 1] as int - '0' as int)) case None => None
    ensures NoUnderscores(s) == NoUnderscores(rest) + [s[|s| - 1]]
  {
  }

  lemma GroupedFront(s: string, rest: string)
    requires |s| > 1 && IsDigit(s[|s| - 1])
    requires var front := s[..|s| - 1]; rest == if front[|front| - 1] == '_' then front[..|front| - 1] else front
    ensures Grouped(s) <==> Grouped(rest)
  {
    var n := |rest|;
    assert forall i | 0 <= i < n :: rest[i] == s[i];
    if Grouped(rest) {
      forall i | 0 < i < |s| && s[i] == '_' ensures s[i - 1] != '_' { if i < n { assert rest[i] == '_'; } }
      forall i | 0 <= i < |s| ensures IsDigit(s[i]) || s[i] == '_' { if i < n { assert rest[i] == s[i]; } }
    }
  }

  lemma LastDigitParses(s: string, d: char)
    requires ParseNat(s).Some? && IsDigit(d)
    ensures ParseNat(s + [d]) == Some(10 * ParseNat(s).value + (d as int - '0' as int))
  {
    assert (s + [d])[..|s|] == s;
  }

  // The sign, and the white space around a number.
  lemma SignExact(s: string)
    requires s != [] && !IsSpace(s[0]) && !IsSpace(s[|s| - 1]) && s[0] != '-' && s[0] != '+'
    ensures ParseInt(s) == ParseNat(s) && ParseInt("+" + s) == ParseNat(s)
    ensures ParseInt("-" + s) == match ParseNat(s) case Some(v) => Some(-v) case None => None
  {
    hide IsSpace, ParseNat;
    assert ("+" + s)[1..] == s && ("-" + s)[1..] == s;
    StripNothing(s);
    assert !IsSpace('+') && !IsSpace('-') by { SignsAreNoSpace(); }
    StripNothing("+" + s);
    StripNothing("-" + s);
  }

  lemma SignsAreNoSpace()
    ensures !IsSpace('+') && !IsSpace('-')
  {
  }

  lemma {:induction false} ParseNatDigits(n: nat)
    ensures ParseNat(Digits(n)) == Some(n)
  {
    DigitsLength(n);
    var s := Digits(n);
    if n >= 10 {
      ParseNatDigits(n / 10);
      var front := s[..|s| - 1];
      assert front[|front| - 1] in Digits(n / 10);
      assert s[|s| - 1] == Digit(n % 10);
    } else {
      assert s[..|s| - 1] == [];
    }
  }

  // int(str(n)) == n
  lemma {:induction false} ParseIntDigits(n: nat)
    ensures ParseInt(Digits(n)) == Some(n)
  {
    var s := Digits(n);
    assert s[0] in s && s[|s| - 1] in s;
    assert !IsSpace(s[0]) && !IsSpace(s[|s| - 1]) && s[0] != '-' && s[0] != '+';
    hide IsSpace, Strip, Digits, ParseNat;
    StripNothing(s);
    ParseNatDigits(n);
  }

  lemma {:induction false} StripNothing(s: string)
    requires s != [] && !IsSpace(s[0]) && !IsSpace(s[|s| - 1])
    ensures Strip(s) == s
  {
    hide IsSpace;
  }

  // int("-" + str(n)) == -n
  lemma {:induction false} ParseNegative(n: nat, i: int)
    requires i + n == 0
    ensures ParseInt("-" + Digits(n)) == Some(i)
  {
    hide Digits, ParseNat, Strip;
    var s := "-" + Digits(n);
    assert s[0] == '-' && s[1..] == Digits(n);
    assert s[|s| - 1] == Digits(n)[|Digits(n)| - 1] && Digits(n)[|Digits(n)| - 1] in Digits(n);
    StripNothing(s);
    ParseNatDigits(n);
  }

  // ----- splitting at slashes -----

  lemma {:induction false} SplitPiece(e: string, s: string)
    requires '/' !in e
    ensures SplitSlash(e + s) == [e + SplitSlash(s)[0]] + SplitSlash(s)[1..]
  {
    if e == [] {
      assert e + s == s;
      assert e + SplitSlash(s)[0] == SplitSlash(s)[0];
    } else {
      assert (e + s)[1..] == e[1..] + s;
      SplitPiece(e[1..], s);
      assert [e[0]] + (e[1..] + SplitSlash(s)[0]) == e + SplitSlash(s)[0];
    }
  }

  lemma {:induction false} SplitAppendSlash(s: string)
    ensures SplitSlash(s + "/") == SplitSlash(s) + [[]]
  {
    if s != [] {
      SplitAppendSlash(s[1..]);
      assert (s + "/")[1..] == s[1..] + "/";
    } else {
      assert s + "/" == "/";
      assert SplitSlash("/") == [[]] + SplitSlash([]);
    }
  }

  lemma {:induction false} DropEmptyAppend(a: seq<string>, b: seq<string>)
    ensures DropEmpty(a + b) == DropEmpty(a) + DropEmpty(b)
  {
    if a == [] {
      assert a + b == b;
    } else {
      DropEmptyAppend(a[1..], b);
      assert (a + b)[1..] == a[1..] + b && (a + b)[0] == a[0];
      assert DropEmpty(a + b) == (if a[0] == [] then [] else [a[0]]) + DropEmpty(a[1..] + b);
    }
  }

  lemma {:induction false} DropStripLeft(s: string)
    ensures DropEmpty(SplitSlash(StripSlashLeft(s))) == DropEmpty(SplitSlash(s))
  {
    if s != [] && s[0] == '/' {
      DropStripLeft(s[1..]);
      assert SplitSlash(s)[1..] == SplitSlash(s[1..]);
    }
  }

  lemma {:induction false} DropStripRight(s: string)
    ensures DropEmpty(SplitSlash(StripSlashRight(s))) == DropEmpty(SplitSlash(s))
  {
    if s != [] && s[|s| - 1] == '/' {
      var front := s[..|s| - 1];
      DropStripRight(front);
      assert s == front + "/";
      SplitAppendSlash(front);
      DropEmptyAppend(SplitSlash(front), [[]]);
    }
  }

  lemma {:induction false} DropNothing(parts: seq<string>)
    requires forall i | 0 <= i < |parts| :: parts[i] != []
    ensures DropEmpty(parts) == parts
  {
    if parts != [] { DropNothing(parts[1..]); }
  }
}
