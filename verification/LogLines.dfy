// How a log file is cut back into lines: str.splitlines() on the text that was written, one printed
// value and a newline per entry.

module LogLines {
  import opened Basics
  import opened JsonModel

  // Where str.splitlines() ends a line.
  predicate IsBreak(c: char) {
    var n := c as int;
    10 <= n <= 13 || 28 <= n <= 30 || IsSeparator(c)
  }

  // NEXT LINE, LINE SEPARATOR and PARAGRAPH SEPARATOR: breaks that are no control characters to JSON.
  predicate IsSeparator(c: char) {
    var n := c as int;
    n == 0x85 || n == 0x2028 || n == 0x2029
  }

  function LineEnd(s: string): (i: nat)
    ensures i <= |s|
    ensures i < |s| ==> IsBreak(s[i])
    ensures forall j | 0 <= j < i :: !IsBreak(s[j])
  {
    if s == [] || IsBreak(s[0]) then 0 else 1 + LineEnd(s[1..])
  }

  // s.splitlines(): "\r\n" is one break
  function SplitLines(s: string): seq<string>
    decreases |s|
  {
    if s == [] then [] else
    var i := LineEnd(s);
    if i == |s| then [s]
    else if s[i] == '\r' && i + 1 < |s| && s[i + 1] == '\n' then [s[..i]] + SplitLines(s[i + 2..])
    else [s[..i]] + SplitLines(s[i + 1..])
  }

  // The characters that Python's documentation lists.
  const BREAKS := "\n\r\U{0B}\U{0C}\U{1C}\U{1D}\U{1E}\U{85}\U{2028}\U{2029}"

  lemma BreaksAre(c: char)
    ensures IsBreak(c) <==> c in BREAKS
  {
    if c in BREAKS { var i :| 0 <= i < |BREAKS| && BREAKS[i] == c; }
    var n := c as int;
    if IsBreak(c) {
      assert c in [BREAKS[0], BREAKS[1], BREAKS[2], BREAKS[3], BREAKS[4], BREAKS[5], BREAKS[6], BREAKS[7], BREAKS[8], BREAKS[9]];
    }
  }

  // How a text is cut: at the first break, which is one of these characters or "\r\n"; a text without
  // one is one line, the empty text none.
  lemma {:induction false} SplitLinesExact(line: string, brk: string, rest: string)
    requires forall i | 0 <= i < |line| :: line[i] !in BREAKS
    requires brk == "\r\n" || (|brk| == 1 && brk[0] in BREAKS && !(brk == "\r" && "\n" <= rest))
    ensures SplitLines(line + brk + rest) == [line] + SplitLines(rest)
    ensures SplitLines(line) == if line == "" then [] else [line]
  {
    hide BREAKS;
    forall c ensures IsBreak(c) <==> c in BREAKS { BreaksAre(c); }
    var s, n := line + brk + rest, |line|;
    assert forall j | 0 <= j < n :: s[j] == line[j];
    assert s[n] == brk[0] && s[..n] == line && s[n + |brk|..] == rest;
    assert IsBreak(brk[0]) by { if brk == "\r\n" { assert brk[0] == '\r'; } }
    LineEndIs(s, n);
    LineEndOf(line);
    if n + 1 < |s| && |brk| == 1 { assert s[n + 1] == rest[0]; }
    if brk == "\r\n" { assert s[n + 1] == '\n'; }
    hide IsBreak;
  }

  lemma {:induction false} LineEndOf(s: string)
    requires forall j | 0 <= j < |s| :: !IsBreak(s[j])
    ensures LineEnd(s) == |s|
  {
  }

  // The file after these lines were appended one by one.
  function FileText(lines: seq<string>): string {
    if lines == [] then [] else lines[0] + ("\n" + FileText(lines[1..]))
  }

  // ----- texts without control characters -----

  predicate NoControl(s: string) {
    forall i | 0 <= i < |s| :: s[i] as int >= 0x20
  }

  function Separators(s: string): nat {
    if s == [] then 0 else (if IsSeparator(s[0]) then 1 else 0) + Separators(s[1..])
  }

  lemma {:induction false} NoSeparatorInPrefix(s: string, i: nat)
    requires NoControl(s) && i <= |s| && forall j | 0 <= j < i :: !IsBreak(s[j])
    ensures Separators(s) == Separators(s[i..])
  {
    if i > 0 {
      NoSeparatorInPrefix(s[1..], i - 1);
      assert s[1..][i - 1..] == s[i..];
    }
  }

  lemma {:induction false} LineEndIs(t: string, i: nat)
    requires i < |t| && IsBreak(t[i]) && forall j | 0 <= j < i :: !IsBreak(t[j])
    ensures LineEnd(t) == i
  {
  }

  lemma {:induction false} SplitAt(t: string, i: nat)
    requires i < |t| && IsBreak(t[i]) && t[i] != '\r' && forall j | 0 <= j < i :: !IsBreak(t[j])
    ensures SplitLines(t) == [t[..i]] + SplitLines(t[i + 1..])
  {
    LineEndIs(t, i);
  }

  // Where the parts of an appended line are.
  lemma LineParts(line: string, rest: string, i: nat)
    requires i <= |line|
    ensures var t := line + ("\n" + rest);
            && (forall j | 0 <= j < |line| :: t[j] == line[j])
            && t[|line|] == '\n' && t[..|line|] == line && t[|line| + 1..] == rest
            && (i < |line| ==> t[i + 1..] == line[i + 1..] + ("\n" + rest) && line[i..][1..] == line[i + 1..])
  {
  }

  lemma {:induction false} CutPlain(line: string, rest: string)
    requires NoControl(line) && LineEnd(line) == |line|
    ensures SplitLines(line + ("\n" + rest)) == [line] + SplitLines(rest)
    ensures Separators(line) == 0
  {
    LineParts(line, rest, |line|);
    SplitAt(line + ("\n" + rest), |line|);
    NoSeparatorInPrefix(line, |line|);
  }

  lemma {:induction false} CutAtSeparator(line: string, rest: string, i: nat)
    requires NoControl(line) && i == LineEnd(line) < |line|
    ensures SplitLines(line + ("\n" + rest)) == [line[..i]] + SplitLines(line[i + 1..] + ("\n" + rest))
    ensures Separators(line) == 1 + Separators(line[i + 1..])
  {
    var t := line + ("\n" + rest);
    LineParts(line, rest, i);
    SplitAt(t, i);
    assert t[..i] == line[..i];
    NoSeparatorInPrefix(line, i);
  }

  // A printed line is cut at every separator it holds, and at its newline.
  lemma {:induction false} CutLine(line: string, rest: string)
    requires NoControl(line)
    ensures |SplitLines(line + ("\n" + rest))| == 1 + Separators(line) + |SplitLines(rest)|
    ensures Separators(line) == 0 ==> SplitLines(line + ("\n" + rest)) == [line] + SplitLines(rest)
    decreases |line|
  {
    var i := LineEnd(line);
    if i == |line| {
      CutPlain(line, rest);
    } else {
      CutAtSeparator(line, rest, i);
      CutLine(line[i + 1..], rest);
    }
  }

  function TotalSeparators(lines: seq<string>): nat {
    if lines == [] then 0 else Separators(lines[0]) + TotalSeparators(lines[1..])
  }

  lemma {:induction false} NoneInTotal(lines: seq<string>)
    ensures TotalSeparators(lines) == 0 <==> forall i | 0 <= i < |lines| :: Separators(lines[i]) == 0
  {
    if lines != [] {
      NoneInTotal(lines[1..]);
      assert forall i | 0 < i < |lines| :: lines[i] == lines[1..][i - 1];
    }
  }

  lemma {:induction false} CutFile(lines: seq<string>)
    requires forall i | 0 <= i < |lines| :: NoControl(lines[i])
    ensures |SplitLines(FileText(lines))| == |lines| + TotalSeparators(lines)
    ensures TotalSeparators(lines) == 0 ==> SplitLines(FileText(lines)) == lines
  {
    if lines != [] {
      CutFile(lines[1..]);
      CutLine(lines[0], FileText(lines[1..]));
      assert lines == [lines[0]] + lines[1..];
    }
  }

  lemma {:induction false} FileTextAppend(lines: seq<string>, more: seq<string>)
    ensures FileText(lines + more) == FileText(lines) + FileText(more)
  {
    if lines == [] {
      assert lines + more == more;
    } else {
      assert (lines + more)[1..] == lines[1..] + more;
      FileTextAppend(lines[1..], more);
      assert lines[0] + ("\n" + (FileText(lines[1..]) + FileText(more))) == (lines[0] + ("\n" + FileText(lines[1..]))) + FileText(more);
    }
  }

  // Lines without separators in front of anything.
  lemma {:induction false} SplitPlainLines(lines: seq<string>, rest: string)
    requires forall i | 0 <= i < |lines| :: NoControl(lines[i]) && Separators(lines[i]) == 0
    ensures SplitLines(FileText(lines) + rest) == lines + SplitLines(rest)
  {
    hide SplitLines, Separators, NoControl;
    if lines == [] {
      assert FileText(lines) + rest == rest;
    } else {
      SplitPlainLines(lines[1..], rest);
      var tail := FileText(lines[1..]) + rest;
      assert FileText(lines) + rest == lines[0] + ("\n" + tail);
      CutLine(lines[0], tail);
      assert [lines[0]] + (lines[1..] + SplitLines(rest)) == lines + SplitLines(rest);
    }
  }

  // ----- printed values -----

  // Some string or key inside the value holds a separator.
  predicate HoldsSeparator(j: Json) {
    match j
    case Str(s) => Separators(s) > 0
    case Arr(items) => exists i | 0 <= i < |items| :: HoldsSeparator(items[i])
    case Obj(fields) => exists k | k in fields :: Separators(k) > 0 || HoldsSeparator(fields[k])
    case _ => false
  }

  ghost predicate Shows(s: string, separator: bool) {
    NoControl(s) && (Separators(s) > 0 <==> separator)
  }

  lemma {:induction false} SeparatorsAppend(a: string, b: string)
    ensures Separators(a + b) == Separators(a) + Separators(b)
  {
    if a == [] {
      assert a + b == b;
    } else {
      assert (a + b)[1..] == a[1..] + b;
      SeparatorsAppend(a[1..], b);
    }
  }

  lemma ShowsAppend(a: string, x: bool, b: string, y: bool)
    requires Shows(a, x) && Shows(b, y)
    ensures Shows(a + b, x || y)
  {
    SeparatorsAppend(a, b);
  }

  lemma {:induction false} AsciiShows(s: string)
    requires forall i | 0 <= i < |s| :: 0x20 <= s[i] as int < 0x80
    ensures Shows(s, false)
  {
    if s != [] { AsciiShows(s[1..]); }
  }

  lemma EscapeCharShows(c: char)
    ensures Shows(EscapeChar(c), IsSeparator(c))
  {
    if EscapeChar(c) == [c] {
      assert Separators([c]) == (if IsSeparator(c) then 1 else 0) + Separators([]);
    } else {
      AsciiShows(EscapeChar(c));
    }
  }

  lemma {:induction false} EscapeShows(s: string)
    ensures Shows(Escape(s), Separators(s) > 0)
  {
    if s != [] {
      EscapeCharShows(s[0]);
      EscapeShows(s[1..]);
      ShowsAppend(EscapeChar(s[0]), IsSeparator(s[0]), Escape(s[1..]), Separators(s[1..]) > 0);
    }
  }

  lemma QuoteShows(s: string)
    ensures Shows(Quote(s), Separators(s) > 0)
  {
    EscapeShows(s);
    AsciiShows("\"");
    ShowsAppend("\"", false, Escape(s), Separators(s) > 0);
    ShowsAppend("\"" + Escape(s), Separators(s) > 0, "\"", false);
  }

  lemma {:induction false} IntShows(n: int)
    ensures Shows(IntText(n), false)
  {
    var s := IntText(n);
    forall i | 0 <= i < |s| ensures 0x20 <= s[i] as int < 0x80 {
      if s[i] != '-' { assert s[i] in Digits(if n < 0 then -n else n); }
    }
    AsciiShows(s);
  }

  lemma {:induction false} FloatShows(text: FloatText)
    ensures Shows(text, false)
  {
    assert forall i | 0 <= i < |text| :: text[i] in text;
    AsciiShows(text);
  }

  lemma {:induction false} ScalarShows(j: Json)
    requires !j.Str? && !j.Arr? && !j.Obj?
    ensures Shows(Print(j), false)
  {
    if j.Int? {
      IntShows(j.n);
    } else if j.Float? {
      FloatShows(j.text);
    } else {
      AsciiShows(Print(j));
    }
  }

  lemma {:induction false} PrintShows(j: Json)
    ensures Shows(Print(j), HoldsSeparator(j))
    decreases j, 1, 0
  {
    match j
    case Str(s) => QuoteShows(s);
    case Arr(items) =>
      if items == [] {
        AsciiShows("[]");
      } else {
        PrintShows(items[0]);
        ItemsShow(items[1..]);
        AsciiShows("[");
        ShowsAppend("[", false, Print(items[0]), HoldsSeparator(items[0]));
        ShowsAppend("[" + Print(items[0]), HoldsSeparator(items[0]), PrintItems(items[1..]), SomeItem(items[1..]));
        SomeItemFirst(items);
      }
    case Obj(fields) => ObjectShows(j);
    case _ => ScalarShows(j);
  }

  predicate SomeItem(items: seq<Json>) {
    exists i | 0 <= i < |items| :: HoldsSeparator(items[i])
  }

  lemma SomeItemFirst(items: seq<Json>)
    requires items != []
    ensures SomeItem(items) <==> HoldsSeparator(items[0]) || SomeItem(items[1..])
  {
    if SomeItem(items[1..]) {
      var i :| 0 <= i < |items[1..]| && HoldsSeparator(items[1..][i]);
      assert HoldsSeparator(items[i + 1]);
    }
    if SomeItem(items) && !HoldsSeparator(items[0]) {
      var i :| 0 <= i < |items| && HoldsSeparator(items[i]);
      assert items[1..][i - 1] == items[i];
    }
  }

  lemma {:induction false} ItemsShow(items: seq<Json>)
    ensures Shows(PrintItems(items), SomeItem(items))
    decreases items, 0, 0
  {
    if items == [] {
      AsciiShows("]");
    } else {
      PrintShows(items[0]);
      ItemsShow(items[1..]);
      AsciiShows(",");
      ShowsAppend(",", false, Print(items[0]), HoldsSeparator(items[0]));
      ShowsAppend("," + Print(items[0]), HoldsSeparator(items[0]), PrintItems(items[1..]), SomeItem(items[1..]));
      SomeItemFirst(items);
    }
  }

  predicate MemberHolds(o: Json, k: string)
    requires o.Obj? && k in o.fields
  {
    Separators(k) > 0 || HoldsSeparator(o.fields[k])
  }

  predicate SomeMember(o: Json, ks: seq<string>)
    requires o.Obj? && forall k | k in ks :: k in o.fields
  {
    ks != [] && (MemberHolds(o, ks[0]) || SomeMember(o, ks[1..]))
  }

  lemma {:induction false} SomeMemberIn(o: Json, ks: seq<string>)
    requires o.Obj? && forall k | k in ks :: k in o.fields
    ensures SomeMember(o, ks) <==> exists k | k in ks :: MemberHolds(o, k)
  {
    if ks != [] {
      SomeMemberIn(o, ks[1..]);
      assert forall k :: k in ks <==> k == ks[0] || k in ks[1..];
    }
  }

  lemma {:induction false} MemberShows(o: Json, k: string)
    requires o.Obj? && k in o.fields
    ensures Shows(PrintMember(o, k), MemberHolds(o, k))
    decreases o, 0, 0
  {
    QuoteShows(k);
    PrintShows(o.fields[k]);
    AsciiShows(":");
    ShowsAppend(Quote(k), Separators(k) > 0, ":", false);
    ShowsAppend(Quote(k) + ":", Separators(k) > 0, Print(o.fields[k]), HoldsSeparator(o.fields[k]));
  }

  lemma {:induction false} MembersShow(o: Json, ks: seq<string>)
    requires o.Obj? && forall k | k in ks :: k in o.fields
    ensures Shows(PrintMembers(o, ks), SomeMember(o, ks))
    decreases o, 0, 1 + |ks|
  {
    if ks == [] {
      AsciiShows("}");
    } else {
      MemberShows(o, ks[0]);
      MembersShow(o, ks[1..]);
      AsciiShows(",");
      ShowsAppend(",", false, PrintMember(o, ks[0]), MemberHolds(o, ks[0]));
      ShowsAppend("," + PrintMember(o, ks[0]), MemberHolds(o, ks[0]), PrintMembers(o, ks[1..]), SomeMember(o, ks[1..]));
    }
  }

  lemma {:induction false} ObjectHolds(o: Json, ks: seq<string>)
    requires o.Obj? && ks == SortedKeys(o.fields.Keys)
    ensures forall k :: k in ks <==> k in o.fields
    ensures HoldsSeparator(o) <==> SomeMember(o, ks)
  {
    assert forall k :: k in ks <==> k in Elements(ks);
    SomeMemberIn(o, ks);
    assert HoldsSeparator(o) <==> exists k | k in ks :: MemberHolds(o, k);
  }

  lemma {:induction false} ObjectShows(o: Json)
    requires o.Obj?
    ensures Shows(Print(o), HoldsSeparator(o))
    decreases o, 0, 1 + |SortedKeys(o.fields.Keys)|
  {
    var ks := SortedKeys(o.fields.Keys);
    ObjectHolds(o, ks);
    if ks == [] {
      AsciiShows("{}");
    } else {
      var m, r := PrintMember(o, ks[0]), PrintMembers(o, ks[1..]);
      MemberShows(o, ks[0]);
      MembersShow(o, ks[1..]);
      AsciiShows("{");
      ShowsAppend("{", false, m, MemberHolds(o, ks[0]));
      ShowsAppend("{" + m, MemberHolds(o, ks[0]), r, SomeMember(o, ks[1..]));
      assert Print(o) == "{" + m + r;
    }
  }

  function PrintAll(values: seq<Json>): (r: seq<string>)
    ensures |r| == |values| && forall i | 0 <= i < |r| :: r[i] == Print(values[i])
  {
    seq(|values|, i requires 0 <= i < |values| => Print(values[i]))
  }

  // A log of printed values reads back line by line exactly when no string or key in any of them
  // holds U+0085, U+2028 or U+2029; otherwise it reads back as more lines than were written.
  lemma LogReadsBack(values: seq<Json>)
    ensures SplitLines(FileText(PrintAll(values))) == PrintAll(values)
            <==> forall i | 0 <= i < |values| :: !HoldsSeparator(values[i])
    ensures |SplitLines(FileText(PrintAll(values)))| >= |values|
  {
    var lines := PrintAll(values);
    forall i | 0 <= i < |values| ensures Shows(lines[i], HoldsSeparator(values[i])) { PrintShows(values[i]); }
    CutFile(lines);
    NoneInTotal(lines);
  }
}
