// tools/local/llm_generate_intent.py: cutting one JSON object out of surrounding text.

module Scanner {
  import opened Basics
  import opened JsonModel
  import opened Text

  // ----- the brace counter -----

  // brace, in_str and esc of the loop
  datatype Mode = Mode(depth: int, inString: bool, escaped: bool)

  // What reading a text leads to: the loop goes on, or it stopped at a closing brace with the rest
  // of the text unread.
  datatype Outcome = Going(mode: Mode) | Closed(rest: string)

  function Next(m: Mode, ch: char): Mode {
    if m.inString then
      if m.escaped then m.(escaped := false)
      else if ch == '\\' then m.(escaped := true)
      else if ch == '"' then m.(inString := false)
      else m
    else if ch == '"' then m.(inString := true)
    else if ch == '{' then m.(depth := m.depth + 1)
    else if ch == '}' then m.(depth := m.depth - 1)
    else m
  }

  predicate Stops(m: Mode, ch: char) {
    !m.inString && ch == '}' && m.depth == 1
  }

  function Feed(m: Mode, s: string): Outcome
    decreases |s|
  {
    if s == [] then Going(m)
    else if Stops(m, s[0]) then Closed(s[1..])
    else Feed(Next(m, s[0]), s[1..])
  }

  lemma {:induction false} FeedRest(m: Mode, s: string)
    ensures Feed(m, s).Closed? ==> |Feed(m, s).rest| < |s|
    decreases |s|
  {
    if s != [] && !Stops(m, s[0]) { FeedRest(Next(m, s[0]), s[1..]); }
  }

  const START := Mode(0, false, false)

  // t.find("{")
  function FindBrace(t: string): (r: Option<nat>)
    ensures r.Some? ==> r.value < |t| && t[r.value] == '{'
  {
    if t == [] then None
    else if t[0] == '{' then Some(0)
    else match FindBrace(t[1..])
      case Some(i) => Some(i + 1)
      case None => None
  }

  // Where the loop that starts at a position stops: behind the brace that brings the depth to zero.
  function ScanEnd(t: string, start: nat): (r: Option<nat>)
    requires start <= |t|
    ensures r.Some? ==> start < r.value <= |t|
  {
    FeedRest(START, t[start..]);
    match Feed(START, t[start..])
    case Going(_) => None
    case Closed(rest) => Some(|t| - |rest|)
  }

  // The first brace-balanced candidate.
  function Candidate(t: string): Option<string> {
    match FindBrace(t)
    case None => None
    case Some(start) =>
      match ScanEnd(t, start)
      case None => None
      case Some(end) => Some(t[start..end])
  }

  // _extract_json_object, for a given json.loads; Err is _fail
  function Extract(text: string, loads: string -> Option<Json>): Result<map<string, Json>> {
    var t := Strip(text);
    var whole := loads(t);
    if whole.Some? && whole.value.Obj? then Ok(whole.value.fields) else
    match Candidate(t)
    case None => Err
    case Some(cand) =>
      var obj := loads(cand);
      if obj.Some? && obj.value.Obj? then Ok(obj.value.fields) else Err
  }

  lemma FeedStep(m: Mode, t: string, i: nat)
    requires i < |t|
    ensures Feed(m, t[i..]) == if Stops(m, t[i]) then Closed(t[i + 1..]) else Feed(Next(m, t[i]), t[i + 1..])
  {
    assert t[i..][0] == t[i] && t[i..][1..] == t[i + 1..];
  }

  // The loop over the characters.
  method ScanObject(t: string, start: nat) returns (end: Option<nat>)
    requires start <= |t|
    ensures end == ScanEnd(t, start)
  {
    var brace, inStr, esc := 0, false, false;
    for i := start to |t|
      invariant Feed(START, t[start..]) == Feed(Mode(brace, inStr, esc), t[i..])
    {
      var ch := t[i];
      FeedStep(Mode(brace, inStr, esc), t, i);
      if inStr {
        if esc {
          esc := false;
        } else if ch == '\\' {
          esc := true;
        } else if ch == '"' {
          inStr := false;
        }
      } else {
        if ch == '"' {
          inStr := true;
        } else if ch == '{' {
          brace := brace + 1;
        } else if ch == '}' {
          brace := brace - 1;
          if brace == 0 {
            return Some(i + 1);
          }
        }
      }
    }
    return None;
  }

  method ExtractJsonObject(text: string, loads: string -> Option<Json>) returns (r: Result<map<string, Json>>)
    ensures r == Extract(text, loads)
  {
    var t := Strip(text);
    var whole := loads(t);
    if whole.Some? && whole.value.Obj? {
      return Ok(whole.value.fields);
    }
    var start := FindBrace(t);
    if start.None? {
      return Err;
    }
    var end := ScanObject(t, start.value);
    if end.None? {
      return Err;
    }
    var obj := loads(t[start.value..end.value]);
    if obj.Some? && obj.value.Obj? {
      return Ok(obj.value.fields);
    }
    return Err;
  }

  // ----- JSON texts: the grammar of RFC 8259 with free white space -----

  // One piece of a string: a character as itself, or a backslash with the character after it.  The
  // four digits of a \u escape are plain pieces.
  datatype Piece = Plain(c: char) | Escaped(c: char)

  datatype Tree =
    | Word(text: string)
    | Quoted(pieces: seq<Piece>)
    | List(inside: string, items: seq<Item>)
    | Object(inside: string, members: seq<Member>)

  datatype Item = Item(left: string, value: Tree, right: string)
  datatype Member = Member(left: string, key: seq<Piece>, right: string, item: Item)

  predicate IsBlank(s: string) {
    forall i | 0 <= i < |s| :: s[i] == ' ' || s[i] == '\t' || s[i] == '\n' || s[i] == '\r'
  }

  // Numbers and the three literals hold no quote and no brace; nothing else about them matters.
  predicate IsWord(s: string) {
    forall i | 0 <= i < |s| :: s[i] != '"' && s[i] != '{' && s[i] != '}'
  }

  predicate ValidPieces(ps: seq<Piece>) {
    forall i | 0 <= i < |ps| :: ps[i].Plain? ==> ps[i].c != '"' && ps[i].c != '\\'
  }

  predicate Valid(t: Tree) {
    match t
    case Word(text) => IsWord(text)
    case Quoted(ps) => ValidPieces(ps)
    case List(inside, items) => IsBlank(inside) && forall i | 0 <= i < |items| :: ValidItem(items[i])
    case Object(inside, members) => IsBlank(inside) && forall i | 0 <= i < |members| :: ValidMember(members[i])
  }

  predicate ValidItem(x: Item) {
    IsBlank(x.left) && Valid(x.value) && IsBlank(x.right)
  }

  predicate ValidMember(x: Member) {
    IsBlank(x.left) && ValidPieces(x.key) && IsBlank(x.right) && ValidItem(x.item)
  }

  function RenderPiece(p: Piece): string {
    match p
    case Plain(c) => [c]
    case Escaped(c) => ['\\', c]
  }

  function RenderPieces(ps: seq<Piece>): string {
    if ps == [] then [] else
    RenderPiece(ps[0]) + RenderPieces(ps[1..])
  }

  function RenderQuoted(ps: seq<Piece>): string {
    "\"" + RenderPieces(ps) + "\""
  }

  function Render(t: Tree): string
    decreases t, 1
  {
    match t
    case Word(text) => text
    case Quoted(ps) => RenderQuoted(ps)
    case List(inside, items) => "[" + (if items == [] then inside else RenderItems(items)) + "]"
    case Object(inside, members) => "{" + (if members == [] then inside else RenderMembers(members)) + "}"
  }

  function RenderItem(x: Item): string
    decreases x, 1
  {
    x.left + Render(x.value) + x.right
  }

  function RenderItems(items: seq<Item>): string
    decreases items, 0
  {
    if items == [] then [] else
    RenderItem(items[0]) + (if |items| == 1 then [] else "," + RenderItems(items[1..]))
  }

  function RenderMember(x: Member): string
    decreases x, 1
  {
    x.left + RenderQuoted(x.key) + x.right + ":" + RenderItem(x.item)
  }

  function RenderMembers(members: seq<Member>): string
    decreases members, 0
  {
    if members == [] then [] else
    RenderMember(members[0]) + (if |members| == 1 then [] else "," + RenderMembers(members[1..]))
  }

  // ----- feeding a rendered tree -----

  lemma {:induction false} FeedAppend(m: Mode, a: string, b: string)
    ensures Feed(m, a + b) == match Feed(m, a)
                              case Going(n) => Feed(n, b)
                              case Closed(rest) => Closed(rest + b)
    decreases |a|
  {
    if a == [] {
      assert a + b == b;
    } else {
      assert (a + b)[1..] == a[1..] + b;
      if !Stops(m, a[0]) { FeedAppend(Next(m, a[0]), a[1..], b); }
    }
  }

  // Outside strings and at depth one or more: the modes in which values are read.
  predicate Inside(m: Mode) {
    m.depth >= 1 && !m.inString && !m.escaped
  }

  ghost predicate Passes(m: Mode, s: string) {
    Feed(m, s) == Going(m)
  }

  lemma PassesAppend(m: Mode, a: string, b: string)
    requires Passes(m, a) && Passes(m, b)
    ensures Passes(m, a + b)
  {
    FeedAppend(m, a, b);
  }

  lemma {:induction false} WordPasses(m: Mode, s: string)
    requires Inside(m) && IsWord(s)
    ensures Passes(m, s)
  {
    if s != [] { WordPasses(m, s[1..]); }
  }

  lemma BlankPasses(m: Mode, s: string)
    requires Inside(m) && IsBlank(s)
    ensures Passes(m, s)
  {
    WordPasses(m, s);
  }

  lemma PiecePasses(m: Mode, p: Piece)
    requires m.inString && !m.escaped && ValidPieces([p])
    ensures Passes(m, RenderPiece(p))
  {
    assert [p][0] == p;
    var s := RenderPiece(p);
    if p.Escaped? {
      assert s[0] == '\\' && s[1..] == [p.c];
      assert Feed(m.(escaped := true), [p.c]) == Feed(m, []);
    }
  }

  lemma {:induction false} PiecesPass(m: Mode, ps: seq<Piece>)
    requires m.inString && !m.escaped && ValidPieces(ps)
    ensures Passes(m, RenderPieces(ps))
  {
    if ps != [] {
      PiecePasses(m, ps[0]);
      PiecesPass(m, ps[1..]);
      PassesAppend(m, RenderPiece(ps[0]), RenderPieces(ps[1..]));
    }
  }

  lemma QuotedPasses(m: Mode, ps: seq<Piece>)
    requires Inside(m) && ValidPieces(ps)
    ensures Passes(m, RenderQuoted(ps))
  {
    var n := m.(inString := true);
    PiecesPass(n, ps);
    FeedAppend(n, RenderPieces(ps), "\"");
    FeedAppend(m, "\"", RenderPieces(ps) + "\"");
    assert "\"" + (RenderPieces(ps) + "\"") == RenderQuoted(ps);
  }

  lemma {:induction false} TreePasses(m: Mode, t: Tree)
    requires Inside(m) && Valid(t)
    ensures Passes(m, Render(t))
    decreases t, 1
  {
    match t
    case Word(text) => WordPasses(m, text);
    case Quoted(ps) => QuotedPasses(m, ps);
    case List(inside, items) =>
      if items == [] { BlankPasses(m, inside); } else { ItemsPass(m, items); }
      ListPasses(m, if items == [] then inside else RenderItems(items));
    case Object(inside, members) =>
      ObjectBody(m, t);
      ObjectPasses(m, if members == [] then inside else RenderMembers(members));
  }

  lemma ListPasses(m: Mode, body: string)
    requires Inside(m) && Passes(m, body)
    ensures Passes(m, "[" + body + "]")
  {
    WordPasses(m, "[");
    WordPasses(m, "]");
    PassesAppend(m, "[", body);
    PassesAppend(m, "[" + body, "]");
  }

  lemma FeedChar(m: Mode, c: char, s: string)
    ensures Feed(m, [c] + s) == if Stops(m, c) then Closed(s) else Feed(Next(m, c), s)
  {
    var t := [c] + s;
    assert t[0] == c && t[1..] == s;
  }

  lemma BraceText(body: string, after: string)
    ensures "{" + body + "}" + after == ['{'] + (body + (['}'] + after))
  {
  }

  // An opening brace, a text that passes one level deeper, and a closing brace.
  lemma {:induction false} FeedBraces(m: Mode, body: string, after: string)
    requires !m.inString && !m.escaped && m.depth >= 0
    requires Passes(m.(depth := m.depth + 1), body)
    ensures Feed(m, "{" + body + "}" + after) == if m.depth == 0 then Closed(after) else Feed(m, after)
  {
    var n := m.(depth := m.depth + 1);
    BraceText(body, after);
    FeedChar(m, '{', body + (['}'] + after));
    FeedAppend(n, body, ['}'] + after);
    FeedChar(n, '}', after);
  }

  lemma ObjectPasses(m: Mode, body: string)
    requires Inside(m) && Passes(m.(depth := m.depth + 1), body)
    ensures Passes(m, "{" + body + "}")
  {
    FeedBraces(m, body, []);
    assert "{" + body + "}" + [] == "{" + body + "}";
  }

  lemma {:induction false} ObjectBody(m: Mode, t: Tree)
    requires !m.inString && !m.escaped && m.depth >= 0 && Valid(t) && t.Object?
    ensures Passes(m.(depth := m.depth + 1), if t.members == [] then t.inside else RenderMembers(t.members))
    decreases t, 0
  {
    var n := m.(depth := m.depth + 1);
    if t.members == [] { BlankPasses(n, t.inside); } else { MembersPass(n, t.members); }
  }

  lemma {:induction false} ItemPasses(m: Mode, x: Item)
    requires Inside(m) && ValidItem(x)
    ensures Passes(m, RenderItem(x))
    decreases x, 1
  {
    BlankPasses(m, x.left);
    TreePasses(m, x.value);
    BlankPasses(m, x.right);
    PassesAppend(m, x.left, Render(x.value));
    PassesAppend(m, x.left + Render(x.value), x.right);
  }

  lemma {:induction false} ItemsPass(m: Mode, items: seq<Item>)
    requires Inside(m) && forall i | 0 <= i < |items| :: ValidItem(items[i])
    ensures Passes(m, RenderItems(items))
    decreases items, 0
  {
    if items != [] {
      ItemPasses(m, items[0]);
      var more := if |items| == 1 then [] else "," + RenderItems(items[1..]);
      if |items| > 1 {
        ItemsPass(m, items[1..]);
        PassesAppend(m, ",", RenderItems(items[1..]));
      }
      PassesAppend(m, RenderItem(items[0]), more);
    }
  }

  lemma {:induction false} MemberPasses(m: Mode, x: Member)
    requires Inside(m) && ValidMember(x)
    ensures Passes(m, RenderMember(x))
    decreases x, 1
  {
    BlankPasses(m, x.left);
    QuotedPasses(m, x.key);
    BlankPasses(m, x.right);
    WordPasses(m, ":");
    ItemPasses(m, x.item);
    PassesAppend(m, x.left, RenderQuoted(x.key));
    PassesAppend(m, x.left + RenderQuoted(x.key), x.right);
    PassesAppend(m, x.left + RenderQuoted(x.key) + x.right, ":");
    PassesAppend(m, x.left + RenderQuoted(x.key) + x.right + ":", RenderItem(x.item));
  }

  lemma {:induction false} MembersPass(m: Mode, members: seq<Member>)
    requires Inside(m) && forall i | 0 <= i < |members| :: ValidMember(members[i])
    ensures Passes(m, RenderMembers(members))
    decreases members, 0
  {
    if members != [] {
      MemberPasses(m, members[0]);
      var more := if |members| == 1 then [] else "," + RenderMembers(members[1..]);
      if |members| > 1 {
        MembersPass(m, members[1..]);
        PassesAppend(m, ",", RenderMembers(members[1..]));
      }
      PassesAppend(m, RenderMember(members[0]), more);
    }
  }

  // The counter reads an object to its last brace and stops there, whatever follows.
  lemma ObjectCloses(t: Tree, after: string)
    requires Valid(t) && t.Object?
    ensures Feed(START, Render(t) + after) == Closed(after)
  {
    ObjectBody(START, t);
    FeedBraces(START, if t.members == [] then t.inside else RenderMembers(t.members), after);
  }

  // ----- main results -----

  lemma {:induction false} FindBraceAfter(before: string, s: string)
    requires '{' !in before && s != [] && s[0] == '{'
    ensures FindBrace(before + s) == Some(|before|)
  {
    if before == [] {
      assert before + s == s;
    } else {
      assert (before + s)[1..] == before[1..] + s;
      FindBraceAfter(before[1..], s);
    }
  }

  // In any text that holds an object after text without an opening brace, the candidate is exactly
  // that object.
  lemma CandidateIsObject(before: string, t: Tree, after: string)
    requires Valid(t) && t.Object? && '{' !in before
    ensures Candidate(before + Render(t) + after) == Some(Render(t))
  {
    var s := Render(t) + after;
    var whole := before + Render(t) + after;
    assert whole == before + s;
    FindBraceAfter(before, s);
    assert whole[|before|..] == s;
    ObjectCloses(t, after);
    assert whole[|before|..|whole| - |after|] == Render(t);
  }

  lemma {:induction false} StripLeftAround(before: string, core: string)
    requires core != [] && !IsSpace(core[0])
    ensures StripLeft(before + core) == StripLeft(before) + core
  {
    if before == [] {
      assert before + core == core;
    } else if IsSpace(before[0]) {
      assert (before + core)[1..] == before[1..] + core;
      StripLeftAround(before[1..], core);
    }
  }

  lemma {:induction false} StripRightAround(core: string, after: string)
    requires core != [] && !IsSpace(core[|core| - 1])
    ensures StripRight(core + after) == core + StripRight(after)
    decreases |after|
  {
    if after == [] {
      assert core + after == core;
    } else if IsSpace(after[|after| - 1]) {
      assert (core + after)[..|core + after| - 1] == core + after[..|after| - 1];
      StripRightAround(core, after[..|after| - 1]);
    }
  }

  lemma StripAround(before: string, core: string, after: string)
    requires core != [] && !IsSpace(core[0]) && !IsSpace(core[|core| - 1])
    ensures Strip(before + core + after) == StripLeft(before) + core + StripRight(after)
  {
    assert before + core + after == before + (core + after);
    StripLeftAround(before, core + after);
    var left := StripLeft(before) + core;
    assert StripLeft(before) + (core + after) == left + after;
    assert left[|left| - 1] == core[|core| - 1];
    StripRightAround(left, after);
  }

  // Whatever surrounds it, the object is what gets parsed: unless the whole text already parses as
  // an object, the call returns what json.loads makes of exactly the object's text, and fails if
  // that does not parse.
  lemma ExtractsTheObject(before: string, t: Tree, after: string, loads: string -> Option<Json>)
    requires Valid(t) && t.Object? && '{' !in before
    requires !(loads(Strip(before + Render(t) + after)).Some? && loads(Strip(before + Render(t) + after)).value.Obj?)
    ensures Extract(before + Render(t) + after, loads)
            == match loads(Render(t))
               case Some(Obj(fields)) => Ok(fields)
               case _ => Err
  {
    var core := Render(t);
    assert core[0] == '{' && core[|core| - 1] == '}';
    StripAround(before, core, after);
    StripLeftKeeps(before, '{');
    CandidateIsObject(StripLeft(before), t, StripRight(after));
  }

  lemma {:induction false} StripLeftKeeps(s: string, c: char)
    requires c !in s
    ensures c !in StripLeft(s)
  {
    if s != [] && IsSpace(s[0]) { StripLeftKeeps(s[1..], c); }
  }

  // ----- when nothing is found -----

  lemma {:induction false} NoBrace(s: string)
    requires '{' !in s
    ensures Candidate(s) == None && FindBrace(s) == None
  {
    if s != [] { NoBrace(s[1..]); }
  }

  // An object that is cut off is no candidate.
  lemma CutOff(before: string, t: Tree, n: nat)
    requires Valid(t) && t.Object? && '{' !in before && n < |Render(t)|
    ensures Candidate(before + Render(t)[..n]) == None
  {
    var p, q := Render(t)[..n], Render(t)[n..];
    if n == 0 {
      assert before + p == before;
      NoBrace(before);
    } else {
      assert p + q == Render(t) && Render(t) + "" == Render(t) && p[0] == '{';
      ObjectCloses(t, "");
      FeedAppend(START, p, q);
      FindBraceAfter(before, p);
      assert (before + p)[|before|..] == p;
    }
  }

  // A text without an object that is closed, before or after stripping, gives nothing unless it parses
  // as an object itself.
  lemma {:induction false} CutOffFails(before: string, t: Tree, n: nat, loads: string -> Option<Json>)
    requires Valid(t) && t.Object? && '{' !in before && n < |Render(t)|
    requires !(loads(Strip(before + Render(t)[..n])).Some? && loads(Strip(before + Render(t)[..n])).value.Obj?)
    ensures Extract(before + Render(t)[..n], loads).Err?
  {
    hide Render, Valid, Candidate, Strip;
    var p := Render(t)[..n];
    forall k: nat | k <= n ensures Candidate(StripLeft(before) + p[..k]) == None {
      StripLeftKeeps(before, '{');
      assert p[..k] == Render(t)[..k];
      CutOff(StripLeft(before), t, k);
    }
    StartsWithBrace(t);
    NoneStripped(before, p);
  }

  lemma StartsWithBrace(t: Tree)
    requires t.Object?
    ensures Render(t) != "" && Render(t)[0] == '{'
  {
  }

  lemma NoneStripped(before: string, p: string)
    requires '{' !in before && (p != "" ==> p[0] == '{')
    requires forall k: nat | k <= |p| :: Candidate(StripLeft(before) + p[..k]) == None
    ensures Candidate(Strip(before + p)) == None
  {
    if p == "" {
      assert before + p == before;
      StripKeepsOut(before, '{');
      NoBrace(Strip(before));
    } else {
      StripLeftAround(before, p);
      StripLeftKeeps(before, '{');
      hide Strip, StripLeft, StripRight, Candidate, IsSpace;
      StrippedFront(before, p);
      if |Strip(before + p)| <= |StripLeft(before)| { NoBrace(Strip(before + p)); }
    }
  }

  lemma StrippedFront(before: string, p: string)
    requires StripLeft(before + p) == StripLeft(before) + p
    ensures var left, r := StripLeft(before), Strip(before + p);
            && |r| <= |left| + |p|
            && r == if |r| <= |left| then left[..|r|] else left + p[..|r| - |left|]
  {
    hide StripLeft, StripRight;
    var left, r := StripLeft(before), Strip(before + p);
    assert r == StripRight(left + p) == (left + p)[..|r|];
  }

  lemma StripKeepsOut(s: string, c: char)
    requires c !in s
    ensures c !in Strip(s)
  {
    StripLeftKeeps(s, c);
    var l := StripLeft(s);
    assert StripRight(l) == l[..|StripRight(l)|];
  }

  // A text that parses as an object gives that object.
  lemma WholeText(text: string, loads: string -> Option<Json>, fields: map<string, Json>)
    requires loads(Strip(text)) == Some(Obj(fields))
    ensures Extract(text, loads) == Ok(fields)
  {
    hide Candidate, Strip;
  }
}
