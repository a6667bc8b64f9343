// String literals in printed JSON: where they begin and end, and what a reader makes of a part of a text
// that was cut inside one.

module StringLiterals {
  import opened Basics
  import opened JsonModel
  import opened Text
  import opened LogLines

  // Where a reader of JSON stands: outside a string literal, inside one, behind a backslash of one, or
  // past a backslash outside one, which no reader accepts.
  datatype Pen = Outside | Inside | Escaped | Broken

  function Move(p: Pen, c: char): Pen {
    match p
    case Outside => if c == '"' then Inside else if c == '\\' then Broken else Outside
    case Inside => if c == '"' then Outside else if c == '\\' then Escaped else Inside
    case Escaped => Inside
    case Broken => Broken
  }

  function Draw(p: Pen, s: string): Pen {
    if s == [] then p else Move(Draw(p, s[..|s| - 1]), s[|s| - 1])
  }

  lemma {:induction false} DrawAppend(p: Pen, s: string, t: string)
    ensures Draw(p, s + t) == Draw(Draw(p, s), t)
  {
    if t == [] {
      assert s + t == s;
    } else {
      assert (s + t)[..|s + t| - 1] == s + t[..|t| - 1];
      DrawAppend(p, s, t[..|t| - 1]);
    }
  }

  lemma DrawOne(p: Pen, c: char)
    ensures Draw(p, [c]) == Move(p, c)
  {
    assert [c][..0] == [];
  }

  // Every separator stands inside a string literal, and every literal is closed.
  ghost predicate Tidy(s: string) {
    && Draw(Outside, s) == Outside
    && forall i | 0 <= i < |s| && IsSeparator(s[i]) :: Draw(Outside, s[..i]) == Inside
  }

  lemma {:induction false} TidyAppend(s: string, t: string)
    requires Tidy(s) && Tidy(t)
    ensures Tidy(s + t)
  {
    var st := s + t;
    DrawAppend(Outside, s, t);
    forall i | 0 <= i < |st| && IsSeparator(st[i]) ensures Draw(Outside, st[..i]) == Inside {
      if i < |s| {
        assert st[..i] == s[..i];
      } else {
        assert st[..i] == s + t[..i - |s|];
        DrawAppend(Outside, s, t[..i - |s|]);
      }
    }
  }

  lemma CharTidy(c: char)
    requires c != '"' && c != '\\' && !IsSeparator(c)
    ensures Tidy([c])
  {
    DrawOne(Outside, c);
  }

  // The inside of a literal: it stays inside, and no separator stands behind a backslash.
  ghost predicate StaysInside(s: string) {
    Draw(Inside, s) == Inside && forall i | 0 <= i < |s| && IsSeparator(s[i]) :: Draw(Inside, s[..i]) == Inside
  }

  lemma {:induction false} InsideAppend(s: string, t: string)
    requires StaysInside(s) && StaysInside(t)
    ensures StaysInside(s + t)
  {
    var st := s + t;
    DrawAppend(Inside, s, t);
    forall i | 0 <= i < |st| && IsSeparator(st[i]) ensures Draw(Inside, st[..i]) == Inside {
      if i < |s| {
        assert st[..i] == s[..i];
      } else {
        assert st[..i] == s + t[..i - |s|];
        DrawAppend(Inside, s, t[..i - |s|]);
      }
    }
  }

  lemma PlainInside(s: string)
    requires forall i | 0 <= i < |s| :: s[i] != '"' && s[i] != '\\'
    ensures StaysInside(s)
  {
    if s == [] {
      assert s[..0] == s;
    } else {
      var front, c := s[..|s| - 1], s[|s| - 1];
      PlainInside(front);
      DrawOne(Inside, c);
      assert s == front + [c];
      assert [c][..0] == [] && [c][..1] == [c];
      InsideAppend(front, [c]);
    }
  }

  lemma EscapeInside(c: char)
    requires !IsSeparator(c)
    ensures StaysInside(['\\', c])
  {
    var s := ['\\', c];
    DrawOne(Inside, '\\');
    DrawAppend(Inside, ['\\'], [c]);
    DrawOne(Escaped, c);
    assert s == ['\\'] + [c] && s[..0] == [] && s[..1] == ['\\'] && s[..2] == s;
  }

  lemma EscapeCharInside(c: char)
    ensures StaysInside(EscapeChar(c))
  {
    var s := EscapeChar(c);
    if |s| == 1 {
      PlainInside(s);
    } else if |s| == 2 {
      EscapeInside(s[1]);
      assert s == ['\\', s[1]];
    } else {
      EscapeInside('u');
      PlainInside(s[2..]);
      assert s == ['\\', 'u'] + s[2..];
      InsideAppend(['\\', 'u'], s[2..]);
    }
  }

  lemma {:induction false} EscapeStaysInside(s: string)
    ensures StaysInside(Escape(s))
  {
    if s == [] {
      assert Escape(s)[..0] == [];
    } else {
      EscapeCharInside(s[0]);
      EscapeStaysInside(s[1..]);
      InsideAppend(EscapeChar(s[0]), Escape(s[1..]));
    }
  }

  lemma {:induction false} QuoteTidy(s: string)
    ensures Tidy(Quote(s))
  {
    hide Escape, IsSeparator, Draw;
    var e, q := Escape(s), Quote(s);
    EscapeStaysInside(s);
    assert q == ['"'] + e + ['"'];
    DrawOne(Outside, '"');
    DrawOne(Inside, '"');
    DrawAppend(Outside, ['"'], e);
    DrawAppend(Outside, ['"'] + e, ['"']);
    QuoteIsNoSeparator();
    forall i | 0 <= i < |q| && IsSeparator(q[i]) ensures Draw(Outside, q[..i]) == Inside {
      assert 0 < i <= |e| && q[i] == e[i - 1];
      assert q[..i] == ['"'] + e[..i - 1];
      DrawAppend(Outside, ['"'], e[..i - 1]);
    }
  }

  lemma QuoteIsNoSeparator()
    ensures !IsSeparator('"')
  {
  }

  // ----- any value -----

  lemma MarksTidy()
    ensures Tidy(":") && Tidy(",") && Tidy("{") && Tidy("}") && Tidy("[") && Tidy("]") && Tidy("{}") && Tidy("[]")
  {
    CharTidy(':');
    CharTidy(',');
    CharTidy('{');
    CharTidy('}');
    CharTidy('[');
    CharTidy(']');
    assert "{}" == "{" + "}" && "[]" == "[" + "]";
    TidyAppend("{", "}");
    TidyAppend("[", "]");
  }

  lemma {:induction false} PlainTidy(s: string)
    requires Unquoted(s)
    ensures Tidy(s)
  {
    hide IsSeparator, Tidy;
    if s == [] {
      NothingTidy();
    } else {
      var front, c := s[..|s| - 1], s[|s| - 1];
      PlainTidy(front);
      CharTidy(c);
      assert s == front + [c];
      TidyAppend(front, [c]);
    }
  }

  lemma NothingTidy()
    ensures Tidy("")
  {
  }

  // No quotes, backslashes or line separators.
  predicate Unquoted(s: string) {
    forall i | 0 <= i < |s| :: s[i] != '"' && s[i] != '\\' && !IsSeparator(s[i])
  }

  lemma IntChars(n: int)
    ensures Unquoted(IntText(n))
  {
    var s := IntText(n);
    forall i | 0 <= i < |s| ensures s[i] == '-' || '0' <= s[i] <= '9' {
      if s[i] != '-' { assert s[i] in Digits(if n < 0 then -n else n); }
    }
  }

  lemma FloatChars(text: FloatText)
    ensures Unquoted(text)
  {
    forall i | 0 <= i < |text| ensures 0x20 <= text[i] as int < 0x80 && text[i] != '"' && text[i] != '\\' {
      assert text[i] in text;
    }
  }

  lemma ScalarChars(j: Json)
    requires !j.Str? && !j.Arr? && !j.Obj?
    ensures Unquoted(Print(j))
  {
    hide IntText, Quote;
    if j.Int? {
      IntChars(j.n);
    } else if j.Float? {
      FloatChars(j.text);
    } else {
      assert Print(j) in ["null", "true", "false"];
    }
  }

  lemma ScalarTidy(j: Json)
    requires !j.Str? && !j.Arr? && !j.Obj?
    ensures Tidy(Print(j))
  {
    hide Tidy;
    ScalarChars(j);
    PlainTidy(Print(j));
  }

  lemma {:induction false} ValueTidy(j: Json)
    ensures Tidy(Print(j))
    decreases j, 1, 0
  {
    hide Tidy;
    match j
    case Str(s) => QuoteTidy(s);
    case Arr(items) =>
      MarksTidy();
      if items != [] {
        ValueTidy(items[0]);
        ItemsTidy(items[1..]);
        TidyAppend("[", Print(items[0]));
        TidyAppend("[" + Print(items[0]), PrintItems(items[1..]));
      }
    case Obj(fields) => ObjectTidy(j);
    case _ => ScalarTidy(j);
  }

  lemma {:induction false} ItemsTidy(items: seq<Json>)
    ensures Tidy(PrintItems(items))
    decreases items, 0, 0
  {
    hide Tidy;
    MarksTidy();
    if items != [] {
      ValueTidy(items[0]);
      ItemsTidy(items[1..]);
      TidyAppend(",", Print(items[0]));
      TidyAppend("," + Print(items[0]), PrintItems(items[1..]));
    }
  }

  lemma {:induction false} MemberTidy(o: Json, k: string)
    requires o.Obj? && k in o.fields
    ensures Tidy(PrintMember(o, k))
    decreases o, 0, 0
  {
    hide Tidy, Quote;
    QuoteTidy(k);
    ValueTidy(o.fields[k]);
    hide IsSeparator;
    MarksTidy();
    TidyAppend(Quote(k), ":");
    TidyAppend(Quote(k) + ":", Print(o.fields[k]));
  }

  lemma {:induction false} MembersTidy(o: Json, ks: seq<string>)
    requires o.Obj? && forall k | k in ks :: k in o.fields
    ensures Tidy(PrintMembers(o, ks))
    decreases o, 0, 1 + |ks|
  {
    hide Tidy, PrintMember;
    MarksTidy();
    if ks != [] {
      MemberTidy(o, ks[0]);
      MembersTidy(o, ks[1..]);
      TidyAppend(",", PrintMember(o, ks[0]));
      TidyAppend("," + PrintMember(o, ks[0]), PrintMembers(o, ks[1..]));
    }
  }

  lemma {:induction false} ObjectTidy(o: Json)
    requires o.Obj?
    ensures Tidy(Print(o))
    decreases o, 0, 1 + |SortedKeys(o.fields.Keys)|
  {
    hide Tidy, PrintMember, PrintMembers;
    var ks := SortedKeys(o.fields.Keys);
    assert forall k :: k in ks <==> k in Elements(ks);
    MarksTidy();
    if ks != [] {
      MemberTidy(o, ks[0]);
      MembersTidy(o, ks[1..]);
      TidyAppend("{", PrintMember(o, ks[0]));
      TidyAppend("{" + PrintMember(o, ks[0]), PrintMembers(o, ks[1..]));
    }
  }

  // A printed object begins and ends with its braces.
  lemma {:induction false} PrintedEnds(j: Json)
    requires j.Obj?
    ensures var s := Print(j); s != [] && s[0] == '{' && s[|s| - 1] == '}'
  {
    var ks := SortedKeys(j.fields.Keys);
    assert forall k :: k in ks <==> k in Elements(ks);
    if ks != [] { MembersEnd(j, ks[1..]); }
  }

  lemma {:induction false} MembersEnd(o: Json, ks: seq<string>)
    requires o.Obj? && forall k | k in ks :: k in o.fields
    ensures var s := PrintMembers(o, ks); s != [] && s[|s| - 1] == '}'
  {
    hide PrintMember;
    if ks != [] { MembersEnd(o, ks[1..]); }
  }

  // ----- reading from the middle of a literal -----

  // A reader that starts inside a literal of a text and takes itself to be outside one has inside and
  // outside swapped, until it meets a backslash where it thinks there is none.
  ghost predicate Swapped(p: Pen, q: Pen) {
    q == Broken || (p == Inside && q == Outside) || (p == Outside && q == Inside)
  }

  lemma {:induction false} StaysSwapped(s: string)
    requires Draw(Inside, s) != Broken
    ensures Swapped(Draw(Inside, s), Draw(Outside, s)) || Draw(Outside, s) == Broken
  {
    if s != [] { StaysSwapped(s[..|s| - 1]); }
  }

  // What stands behind a separator of a tidy text is refused on its own.
  lemma {:induction false} TailOpen(s: string, i: nat)
    requires Tidy(s) && i < |s| && IsSeparator(s[i])
    ensures Draw(Outside, s[i + 1..]) != Outside
  {
    assert s[..i + 1][..i] == s[..i];
    assert Draw(Outside, s[..i + 1]) == Move(Inside, s[i]) == Inside;
    assert s == s[..i + 1] + s[i + 1..];
    DrawAppend(Outside, s[..i + 1], s[i + 1..]);
    StaysSwapped(s[i + 1..]);
  }

  // ----- stripping keeps an open literal open -----

  lemma {:induction false} StripRightOpen(s: string)
    requires Draw(Outside, s) != Outside
    ensures Draw(Outside, StripRight(s)) != Outside
  {
    if s != [] && IsSpace(s[|s| - 1]) { StripRightOpen(s[..|s| - 1]); }
  }

  lemma {:induction false} StripLeftOpen(s: string)
    requires Draw(Outside, s) != Outside
    ensures Draw(Outside, StripLeft(s)) != Outside
  {
    if s != [] && IsSpace(s[0]) {
      assert s == [s[0]] + s[1..];
      DrawAppend(Outside, [s[0]], s[1..]);
      DrawOne(Outside, s[0]);
      StripLeftOpen(s[1..]);
    }
  }

  lemma {:induction false} StripOpen(s: string)
    requires Draw(Outside, s) != Outside
    ensures Draw(Outside, Strip(s)) != Outside
  {
    StripLeftOpen(s);
    StripRightOpen(StripLeft(s));
  }
}
