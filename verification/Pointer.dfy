// core/B_learning/approval.py: JSON Pointers (sections 3 and 4 of RFC 6901) as the code reads them.

module Pointer {
  import opened Basics
  import opened Text

  // _unescape: "~1" first, then "~0"
  function Unescape(token: string): string {
    Replace(Replace(token, "~1", "/"), "~0", "~")
  }

  // _split_pointer; Err is the ValueError
  function SplitPointer(path: string): (r: Result<seq<string>>)
  {
    if path == "" || path == "/" then Ok([])
    else if path[0] != '/' then Err
    else Ok(UnescapeAll(DropEmpty(SplitSlash(StripSlashLeft(path)))))
  }

  function UnescapeAll(tokens: seq<string>): (r: seq<string>)
    ensures |r| == |tokens|
    ensures forall i | 0 <= i < |r| :: r[i] == Unescape(tokens[i])
  {
    seq(|tokens|, i requires 0 <= i < |tokens| => Unescape(tokens[i]))
  }

  // ----- the writer's side, section 3 of RFC 6901 -----

  function EscapeTokenChar(c: char): string {
    if c == '~' then "~0" else if c == '/' then "~1" else [c]
  }

  function EscapeToken(token: string): (r: string)
    ensures '/' !in r
    ensures token != [] ==> r != []
  {
    if token == [] then [] else EscapeTokenChar(token[0]) + EscapeToken(token[1..])
  }

  function JoinPointer(tokens: seq<string>): string {
    if tokens == [] then [] else "/" + EscapeToken(tokens[0]) + JoinPointer(tokens[1..])
  }

  // Only the tildes escaped: what is left after the first replacement.
  function EscapeTildes(token: string): string {
    if token == [] then []
    else (if token[0] == '~' then "~0" else [token[0]]) + EscapeTildes(token[1..])
  }

  lemma {:induction false} FirstReplacement(token: string)
    ensures Replace(EscapeToken(token), "~1", "/") == EscapeTildes(token)
  {
    if token != [] {
      FirstReplacement(token[1..]);
      var rest := EscapeToken(token[1..]);
      if token[0] == '~' {
        assert "~0" + rest == "~" + ("0" + rest);
        ReplaceSkip('~', "0" + rest, '~', '1', "/");
        ReplaceSkip('0', rest, '~', '1', "/");
      } else if token[0] == '/' {
        ReplaceHit(rest, '~', '1', "/");
      } else {
        ReplaceSkip(token[0], rest, '~', '1', "/");
      }
    }
  }

  lemma {:induction false} SecondReplacement(token: string)
    ensures Replace(EscapeTildes(token), "~0", "~") == token
  {
    if token != [] {
      SecondReplacement(token[1..]);
      var rest := EscapeTildes(token[1..]);
      if token[0] == '~' {
        ReplaceHit(rest, '~', '0', "~");
      } else {
        ReplaceSkip(token[0], rest, '~', '0', "~");
      }
      assert token == [token[0]] + token[1..];
    }
  }

  lemma UnescapeEscape(token: string)
    ensures Unescape(EscapeToken(token)) == token
  {
    FirstReplacement(token);
    SecondReplacement(token);
  }

  // The other order of replacements would not do: of any token that starts with "~1" it would make
  // one that starts with a slash.
  lemma {:induction false} UnescapeOrderMatters(rest: string)
    ensures var e := EscapeToken("~1" + rest);
            Unescape(e) == "~1" + rest && "/" <= Replace(Replace(e, "~0", "~"), "~1", "/")
  {
    var t := "~1" + rest;
    UnescapeEscape(t);
    assert t[0] == '~' && t[1..] == "1" + rest && (t[1..])[0] == '1' && t[1..][1..] == rest;
    var r := EscapeToken(rest);
    assert EscapeToken(t[1..]) == "1" + r;
    assert EscapeToken(t) == ['~', '0'] + ("1" + r);
    ReplaceHit("1" + r, '~', '0', "~");
    ReplaceSkip('1', r, '~', '0', "~");
    var s := Replace(r, "~0", "~");
    assert "~" + (['1'] + s) == ['~', '1'] + s;
    ReplaceHit(s, '~', '1', "/");
  }

  function EscapeAll(tokens: seq<string>): (r: seq<string>)
    ensures |r| == |tokens|
    ensures forall i | 0 <= i < |r| :: r[i] == EscapeToken(tokens[i])
  {
    seq(|tokens|, i requires 0 <= i < |tokens| => EscapeToken(tokens[i]))
  }

  lemma {:induction false} SplitJoin(tokens: seq<string>)
    ensures SplitSlash(JoinPointer(tokens)) == [[]] + EscapeAll(tokens)
  {
    if tokens == [] {
      assert EscapeAll(tokens) == [];
    } else {
      var e, rest := EscapeToken(tokens[0]), JoinPointer(tokens[1..]);
      var es := EscapeAll(tokens[1..]);
      SplitJoin(tokens[1..]);
      SplitPiece(e, rest);
      assert ([[]] + es)[0] == [] && ([[]] + es)[1..] == es;
      assert e + [] == e;
      assert "/" + e + rest == ['/'] + (e + rest);
      assert EscapeAll(tokens) == [e] + es;
    }
  }

  lemma {:induction false} UnescapeDropEmpty(tokens: seq<string>)
    ensures UnescapeAll(DropEmpty(EscapeAll(tokens))) == DropEmpty(tokens)
  {
    if tokens != [] {
      UnescapeDropEmpty(tokens[1..]);
      UnescapeEscape(tokens[0]);
      var es := EscapeAll(tokens);
      assert es[1..] == EscapeAll(tokens[1..]);
      var tail := DropEmpty(es[1..]);
      if tokens[0] != [] {
        assert UnescapeAll([es[0]] + tail) == [tokens[0]] + UnescapeAll(tail);
      } else {
        assert es[0] == [];
      }
    }
  }

  // Splitting the joined escapes of any tokens gives those tokens back, the empty ones dropped.
  lemma SplitJoinPointer(tokens: seq<string>)
    ensures SplitPointer(JoinPointer(tokens)) == Ok(DropEmpty(tokens))
  {
    var path := JoinPointer(tokens);
    SplitJoin(tokens);
    DropStripLeft(path);
    UnescapeDropEmpty(tokens);
    var es := EscapeAll(tokens);
    assert ([[]] + es)[1..] == es;
    assert DropEmpty([[]] + es) == DropEmpty(es);
    if path == "" || path == "/" {
      assert DropEmpty(SplitSlash(path)) == [] by {
        assert path == "/" ==> SplitSlash(path) == [[], []];
      }
    }
  }

  // The round trip holds exactly when no token is empty.
  lemma {:induction false} PointerRoundTrip(tokens: seq<string>)
    ensures SplitPointer(JoinPointer(tokens)) == Ok(tokens)
            <==> forall i | 0 <= i < |tokens| :: tokens[i] != []
  {
    SplitJoinPointer(tokens);
    if forall i | 0 <= i < |tokens| :: tokens[i] != [] { DropNothing(tokens); }
  }

  // ----- what a split pointer looks like -----

  lemma {:induction false} ReplaceNonEmpty(s: string, pattern: string, sub: string)
    requires pattern != [] && sub != [] && s != []
    ensures Replace(s, pattern, sub) != []
  {
  }

  lemma SplitTokensNonEmpty(path: string)
    requires SplitPointer(path).Ok?
    ensures forall i | 0 <= i < |SplitPointer(path).value| :: SplitPointer(path).value[i] != []
  {
    var raw := DropEmpty(SplitSlash(StripSlashLeft(path)));
    forall i | 0 <= i < |raw| ensures Unescape(raw[i]) != [] {
      ReplaceNonEmpty(raw[i], "~1", "/");
      ReplaceNonEmpty(Replace(raw[i], "~1", "/"), "~0", "~");
    }
  }

  // Exactly the empty path and the paths from a slash on are read.
  lemma PathExact(path: string)
    ensures SplitPointer(path).Ok? <==> path == "" || StartsWith(path, "/")
  {
  }

  lemma JoinNotRoot(tokens: seq<string>)
    requires tokens != [] && tokens[0] != []
    ensures JoinPointer(tokens) != "" && JoinPointer(tokens) != "/"
  {
  }
}
