// tools/override/override_append.py and tools/audit/verify_override_chain.py over the text of the log.

module OverrideFiles {
  import opened Basics
  import opened JsonModel
  import opened Text
  import opened LogLines
  import opened StringLiterals
  import opened OverrideSchema
  import opened OverrideChain
  import opened OverrideOrder

  type Loads = string -> Option<Json>

  // What is used of json.loads: it reads back printed objects, and it refuses a text that ends inside a
  // string literal or has a backslash outside one.
  ghost predicate ReadsObjects(loads: Loads) {
    && (forall fields :: loads(Print(Obj(fields))) == Some(Obj(fields)))
    && (forall s | loads(s).Some? :: Draw(Outside, s) == Outside)
  }

  // ----- reading -----

  predicate Blank(line: string) {
    Strip(line) == ""
  }

  function Nonblank(lines: seq<string>): seq<string> {
    if lines == [] then [] else
    var n := |lines| - 1;
    Nonblank(lines[..n]) + (if Blank(lines[n]) then [] else [lines[n]])
  }

  function ParseAll(lines: seq<string>, loads: Loads): Option<seq<Json>> {
    if lines == [] then Some([]) else
    var front, last := ParseAll(lines[..|lines| - 1], loads), loads(lines[|lines| - 1]);
    if front.Some? && last.Some? then Some(front.value + [last.value]) else None
  }

  function ReadLog(text: string, loads: Loads): Option<seq<Json>> {
    ParseAll(Nonblank(SplitLines(text)), loads)
  }

  ghost predicate Verifies(text: string, loads: Loads, w: World) {
    ReadLog(text, loads).Some? && Sound(ReadLog(text, loads).value, w)
  }

  lemma {:induction false} OneUnparsed(lines: seq<string>, i: nat, loads: Loads)
    requires i < |lines| && loads(lines[i]).None?
    ensures ParseAll(lines, loads).None?
  {
    if i < |lines| - 1 { OneUnparsed(lines[..|lines| - 1], i, loads); }
  }

  // verify_chain on a file; Err is a SystemExit
  method VerifyFile(text: string, loads: Loads, w: World) returns (r: Result<Report>)
    ensures r.Ok? <==> Verifies(text, loads, w)
    ensures r.Ok? ==> var log := ReadLog(text, loads).value;
                      r.value == Report(|log|, Decoded(log, w)[0].hash, Decoded(log, w)[|log| - 1].hash)
  {
    hide SplitLines, Blank, Sound;
    var raw := SplitLines(text);
    var lines: seq<string> := [];
    for i := 0 to |raw|
      invariant lines == Nonblank(raw[..i])
    {
      assert raw[..i + 1][..i] == raw[..i];
      if !Blank(raw[i]) {
        lines := lines + [raw[i]];
      }
    }
    assert raw[..|raw|] == raw;
    var log: seq<Json> := [];
    for i := 0 to |lines|
      invariant ParseAll(lines[..i], loads) == Some(log)
    {
      var j := loads(lines[i]);
      assert lines[..i + 1][..i] == lines[..i];
      if j.None? {
        OneUnparsed(lines, i, loads);
        return Err;
      }
      log := log + [j.value];
    }
    assert lines[..|lines|] == lines;
    r := VerifyChain(log, w);
  }

  // ----- appending -----

  // _last_nonempty_line
  function LastLine(lines: seq<string>): Option<string> {
    if lines == [] then None
    else if !Blank(lines[|lines| - 1]) then Some(lines[|lines| - 1])
    else LastLine(lines[..|lines| - 1])
  }

  // A line of white space does not count, any other counts in its place.
  lemma {:induction false} NonblankExact(a: seq<string>, line: string, b: seq<string>)
    ensures Nonblank(a + [line] + b) == Nonblank(a) + (if Strip(line) == "" then [] else [line]) + Nonblank(b)
    ensures Nonblank([]) == []
  {
    hide Strip;
    NonblankAppend(a + [line], b);
    assert (a + [line])[..|a|] == a;
  }

  // A file reads back as a log if and only if each line that counts parses to the event in its place.
  lemma {:induction false} ReadLogExact(text: string, log: seq<Json>, loads: Loads)
    ensures var lines := Nonblank(SplitLines(text));
            ReadLog(text, loads) == Some(log) <==> |log| == |lines| && forall i | 0 <= i < |lines| :: loads(lines[i]) == Some(log[i])
  {
    hide SplitLines, Nonblank;
    ParseAllExact(Nonblank(SplitLines(text)), log, loads);
  }

  lemma {:induction false} ParseAllExact(lines: seq<string>, log: seq<Json>, loads: Loads)
    ensures ParseAll(lines, loads) == Some(log) <==> |log| == |lines| && forall i | 0 <= i < |lines| :: loads(lines[i]) == Some(log[i])
  {
    if lines != [] {
      var n := |lines| - 1;
      if |log| == |lines| {
        ParseAllExact(lines[..n], log[..n], loads);
        assert log == log[..n] + [log[n]];
      } else if ParseAll(lines[..n], loads).Some? {
        ParseAllExact(lines[..n], ParseAll(lines[..n], loads).value, loads);
      }
    }
  }

  // The line an append follows is the last one that counts.
  lemma {:induction false} LastLineExact(lines: seq<string>)
    ensures var some := Nonblank(lines); LastLine(lines) == if some == [] then None else Some(some[|some| - 1])
  {
    hide Blank;
    if lines != [] { LastLineExact(lines[..|lines| - 1]); }
  }

  // The previous hash a new event gets; None is a SystemExit.
  function PrevOf(text: string, loads: Loads): Option<Json> {
    match LastLine(SplitLines(text))
    case None => Some(Str(GENESIS))
    case Some(line) =>
      match loads(line)
      case None => None
      case Some(j) =>
        if j.Obj? && Get(j.fields, "chain").Obj? && "hash" in Get(j.fields, "chain").fields
        then Some(Get(j.fields, "chain").fields["hash"]) else None
  }

  // The event with the fields that append_event sets, the chain as at the start of a log.
  function Template(ev: map<string, Json>): Json {
    Obj((if "auth" in ev then ev else ev["auth" := Null])
        ["chain" := Obj(map["prev_hash" := Str(GENESIS), "hash" := Str(Zeros())])])
  }

  function SealedAfter(t: Json, prev: string, w: World): Json {
    WithChain(t, prev, SealAfter(t, prev, w))
  }

  function AppendTo(text: string, ev: map<string, Json>, loads: Loads, clock: Clock, digest: string -> string): Option<string> {
    var prev := PrevOf(text, loads);
    if prev.None? || !prev.value.Str? then None else
    var sealed := SealedAfter(Template(ev), prev.value.s, OverrideWorld(clock, digest));
    if Decode(sealed, clock).Some? then Some(text + (Print(sealed) + "\n")) else None
  }

  // What an append writes for an event: its own keys, no signature if it has none, and the chain with the
  // previous hash and the hash of that and of the event as printed without its own.
  lemma AppendedEvent(ev: map<string, Json>, prev: string, key: string, clock: Clock, digest: string -> string)
    ensures var e := SealedAfter(Template(ev), prev, OverrideWorld(clock, digest));
            && e.Obj? && "auth" in e.fields && (key != "chain" ==> Get(e.fields, key) == Get(ev, key))
            && var open := Obj(e.fields["chain" := Obj(map["prev_hash" := Str(prev)])]);
               Get(e.fields, "chain") == Obj(map["prev_hash" := Str(prev), "hash" := Str(digest(prev + ":" + digest(Print(open))))])
  {
    hide Print, Decode, WithChain, Payload;
    var w, t := OverrideWorld(clock, digest), Template(ev);
    TemplateKeys(ev, key);
    hide Template;
    ChainSet(t.fields, prev, "");
    ChainSet(t.fields, prev, SealAfter(t, prev, w));
    ChainOpen(t.fields, prev);
    var e := SealedAfter(t, prev, w);
    assert e.fields["chain" := Obj(map["prev_hash" := Str(prev)])] == t.fields["chain" := Obj(map["prev_hash" := Str(prev)])];
  }

  lemma TemplateKeys(ev: map<string, Json>, key: string)
    ensures var t := Template(ev);
            && t.Obj? && "auth" in t.fields && (key != "chain" ==> Get(t.fields, key) == Get(ev, key))
            && Get(t.fields, "chain") == Obj(map["prev_hash" := Str(GENESIS), "hash" := Str(Zeros())])
  {
    assert |"auth"| == 4 && |"chain"| == 5;
  }

  lemma ChainSet(f: map<string, Json>, prev: string, hash: string)
    requires Get(f, "chain") == Obj(map["prev_hash" := Str(GENESIS), "hash" := Str(Zeros())])
    ensures WithChain(Obj(f), prev, hash) == Obj(f["chain" := Obj(map["prev_hash" := Str(prev), "hash" := Str(hash)])])
  {
    assert |"prev_hash"| == 9 && |"hash"| == 4;
    assert map["prev_hash" := Str(GENESIS), "hash" := Str(Zeros())]["prev_hash" := Str(prev)]["hash" := Str(hash)]
           == map["prev_hash" := Str(prev), "hash" := Str(hash)];
  }

  lemma ChainOpen(f: map<string, Json>, prev: string)
    ensures var closed := Obj(f["chain" := Obj(map["prev_hash" := Str(prev), "hash" := Str("")])]);
            Payload(closed) == Obj(f["chain" := Obj(map["prev_hash" := Str(prev)])])
  {
    assert |"prev_hash"| == 9 && |"hash"| == 4;
    assert map["prev_hash" := Str(prev), "hash" := Str("")] - {"hash"} == map["prev_hash" := Str(prev)];
    assert f["chain" := Obj(map["prev_hash" := Str(prev), "hash" := Str("")])]["chain" := Obj(map["prev_hash" := Str(prev)])]
           == f["chain" := Obj(map["prev_hash" := Str(prev)])];
  }

  class OverrideLog {
    var text: string
    const loads: Loads
    const clock: Clock
    const digest: string -> string

    constructor (loads: Loads, clock: Clock, digest: string -> string)
      ensures text == "" && this.loads == loads && this.clock == clock && this.digest == digest
    {
      this.loads, this.clock, this.digest := loads, clock, digest;
      text := "";
    }

    method LastNonblank(lines: seq<string>) returns (r: Option<string>)
      ensures r == LastLine(lines)
    {
      hide Blank;
      assert lines[..|lines|] == lines;
      for i := |lines| downto 0
        invariant LastLine(lines) == LastLine(lines[..i])
      {
        assert lines[..i + 1][..i] == lines[..i];
        if !Blank(lines[i]) {
          return Some(lines[i]);
        }
      }
      return None;
    }

    // append_event; false is a SystemExit
    method Append(ev: map<string, Json>) returns (ok: bool)
      modifies this`text
      ensures ok <==> AppendTo(old(text), ev, loads, clock, digest).Some?
      ensures text == if ok then AppendTo(old(text), ev, loads, clock, digest).value else old(text)
    {
      hide SplitLines, Blank, Decode, LastLine, Print;
      var last := LastNonblank(SplitLines(text));
      var prev: Json := Str(GENESIS);
      if last.Some? {
        var j := loads(last.value);
        if j.None? {
          return false;
        }
        if !(j.value.Obj? && Get(j.value.fields, "chain").Obj? && "hash" in Get(j.value.fields, "chain").fields) {
          return false;
        }
        prev := Get(j.value.fields, "chain").fields["hash"];
      }
      if !prev.Str? {
        return false;
      }
      var sealed := SealedAfter(Template(ev), prev.s, OverrideWorld(clock, digest));
      if Decode(sealed, clock).None? {
        return false;
      }
      text := text + (Print(sealed) + "\n");
      return true;
    }
  }

  // ----- logs without separators -----

  ghost predicate PlainLog(log: seq<Json>) {
    forall i | 0 <= i < |log| :: log[i].Obj? && !HoldsSeparator(log[i])
  }

  function LogText(log: seq<Json>): string {
    FileText(PrintAll(log))
  }

  lemma {:induction false} EndsNotBlank(s: string)
    requires s != [] && s[|s| - 1] == '}'
    ensures !Blank(s)
  {
    StripLeftKeepsEnd(s);
  }

  lemma {:induction false} StripLeftKeepsEnd(s: string)
    requires s != [] && s[|s| - 1] == '}'
    ensures var t := StripLeft(s); t != [] && t[|t| - 1] == '}'
  {
    if IsSpace(s[0]) { StripLeftKeepsEnd(s[1..]); }
  }

  lemma StartsNotBlank(s: string)
    requires s != [] && s[0] == '{'
    ensures !Blank(s)
  {
    StripRightKeepsStart(s);
  }

  lemma {:induction false} StripRightKeepsStart(s: string)
    requires s != [] && s[0] == '{'
    ensures StripRight(s) != []
  {
    if IsSpace(s[|s| - 1]) { StripRightKeepsStart(s[..|s| - 1]); }
  }

  lemma {:induction false} AllNonblank(lines: seq<string>)
    requires forall i | 0 <= i < |lines| :: !Blank(lines[i])
    ensures Nonblank(lines) == lines
  {
    hide Blank;
    if lines != [] { AllNonblank(lines[..|lines| - 1]); }
  }

  lemma {:induction false} PrintedParse(log: seq<Json>, loads: Loads)
    requires ReadsObjects(loads) && forall i | 0 <= i < |log| :: log[i].Obj?
    ensures ParseAll(PrintAll(log), loads) == Some(log)
  {
    hide Print;
    if log != [] {
      var n := |log| - 1;
      PrintedParse(log[..n], loads);
      assert PrintAll(log)[..n] == PrintAll(log[..n]);
      assert log[..n] + [log[n]] == log;
      assert log[n] == Obj(log[n].fields);
    }
  }

  // A log without separators reads back.
  lemma {:induction false} PlainLogReads(log: seq<Json>, loads: Loads)
    requires ReadsObjects(loads) && PlainLog(log)
    ensures SplitLines(LogText(log)) == PrintAll(log) && ReadLog(LogText(log), loads) == Some(log)
  {
    hide ReadsObjects, Print, HoldsSeparator, SplitLines, Blank;
    LogReadsBack(log);
    var lines := PrintAll(log);
    forall i | 0 <= i < |lines| ensures !Blank(lines[i]) {
      PrintedEnds(log[i]);
      EndsNotBlank(lines[i]);
    }
    AllNonblank(lines);
    PrintedParse(log, loads);
  }

  // The next event follows the last one.
  lemma PlainLogPrev(log: seq<Json>, loads: Loads)
    requires ReadsObjects(loads) && PlainLog(log)
    ensures log == [] ==> PrevOf(LogText(log), loads) == Some(Str(GENESIS))
    ensures log != [] ==> var last := log[|log| - 1];
              Get(last.fields, "chain").Obj? && "hash" in Get(last.fields, "chain").fields
              ==> PrevOf(LogText(log), loads) == Some(Get(last.fields, "chain").fields["hash"])
  {
    hide Print, HoldsSeparator, SplitLines, Blank;
    PlainLogReads(log, loads);
    if log != [] {
      var last := log[|log| - 1];
      PrintedEnds(last);
      EndsNotBlank(Print(last));
      assert last == Obj(last.fields);
    }
  }

  // ----- a log whose last event holds a separator -----

  // The pieces of a line with separators: the first ends inside a literal, the last begins in one.
  lemma {:induction false} Pieces(line: string)
    requires NoControl(line) && Separators(line) > 0
    ensures var pieces, i := SplitLines(line + "\n"), LineEnd(line);
            && i < |line| && IsSeparator(line[i]) && |pieces| > 0 && pieces[0] == line[..i]
    ensures exists k: nat :: IsLastPiece(line, k)
  {
    hide SplitLines, LineEnd, Separators;
    var i := LineEnd(line);
    assert "\n" == "\n" + "";
    if i == |line| { CutPlain(line, ""); }
    CutAtSeparator(line, "", i);
    EndIsSeparator(line, i);
    var rest := line[i + 1..];
    RestNoControl(line, i + 1);
    if Separators(rest) == 0 {
      CutLine(rest, "");
      NoLines();
      assert IsLastPiece(line, i);
    } else {
      Pieces(rest);
      var k: nat :| IsLastPiece(rest, k);
      assert line[i + 1 + k] == rest[k] && line[i + 1 + k + 1..] == rest[k + 1..];
      assert IsLastPiece(line, i + 1 + k);
    }
  }

  ghost predicate IsLastPiece(line: string, k: nat) {
    && k < |line| && IsSeparator(line[k])
    && var pieces := SplitLines(line + "\n"); pieces != [] && pieces[|pieces| - 1] == line[k + 1..]
  }

  lemma NoLines()
    ensures SplitLines("") == []
  {
  }

  lemma EndIsSeparator(line: string, i: nat)
    requires NoControl(line) && i == LineEnd(line) < |line|
    ensures IsSeparator(line[i])
  {
  }

  lemma RestNoControl(line: string, i: nat)
    requires NoControl(line) && i <= |line|
    ensures NoControl(line[i..])
  {
  }

  lemma {:induction false} NonblankAppend(a: seq<string>, b: seq<string>)
    ensures Nonblank(a + b) == Nonblank(a) + Nonblank(b)
  {
    hide Blank;
    if b == [] {
      assert a + b == a;
    } else {
      var n := |b| - 1;
      NonblankAppend(a, b[..n]);
      assert (a + b)[..|a + b| - 1] == a + b[..n];
    }
  }

  lemma NonblankFirst(pieces: seq<string>)
    requires pieces != [] && !Blank(pieces[0])
    ensures Nonblank(pieces) != [] && Nonblank(pieces)[0] == pieces[0]
  {
    hide Blank;
    assert pieces == [pieces[0]] + pieces[1..];
    assert [pieces[0]][..0] == [];
    NonblankAppend([pieces[0]], pieces[1..]);
  }

  // Neither piece can be read.
  lemma PiecesUnread(j: Json, loads: Loads)
    requires ReadsObjects(loads) && j.Obj? && HoldsSeparator(j)
    ensures var pieces := SplitLines(Print(j) + "\n");
            && pieces != [] && !Blank(pieces[0]) && loads(pieces[0]).None?
            && !Blank(pieces[|pieces| - 1]) && loads(pieces[|pieces| - 1]).None?
  {
    hide Print, HoldsSeparator, SplitLines, Blank, Draw;
    var line := Print(j);
    PrintShows(j);
    ValueTidy(j);
    PrintedEnds(j);
    Pieces(line);
    var i, pieces := LineEnd(line), SplitLines(line + "\n");
    StartsNotBlank(pieces[0]);
    assert Draw(Outside, line[..i]) == Inside;
    var k: nat :| IsLastPiece(line, k);
    EndsNotBlank(line[k + 1..]);
    TailOpen(line, k);
  }

  lemma LogTextAppend(log: seq<Json>, j: Json)
    ensures LogText(log + [j]) == LogText(log) + (Print(j) + "\n")
  {
    hide Print;
    assert PrintAll(log + [j]) == PrintAll(log) + [Print(j)];
    FileTextAppend(PrintAll(log), [Print(j)]);
    assert [Print(j)][1..] == [];
    assert FileText([Print(j)]) == Print(j) + ("\n" + FileText([]));
  }

  // Once the last event holds a separator, the verifier and the next append both fail.
  lemma {:induction false} BadLogUnread(log: seq<Json>, j: Json, loads: Loads)
    requires ReadsObjects(loads) && PlainLog(log) && j.Obj? && HoldsSeparator(j)
    ensures ReadLog(LogText(log + [j]), loads).None? && PrevOf(LogText(log + [j]), loads).None?
  {
    hide ReadsObjects, Print, HoldsSeparator, SplitLines, Blank, Nonblank;
    var lines, pieces := PrintAll(log), SplitLines(Print(j) + "\n");
    forall i | 0 <= i < |lines| ensures NoControl(lines[i]) && Separators(lines[i]) == 0 { PrintShows(log[i]); }
    LogTextAppend(log, j);
    SplitPlainLines(lines, Print(j) + "\n");
    PiecesUnread(j, loads);
    var all := lines + pieces;
    assert all[|all| - 1] == pieces[|pieces| - 1];
    NonblankAppend(lines, pieces);
    NonblankFirst(pieces);
    var good := Nonblank(lines);
    assert Nonblank(all)[|good|] == pieces[0];
    OneUnparsed(Nonblank(all), |good|, loads);
  }

  // ----- one more event -----

  // An event with the chain as at the start of a log.
  ghost predicate IsTemplate(t: Json) {
    t.Obj? && "chain" in t.fields && t.fields["chain"] == Obj(map["prev_hash" := Str(GENESIS), "hash" := Str(Zeros())])
  }

  // The hash of the last event.
  function LastSeal(ts: seq<Json>, prev: string, w: World): string {
    if ts == [] then prev else LastSeal(ts[1..], SealAfter(ts[0], prev, w), w)
  }

  lemma {:induction false} ResealedAppend(ts: seq<Json>, t: Json, prev: string, w: World)
    ensures Resealed(ts + [t], prev, w) == Resealed(ts, prev, w) + [SealedAfter(t, LastSeal(ts, prev, w), w)]
  {
    hide SealAfter, WithChain;
    if ts == [] {
      assert [] + [t] == [t] && [t][1..] == [];
    } else {
      assert (ts + [t])[1..] == ts[1..] + [t];
      ResealedAppend(ts[1..], t, SealAfter(ts[0], prev, w), w);
    }
  }

  lemma {:induction false} LastSealFormat(ts: seq<Json>, prev: string, w: World)
    requires HexDigest(w.digest) && (prev == GENESIS || IsHex64(Str(prev)))
    ensures LastSeal(ts, prev, w) == GENESIS || IsHex64(Str(LastSeal(ts, prev, w)))
    ensures ts == [] ==> LastSeal(ts, prev, w) == prev
  {
    hide IsHex64, WithChain;
    if ts != [] { LastSealFormat(ts[1..], SealAfter(ts[0], prev, w), w); }
  }

  lemma SealedShape(t: Json, prev: string, w: World)
    requires IsTemplate(t)
    ensures var sealed := SealedAfter(t, prev, w);
            && sealed.Obj? && Get(sealed.fields, "chain").Obj? && "hash" in Get(sealed.fields, "chain").fields
            && Get(sealed.fields, "chain").fields["hash"] == Str(SealAfter(t, prev, w))
  {
    hide SealAfter;
  }

  // The last event of a sealed log, and its hash.
  lemma {:induction false} LastOfSealed(ts: seq<Json>, prev: string, w: World)
    requires ts != [] && forall t | t in ts :: IsTemplate(t)
    ensures var log := Resealed(ts, prev, w);
            && |log| == |ts| && var last := log[|log| - 1];
               && last.Obj? && Get(last.fields, "chain").Obj? && "hash" in Get(last.fields, "chain").fields
               && Get(last.fields, "chain").fields["hash"] == Str(LastSeal(ts, prev, w))
  {
    hide SealAfter, WithChain, IsTemplate;
    if |ts| == 1 {
      assert ts[1..] == [];
      SealedShape(ts[0], prev, w);
    } else {
      LastOfSealed(ts[1..], SealAfter(ts[0], prev, w), w);
    }
  }

  lemma {:induction false} HexIsPlain(s: string)
    requires forall i | 0 <= i < |s| :: IsHexDigit(s[i])
    ensures Separators(s) == 0
  {
    AsciiShows(s);
  }

  lemma ChainIsPlain(prev: string, hash: string)
    requires LinkFormat(prev, hash)
    ensures !HoldsSeparator(Obj(map["prev_hash" := Str(prev), "hash" := Str(hash)]))
  {
    hide Separators;
    AsciiShows("prev_hash");
    AsciiShows("hash");
    if prev == GENESIS { AsciiShows(prev); } else { HexIsPlain(prev); }
    HexIsPlain(hash);
  }

  // Sealing adds no separator.
  lemma SealedSeparators(t: Json, prev: string, hash: string)
    requires IsTemplate(t) && LinkFormat(prev, hash)
    ensures HoldsSeparator(WithChain(t, prev, hash)) <==> HoldsSeparator(t)
  {
    hide Separators, IsHex64, Zeros;
    var f, g := t.fields, WithChain(t, prev, hash).fields;
    ZerosAreHex();
    ChainIsPlain(GENESIS, Zeros());
    ChainIsPlain(prev, hash);
    assert map["prev_hash" := Str(GENESIS), "hash" := Str(Zeros())]["prev_hash" := Str(prev)]["hash" := Str(hash)]
        == map["prev_hash" := Str(prev), "hash" := Str(hash)];
    assert f.Keys == g.Keys;
    assert forall k | k in f && k != "chain" :: f[k] == g[k];
  }

  // An event is accepted behind any hash exactly when it is at the start.
  lemma SealedDecodes(t: Json, prev: string, hash: string, clock: Clock)
    requires IsTemplate(t) && LinkFormat(prev, hash)
    ensures Decode(WithChain(t, prev, hash), clock).Some? <==> Decode(t, clock).Some?
  {
    hide Decode, Zeros, IsHex64;
    var back := WithChain(t, prev, hash);
    if Decode(t, clock).Some? { DecodeWithChain(t, prev, hash, clock); }
    if Decode(back, clock).Some? {
      ZerosAreHex();
      DecodeWithChain(back, GENESIS, Zeros(), clock);
      BackToTemplate(t, prev, hash);
    }
  }

  lemma BackToTemplate(t: Json, prev: string, hash: string)
    requires IsTemplate(t)
    ensures WithChain(WithChain(t, prev, hash), GENESIS, Zeros()) == t
  {
    hide Zeros;
    var chain := t.fields["chain"].fields;
    assert chain["prev_hash" := Str(prev)]["hash" := Str(hash)]["prev_hash" := Str(GENESIS)]["hash" := Str(Zeros())] == chain;
    assert WithChain(WithChain(t, prev, hash), GENESIS, Zeros()).fields == t.fields;
  }

  lemma TemplateIs(ev: map<string, Json>)
    ensures IsTemplate(Template(ev))
  {
  }

  // The log of the events, linked in the order given.
  function SealedLog(ts: seq<Json>, clock: Clock, digest: string -> string): seq<Json> {
    Resealed(ts, GENESIS, OverrideWorld(clock, digest))
  }

  predicate SomeSplits(ts: seq<Json>) {
    exists i :: 0 <= i < |ts| && HoldsSeparator(ts[i])
  }

  lemma {:induction false} SealedPlain(ts: seq<Json>, prev: string, w: World)
    requires HexDigest(w.digest) && (prev == GENESIS || IsHex64(Str(prev)))
    requires forall t | t in ts :: IsTemplate(t)
    requires !SomeSplits(ts)
    ensures PlainLog(Resealed(ts, prev, w))
  {
    hide HoldsSeparator, IsHex64, IsTemplate, SealAfter;
    if ts != [] {
      var hash := SealAfter(ts[0], prev, w);
      SealIsHex(ts[0], prev, w);
      assert forall i | 0 <= i < |ts[1..]| :: ts[1..][i] == ts[i + 1];
      SealedPlain(ts[1..], hash, w);
      SealedSeparators(ts[0], prev, hash);
      SealedShape(ts[0], prev, w);
    }
  }

  lemma SealIsHex(t: Json, prev: string, w: World)
    requires HexDigest(w.digest)
    ensures IsHex64(Str(SealAfter(t, prev, w)))
  {
    hide IsHex64;
  }

  // One append to a log without separators.
  lemma {:induction false} AppendsSealed(ts: seq<Json>, ev: map<string, Json>, loads: Loads, clock: Clock, digest: string -> string)
    requires ReadsObjects(loads) && HexDigest(digest) && (forall t | t in ts :: IsTemplate(t)) && !SomeSplits(ts)
    ensures AppendTo(LogText(SealedLog(ts, clock, digest)), ev, loads, clock, digest)
            == if Decode(Template(ev), clock).Some? then Some(LogText(SealedLog(ts + [Template(ev)], clock, digest))) else None
  {
    hide ReadsObjects, HexDigest, IsHex64, IsTemplate, SomeSplits, PlainLog, Decode, Template, LogText, PrevOf, WithChain, SealAfter, Print;
    var w, t := OverrideWorld(clock, digest), Template(ev);
    var log, prev := SealedLog(ts, clock, digest), LastSeal(ts, GENESIS, w);
    SealedPlain(ts, GENESIS, w);
    PlainLogPrev(log, loads);
    if ts != [] { LastOfSealed(ts, GENESIS, w); }
    LastSealFormat(ts, GENESIS, w);
    TemplateIs(ev);
    SealIsHex(t, prev, w);
    SealedDecodes(t, prev, SealAfter(t, prev, w), clock);
    ResealedAppend(ts, t, GENESIS, w);
    LogTextAppend(log, SealedAfter(t, prev, w));
  }

  // ----- every run -----

  function RunFile(evs: seq<map<string, Json>>, loads: Loads, clock: Clock, digest: string -> string): string {
    if evs == [] then "" else
    var text := RunFile(evs[..|evs| - 1], loads, clock, digest);
    var next := AppendTo(text, evs[|evs| - 1], loads, clock, digest);
    if next.Some? then next.value else text
  }

  // The events taken: the valid ones, up to the first that holds a separator, that one included.
  function Taken(evs: seq<map<string, Json>>, clock: Clock): seq<Json> {
    if evs == [] then [] else
    var front, t := Taken(evs[..|evs| - 1], clock), Template(evs[|evs| - 1]);
    if SomeSplits(front) || Decode(t, clock).None? then front else front + [t]
  }

  predicate SomeValidSplits(evs: seq<map<string, Json>>, clock: Clock) {
    exists i :: 0 <= i < |evs| && Decode(Template(evs[i]), clock).Some? && HoldsSeparator(Template(evs[i]))
  }

  lemma {:induction false} TakenAre(evs: seq<map<string, Json>>, clock: Clock)
    ensures forall t | t in Taken(evs, clock) :: IsTemplate(t) && Decode(t, clock).Some?
    ensures SomeSplits(Taken(evs, clock)) <==> SomeValidSplits(evs, clock)
  {
    hide Decode, HoldsSeparator, Template, IsTemplate;
    if evs != [] {
      hide SomeSplits, SomeValidSplits;
      var n := |evs| - 1;
      var front, t := Taken(evs[..n], clock), Template(evs[n]);
      TakenAre(evs[..n], clock);
      TemplateIs(evs[n]);
      assert evs == evs[..n] + [evs[n]];
      OneMoreValid(evs[..n], evs[n], clock);
      OneMoreSplits(front, t);
    }
  }

  lemma OneMoreValid(evs: seq<map<string, Json>>, ev: map<string, Json>, clock: Clock)
    ensures SomeValidSplits(evs + [ev], clock)
            <==> SomeValidSplits(evs, clock) || (Decode(Template(ev), clock).Some? && HoldsSeparator(Template(ev)))
  {
    hide HoldsSeparator, Decode, Template;
    if SomeValidSplits(evs, clock) {
      var i :| 0 <= i < |evs| && Decode(Template(evs[i]), clock).Some? && HoldsSeparator(Template(evs[i]));
      assert (evs + [ev])[i] == evs[i];
    }
    assert (evs + [ev])[|evs|] == ev;
  }

  lemma OneMoreSplits(ts: seq<Json>, t: Json)
    ensures SomeSplits(ts + [t]) <==> SomeSplits(ts) || HoldsSeparator(t)
  {
    hide HoldsSeparator;
    if SomeSplits(ts) {
      var i :| 0 <= i < |ts| && HoldsSeparator(ts[i]);
      assert (ts + [t])[i] == ts[i];
    }
    assert (ts + [t])[|ts|] == t;
  }

  // Where a run stands.
  ghost predicate Stands(evs: seq<map<string, Json>>, loads: Loads, clock: Clock, digest: string -> string) {
    var text, log := RunFile(evs, loads, clock, digest), SealedLog(Taken(evs, clock), clock, digest);
    && text == LogText(log)
    && (SomeSplits(Taken(evs, clock)) ==> ReadLog(text, loads).None? && PrevOf(text, loads).None?)
  }

  lemma {:induction false} RunStands(evs: seq<map<string, Json>>, loads: Loads, clock: Clock, digest: string -> string)
    requires ReadsObjects(loads) && HexDigest(digest)
    ensures Stands(evs, loads, clock, digest)
  {
    hide ReadsObjects, HexDigest, SomeSplits, Decode, Template, LogText, PrevOf, ReadLog, SealedLog;
    if evs == [] {
      EmptyStands(loads, clock, digest);
    } else {
      var n := |evs| - 1;
      var front, t := Taken(evs[..n], clock), Template(evs[n]);
      RunStands(evs[..n], loads, clock, digest);
      TakenAre(evs[..n], clock);
      if !SomeSplits(front) {
        AppendsSealed(front, evs[n], loads, clock, digest);
        OneMoreSplits(front, t);
        TemplateIs(evs[n]);
        if HoldsSeparator(t) { SplitUnread(front, t, loads, clock, digest); }
      }
    }
  }

  lemma EmptyStands(loads: Loads, clock: Clock, digest: string -> string)
    ensures Stands([], loads, clock, digest)
  {
    assert Taken([], clock) == [];
    assert SealedLog([], clock, digest) == [];
    assert PrintAll([]) == [];
  }

  lemma SplitUnread(ts: seq<Json>, t: Json, loads: Loads, clock: Clock, digest: string -> string)
    requires ReadsObjects(loads) && HexDigest(digest) && (forall x | x in ts :: IsTemplate(x)) && !SomeSplits(ts)
    requires IsTemplate(t) && HoldsSeparator(t)
    ensures var text := LogText(SealedLog(ts + [t], clock, digest)); ReadLog(text, loads).None? && PrevOf(text, loads).None?
  {
    hide ReadsObjects, HexDigest, IsHex64, SomeSplits, PlainLog, LogText, PrevOf, ReadLog, SealAfter, HoldsSeparator, IsTemplate, WithChain;
    var w := OverrideWorld(clock, digest);
    var prev := LastSeal(ts, GENESIS, w);
    SealedPlain(ts, GENESIS, w);
    LastSealFormat(ts, GENESIS, w);
    SealIsHex(t, prev, w);
    SealedSeparators(t, prev, SealAfter(t, prev, w));
    SealedShape(t, prev, w);
    ResealedAppend(ts, t, GENESIS, w);
    BadLogUnread(SealedLog(ts, clock, digest), SealedAfter(t, prev, w), loads);
  }

  // Every run of appends to an empty log: the file holds exactly the events taken, linked and printed
  // line by line.  The verifier accepts it if and only if no valid event holds U+0085, U+2028 or U+2029
  // and the events taken have distinct ids and references that hold, which appending does not check.
  // Behind the first event with such a character every append is refused; without one, an append is
  // refused exactly for an invalid event.
  lemma {:induction false} EveryRunOfAppends(evs: seq<map<string, Json>>, loads: Loads, clock: Clock, digest: string -> string)
    requires ReadsObjects(loads) && HexDigest(digest)
    ensures var w, text, ts := OverrideWorld(clock, digest), RunFile(evs, loads, clock, digest), Taken(evs, clock);
            && Valid(ts, clock) && text == LogText(SealedLog(ts, clock, digest))
            && (Verifies(text, loads, w) <==> !SomeValidSplits(evs, clock) && Coherent(Events(ts, clock)))
            && (forall ev :: AppendTo(text, ev, loads, clock, digest).Some?
                             <==> !SomeValidSplits(evs, clock) && Decode(Template(ev), clock).Some?)
  {
    hide ReadsObjects, HexDigest, SomeSplits, Decode, Template, LogText, PrevOf, Coherent, Events, Sound, SomeValidSplits, SealedLog, Resealed;
    var w, text, ts := OverrideWorld(clock, digest), RunFile(evs, loads, clock, digest), Taken(evs, clock);
    RunStands(evs, loads, clock, digest);
    TakenAre(evs, clock);
    assert Valid(ts, clock);
    hide Taken, RunFile;
    if SomeSplits(ts) {
      hide ReadLog;
    } else {
      SealedPlainLog(ts, clock, digest);
      PlainLogReads(SealedLog(ts, clock, digest), loads);
      hide ReadLog;
      SealedLogSound(ts, clock, digest);
      forall ev ensures AppendTo(text, ev, loads, clock, digest).Some? <==> Decode(Template(ev), clock).Some? {
        AppendsSealed(ts, ev, loads, clock, digest);
      }
    }
  }

  lemma SealedPlainLog(ts: seq<Json>, clock: Clock, digest: string -> string)
    requires HexDigest(digest) && (forall t | t in ts :: IsTemplate(t)) && !SomeSplits(ts)
    ensures PlainLog(SealedLog(ts, clock, digest))
  {
    hide HexDigest, SomeSplits, PlainLog, IsTemplate;
    SealedPlain(ts, GENESIS, OverrideWorld(clock, digest));
  }

  lemma SealedLogSound(ts: seq<Json>, clock: Clock, digest: string -> string)
    requires Valid(ts, clock) && HexDigest(digest)
    ensures Sound(SealedLog(ts, clock, digest), OverrideWorld(clock, digest)) <==> Coherent(Events(ts, clock))
  {
    hide Valid, HexDigest, Sound, Coherent, Events, Resealed;
    ResealedSound(ts, clock, digest);
  }
}
