// tools/observe/observe_event.py and tools/audit/verify_audit_chain.py over the texts of their files:
// what is appended is printed lines, what is read back is what splitlines makes of them.

module ObserveFiles {
  import opened Basics
  import opened JsonModel
  import opened Text
  import opened LogLines
  import opened StringLiterals
  import opened Observe

  predicate AllText(row: map<string, Json>) {
    forall k | k in row :: row[k].Str?
  }

  // What is used of json.loads: it reads back printed objects of strings, and it refuses a text that
  // ends inside a string literal or has a backslash outside one.
  ghost predicate ReadsBack(loads: string -> Option<Json>) {
    && (forall row | AllText(row) :: loads(Print(Obj(row))) == Some(Obj(row)))
    && (forall s | loads(s).Some? :: Draw(Outside, s) == Outside)
  }

  // ----- reading a chain file -----

  function ReadLine(line: string, loads: string -> Option<Json>): Option<Row> {
    var raw := Strip(line);
    if raw == "" then None else
    match loads(raw)
    case Some(j) => if j.Obj? then Some(j.fields) else None
    case None => None
  }

  function ReadLines(lines: seq<string>, loads: string -> Option<Json>): Option<seq<Row>> {
    if lines == [] then Some([]) else
    var front, last := ReadLines(lines[..|lines| - 1], loads), ReadLine(lines[|lines| - 1], loads);
    if front.Some? && last.Some? then Some(front.value + [last.value]) else None
  }

  function ReadChain(text: string, loads: string -> Option<Json>): Option<seq<Row>> {
    ReadLines(SplitLines(text), loads)
  }

  // _iter_jsonl; None is a RuntimeError
  method IterJsonl(text: string, loads: string -> Option<Json>) returns (r: Option<seq<Row>>)
    ensures r == ReadChain(text, loads)
  {
    hide SplitLines, ReadLine;
    var lines := SplitLines(text);
    var rows: seq<Row> := [];
    for i := 0 to |lines|
      invariant ReadLines(lines[..i], loads) == Some(rows)
    {
      var row := ReadLine(lines[i], loads);
      assert lines[..i + 1][..i] == lines[..i];
      if row.None? {
        OneUnread(lines, i, loads);
        return None;
      }
      rows := rows + [row.value];
    }
    assert lines[..|lines|] == lines;
    return Some(rows);
  }

  lemma {:induction false} OneUnread(lines: seq<string>, i: nat, loads: string -> Option<Json>)
    requires i < |lines| && ReadLine(lines[i], loads).None?
    ensures ReadLines(lines, loads).None?
  {
    if i < |lines| - 1 { OneUnread(lines[..|lines| - 1], i, loads); }
  }

  // A file reads back as these rows if and only if it has as many lines, none of them blank, and each line
  // without the white space around it is what its row parses from.
  lemma {:induction false} ReadChainExact(text: string, rows: seq<Row>, loads: string -> Option<Json>)
    ensures var lines := SplitLines(text);
            ReadChain(text, loads) == Some(rows) <==>
              && |rows| == |lines|
              && forall i | 0 <= i < |lines| :: Strip(lines[i]) != "" && loads(Strip(lines[i])) == Some(Obj(rows[i]))
  {
    hide SplitLines, Strip;
    ReadLinesExact(SplitLines(text), rows, loads);
  }

  lemma {:induction false} ReadLinesExact(lines: seq<string>, rows: seq<Row>, loads: string -> Option<Json>)
    ensures ReadLines(lines, loads) == Some(rows) <==>
              && |rows| == |lines|
              && forall i | 0 <= i < |lines| :: Strip(lines[i]) != "" && loads(Strip(lines[i])) == Some(Obj(rows[i]))
  {
    hide Strip;
    if lines != [] {
      var n := |lines| - 1;
      assert ReadLine(lines[n], loads).Some? <==> Strip(lines[n]) != "" && loads(Strip(lines[n])).Some? && loads(Strip(lines[n])).value.Obj?;
      if |rows| == |lines| {
        ReadLinesExact(lines[..n], rows[..n], loads);
        assert rows == rows[..n] + [rows[n]];
      } else if ReadLines(lines[..n], loads).Some? {
        ReadLinesExact(lines[..n], ReadLines(lines[..n], loads).value, loads);
      }
    }
  }

  // What the verifier inside observe_event, and the audit tool, make of a chain file.
  predicate Accepts(text: string, h: Setup, loads: string -> Option<Json>) {
    ReadChain(text, loads).Some? && Chained(ReadChain(text, loads).value, h)
  }

  predicate AuditAccepts(text: string, h: Setup, loads: string -> Option<Json>) {
    Accepts(text, h, loads)
    && var rows := ReadChain(text, loads).value; forall i | 0 <= i < |rows| :: EmbeddedOk(rows[i], h)
  }

  method AuditFile(text: string, h: Setup, loads: string -> Option<Json>) returns (ok: bool)
    ensures ok <==> AuditAccepts(text, h, loads)
    ensures ok <==> && ReadChain(text, loads).Some?
                    && var rows := ReadChain(text, loads).value; Chained(rows, h) && forall row | row in rows :: EmbeddedOk(row, h)
  {
    var rows := IterJsonl(text, loads);
    if rows.None? {
      return false;
    }
    ok := VerifyAuditChain(rows.value, h);
  }

  // ----- observing into files -----

  datatype Files = Files(events: string, chain: string)

  function ObservedFiles(f: Files, call: Call, h: Setup, loads: string -> Option<Json>): Files {
    if Observable(call, h) && Accepts(f.chain, h, loads) then
      var event, rows := WithDefaults(call), ReadChain(f.chain, loads).value;
      Files(f.events + (Print(Obj(event)) + "\n"), f.chain + (Print(Obj(ChainRow(event, Tail(rows, h), call.rowTime, h))) + "\n"))
    else f
  }

  class FileObserver {
    var events: string
    var chain: string
    const h: Setup
    const loads: string -> Option<Json>

    constructor (h: Setup, loads: string -> Option<Json>)
      ensures events == "" && chain == "" && this.h == h && this.loads == loads
    {
      this.h, this.loads := h, loads;
      events, chain := "", "";
    }

    // observe_event; false is any RuntimeError
    method ObserveEvent(call: Call) returns (ok: bool)
      modifies this`events, this`chain
      ensures Files(events, chain) == ObservedFiles(old(Files(events, chain)), call, h, loads)
      ensures ok <==> Observable(call, h) && Accepts(old(chain), h, loads)
    {
      if !call.event.Obj? {
        return false;
      }
      var event := WithDefaults(call);
      if !h.admits(event) {
        return false;
      }
      var rows := IterJsonl(chain, loads);
      if rows.None? {
        return false;
      }
      ok := VerifyExistingChain(rows.value, h);
      if !ok {
        return false;
      }
      var row := ChainRow(event, Tail(rows.value, h), call.rowTime, h);
      events := events + (Print(Obj(event)) + "\n");
      chain := chain + (Print(Obj(row)) + "\n");
    }
  }

  // ----- what a file of rows reads as -----

  function Objects(rows: seq<Row>): seq<Json> {
    seq(|rows|, i requires 0 <= i < |rows| => Obj(rows[i]))
  }

  function ChainText(rows: seq<Row>): string {
    FileText(PrintAll(Objects(rows)))
  }

  function TextOf(logs: Logs): Files {
    Files(FileText(PrintAll(logs.events)), ChainText(logs.chain))
  }

  lemma OneLine(line: string)
    ensures FileText([line]) == line + "\n"
  {
    assert [line][1..] == [] && "\n" + [] == "\n";
  }

  lemma {:induction false} ValuesTextAppend(values: seq<Json>, value: Json)
    ensures FileText(PrintAll(values + [value])) == FileText(PrintAll(values)) + (Print(value) + "\n")
  {
    assert PrintAll(values + [value]) == PrintAll(values) + [Print(value)];
    FileTextAppend(PrintAll(values), [Print(value)]);
    OneLine(Print(value));
  }

  lemma {:induction false} ChainTextAppend(rows: seq<Row>, row: Row)
    ensures ChainText(rows + [row]) == ChainText(rows) + (Print(Obj(row)) + "\n")
  {
    assert Objects(rows + [row]) == Objects(rows) + [Obj(row)];
    ValuesTextAppend(Objects(rows), Obj(row));
  }

  ghost predicate AllPlain(rows: seq<Row>) {
    forall i | 0 <= i < |rows| :: AllText(rows[i]) && !HoldsSeparator(Obj(rows[i]))
  }

  lemma {:induction false} PrintedRowReads(row: Row, loads: string -> Option<Json>)
    requires ReadsBack(loads) && AllText(row)
    ensures ReadLine(Print(Obj(row)), loads) == Some(row)
  {
    hide Draw, AllText, Print, Strip;
    PrintedEnds(Obj(row));
    StripNone(Print(Obj(row)));
  }

  lemma StripNone(s: string)
    requires s != [] && s[0] == '{' && s[|s| - 1] == '}'
    ensures Strip(s) == s
  {
  }

  lemma {:induction false} PlainLinesRead(rows: seq<Row>, loads: string -> Option<Json>)
    requires ReadsBack(loads) && forall i | 0 <= i < |rows| :: AllText(rows[i])
    ensures ReadLines(PrintAll(Objects(rows)), loads) == Some(rows)
  {
    hide ReadsBack, AllText, ReadLine, Print;
    if rows != [] {
      var n := |rows| - 1;
      PlainLinesRead(rows[..n], loads);
      PrintedRowReads(rows[n], loads);
      assert PrintAll(Objects(rows))[..n] == PrintAll(Objects(rows[..n]));
      assert rows[..n] + [rows[n]] == rows;
    }
  }

  // Rows without separators read back.
  lemma {:induction false} PlainChainReads(rows: seq<Row>, loads: string -> Option<Json>)
    requires ReadsBack(loads) && AllPlain(rows)
    ensures ReadChain(ChainText(rows), loads) == Some(rows)
  {
    hide ReadsBack, AllText, ReadLine, Print, HoldsSeparator, SplitLines;
    LogReadsBack(Objects(rows));
    PlainLinesRead(rows, loads);
  }

  // The first piece of a row with a separator ends inside a string literal.
  lemma {:induction false} BadRowUnread(row: Row, loads: string -> Option<Json>)
    requires ReadsBack(loads) && AllText(row) && HoldsSeparator(Obj(row))
    ensures var lines := SplitLines(Print(Obj(row)) + "\n"); lines != [] && ReadLine(lines[0], loads).None?
  {
    hide HoldsSeparator, Print, AllText, SplitLines, Strip, Draw;
    var line := Print(Obj(row));
    PrintShows(Obj(row));
    ValueTidy(Obj(row));
    var i := LineEnd(line);
    assert "\n" + "" == "\n";
    if i == |line| { CutPlain(line, ""); }
    CutAtSeparator(line, "", i);
    StripOpen(line[..i]);
  }

  // So a chain that ends in such a row does not read back.
  lemma {:induction false} BadChainUnread(rows: seq<Row>, row: Row, loads: string -> Option<Json>)
    requires ReadsBack(loads) && AllPlain(rows) && AllText(row) && HoldsSeparator(Obj(row))
    ensures ReadChain(ChainText(rows + [row]), loads).None?
  {
    hide ReadsBack, HoldsSeparator, Print, AllText, SplitLines, ReadLine;
    var lines := PrintAll(Objects(rows));
    forall i | 0 <= i < |lines| ensures NoControl(lines[i]) && Separators(lines[i]) == 0 { PrintShows(Obj(rows[i])); }
    ChainTextAppend(rows, row);
    SplitPlainLines(lines, Print(Obj(row)) + "\n");
    BadRowUnread(row, loads);
    var pieces := SplitLines(Print(Obj(row)) + "\n");
    assert (lines + pieces)[|lines|] == pieces[0];
    OneUnread(lines + pieces, |lines|, loads);
  }

  // ----- every run -----

  // Hashes are hex digits, and only events with a string for an id are admitted.
  ghost predicate PlainSetup(h: Setup) {
    && Separators(h.genesis) == 0 && Separators(h.schemaHash) == 0
    && (forall j :: Separators(h.hash(j)) == 0)
    && (forall fields | h.admits(fields) :: Get(fields, "event_id").Str?)
  }

  ghost predicate PlainClock(calls: seq<Call>) {
    forall i | 0 <= i < |calls| :: Separators(calls[i].rowTime) == 0
  }

  // A call that would be recorded under an id that holds a separator.
  predicate Splits(call: Call, h: Setup) {
    Observable(call, h) && HoldsSeparator(Get(WithDefaults(call), "event_id"))
  }

  lemma SomeKeysAreAscii()
    ensures Separators("event_id") == 0 && Separators("ts") == 0 && Separators("schema_id") == 0
    ensures Separators("schema_hash") == 0
  {
    hide Separators, NoControl, IsSeparator;
    AsciiShows("event_id");
    AsciiShows("ts");
    AsciiShows("schema_id");
    AsciiShows("schema_hash");
  }

  lemma MoreKeysAreAscii()
    ensures Separators("canonical_event_hash") == 0 && Separators("prev_hash") == 0 && Separators("hash") == 0
    ensures Separators(SCHEMA_ID) == 0
  {
    hide Separators, NoControl, IsSeparator;
    AsciiShows("canonical_event_hash");
    AsciiShows("prev_hash");
    AsciiShows("hash");
    AsciiShows(SCHEMA_ID);
  }

  lemma KeysAreAscii()
    ensures Separators("event_id") == 0 && Separators("ts") == 0 && Separators("schema_id") == 0
    ensures Separators("schema_hash") == 0 && Separators("canonical_event_hash") == 0
    ensures Separators("prev_hash") == 0 && Separators("hash") == 0 && Separators(SCHEMA_ID) == 0
  {
    hide Separators;
    SomeKeysAreAscii();
    MoreKeysAreAscii();
  }

  ghost predicate RowKeys(row: Row) {
    forall k | k in row :: Separators(k) == 0 && row[k].Str? && (k == "event_id" || Separators(row[k].s) == 0)
  }

  lemma ChainRowKeys(event: Row, prev: string, rowTime: string, h: Setup)
    requires PlainSetup(h) && Separators(prev) == 0 && Separators(rowTime) == 0 && Get(event, "event_id").Str?
    ensures var row := ChainRow(event, prev, rowTime, h);
            RowKeys(row) && "event_id" in row && row["event_id"] == Get(event, "event_id")
  {
    hide Separators;
    KeysAreAscii();
  }

  lemma ChainRowSplits(event: Row, prev: string, rowTime: string, h: Setup)
    requires PlainSetup(h) && Separators(prev) == 0 && Separators(rowTime) == 0 && Get(event, "event_id").Str?
    ensures var row := ChainRow(event, prev, rowTime, h);
            AllText(row) && (HoldsSeparator(Obj(row)) <==> HoldsSeparator(Get(event, "event_id")))
  {
    hide Separators, ChainRow, PlainSetup;
    ChainRowKeys(event, prev, rowTime, h);
    var row := ChainRow(event, prev, rowTime, h);
    if HoldsSeparator(Obj(row)) {
      var k :| k in row && (Separators(k) > 0 || HoldsSeparator(row[k]));
      assert k == "event_id";
    }
  }

  lemma {:induction false} PlainTail(rows: seq<Row>, h: Setup)
    requires PlainSetup(h) && Chained(rows, h)
    ensures Separators(Tail(rows, h)) == 0
  {
    hide Separators;
  }

  function RunFiles(f: Files, calls: seq<Call>, h: Setup, loads: string -> Option<Json>): Files {
    if calls == [] then f else ObservedFiles(RunFiles(f, calls[..|calls| - 1], h, loads), calls[|calls| - 1], h, loads)
  }

  // One call on files that hold plain logs.
  lemma {:induction false} ObservedAsRows(logs: Logs, call: Call, h: Setup, loads: string -> Option<Json>)
    requires PlainSetup(h) && ReadsBack(loads) && Separators(call.rowTime) == 0
    requires Chained(logs.chain, h) && AllPlain(logs.chain)
    ensures ObservedFiles(TextOf(logs), call, h, loads) == TextOf(Observed(logs, call, h))
    ensures !Splits(call, h) ==> AllPlain(Observed(logs, call, h).chain)
    ensures Splits(call, h) ==> ReadChain(ObservedFiles(TextOf(logs), call, h, loads).chain, loads).None?
  {
    hide ReadsBack, Separators, ChainRow, HoldsSeparator, AllText, FileText, ReadLines, SplitLines, Print, PlainSetup, Chained;
    PlainChainReads(logs.chain, loads);
    if Observable(call, h) {
      var event := WithDefaults(call);
      var row := ChainRow(event, Tail(logs.chain, h), call.rowTime, h);
      PlainTail(logs.chain, h);
      AdmittedId(call, h);
      ChainRowSplits(event, Tail(logs.chain, h), call.rowTime, h);
      ChainTextAppend(logs.chain, row);
      ValuesTextAppend(logs.events, Obj(event));
      if Splits(call, h) { BadChainUnread(logs.chain, row, loads); }
    }
  }

  lemma AdmittedId(call: Call, h: Setup)
    requires PlainSetup(h) && Observable(call, h)
    ensures Get(WithDefaults(call), "event_id").Str?
  {
  }

  // How many calls are taken: all up to the first that splits its line, that one included.
  function Taken(calls: seq<Call>, h: Setup): (n: nat)
    ensures n <= |calls|
    ensures calls != [] ==> n > 0
  {
    if calls == [] then 0 else
    var front := calls[..|calls| - 1];
    if AnySplits(front, h) then AnyIsSome(front, h); Taken(front, h) else |calls|
  }

  lemma AnyIsSome(calls: seq<Call>, h: Setup)
    requires AnySplits(calls, h)
    ensures calls != []
  {
  }

  predicate AnySplits(calls: seq<Call>, h: Setup) {
    exists i :: 0 <= i < |calls| && Splits(calls[i], h)
  }

  lemma {:induction false} TakenAll(calls: seq<Call>, h: Setup)
    ensures !AnySplits(calls, h) ==> Taken(calls, h) == |calls|
  {
    if calls != [] {
      assert AnySplits(calls[..|calls| - 1], h) ==> AnySplits(calls, h) by {
        if AnySplits(calls[..|calls| - 1], h) {
          var i :| 0 <= i < |calls| - 1 && Splits(calls[..|calls| - 1][i], h);
          assert Splits(calls[i], h);
        }
      }
    }
  }

  lemma SplitsStep(calls: seq<Call>, call: Call, h: Setup)
    ensures AnySplits(calls + [call], h) <==> AnySplits(calls, h) || Splits(call, h)
  {
    if AnySplits(calls, h) {
      var i :| 0 <= i < |calls| && Splits(calls[i], h);
      assert Splits((calls + [call])[i], h);
    }
    if Splits(call, h) { assert Splits((calls + [call])[|calls|], h); }
  }

  const NO_FILES := Files("", "")

  const NO_LOGS := Logs([], [])

  // Where a run of calls stands.
  ghost predicate Stands(calls: seq<Call>, h: Setup, loads: string -> Option<Json>) {
    var f, logs := RunFiles(NO_FILES, calls, h, loads), RunAll(NO_LOGS, calls[..Taken(calls, h)], h);
    && f == TextOf(logs)
    && if AnySplits(calls, h) then ReadChain(f.chain, loads).None? else AllPlain(logs.chain)
  }

  lemma EmptyStands(h: Setup, loads: string -> Option<Json>)
    ensures Stands([], h, loads)
  {
    assert PrintAll([]) == [] && Objects([]) == [];
  }

  lemma {:induction false} StandsStep(front: seq<Call>, call: Call, h: Setup, loads: string -> Option<Json>)
    requires PlainSetup(h) && ReadsBack(loads) && Separators(call.rowTime) == 0
    requires Stands(front, h, loads)
    ensures Stands(front + [call], h, loads)
  {
    hide ReadsBack, Separators, PlainSetup, AllPlain, ReadChain, Splits, AnySplits, Observed, Observable, Chained, TextOf;
    var calls := front + [call];
    assert calls[..|front|] == front && calls[..|calls|] == calls;
    SplitsStep(front, call, h);
    TakenAll(front, h);
    if AnySplits(front, h) {
      assert calls[..Taken(front, h)] == front[..Taken(front, h)];
    } else {
      assert front[..|front|] == front;
      RunIsChained(front, h);
      ObservedAsRows(RunAll(NO_LOGS, front, h), call, h, loads);
    }
  }

  lemma {:induction false} RunIsChained(calls: seq<Call>, h: Setup)
    ensures Chained(RunAll(NO_LOGS, calls, h).chain, h)
  {
    EveryRun(calls, h);
  }

  lemma {:induction false} RunStands(calls: seq<Call>, h: Setup, loads: string -> Option<Json>)
    requires PlainSetup(h) && ReadsBack(loads) && PlainClock(calls)
    ensures Stands(calls, h, loads)
  {
    hide ReadsBack, Separators, PlainSetup, Stands;
    if calls == [] {
      EmptyStands(h, loads);
    } else {
      var n := |calls| - 1;
      RunStands(calls[..n], h, loads);
      assert calls == calls[..n] + [calls[n]];
      StandsStep(calls[..n], calls[n], h, loads);
    }
  }

  // Every run over files, from empty ones: the files hold exactly the calls taken, printed line by
  // line; both verifiers accept the chain file if and only if no call that passes its own checks has
  // an event id with U+0085, U+2028 or U+2029; then every such call is recorded, and after the first
  // one that has such an id every call is refused.
  lemma {:induction false} EveryRunOverFiles(calls: seq<Call>, h: Setup, loads: string -> Option<Json>)
    requires PlainSetup(h) && ReadsBack(loads) && PlainClock(calls)
    ensures var f, logs := RunFiles(NO_FILES, calls, h, loads), RunAll(NO_LOGS, calls[..Taken(calls, h)], h);
            && f == TextOf(logs)
            && |logs.chain| == CountObservable(calls[..Taken(calls, h)], h)
            && (Accepts(f.chain, h, loads) <==> !AnySplits(calls, h))
            && (AuditAccepts(f.chain, h, loads) <==> !AnySplits(calls, h))
    ensures !AnySplits(calls, h) ==> Taken(calls, h) == |calls|
    ensures AnySplits(calls, h) ==>
              && 0 < Taken(calls, h) <= |calls|
              && Splits(calls[Taken(calls, h) - 1], h) && !AnySplits(calls[..Taken(calls, h) - 1], h)
  {
    hide ReadsBack, Separators, PlainSetup, ReadLines, SplitLines, HoldsSeparator, AllText, Splits, Observable, Print, FileText;
    RunStands(calls, h, loads);
    TakenAll(calls, h);
    var n := Taken(calls, h);
    EveryRun(calls[..n], h);
    if !AnySplits(calls, h) { PlainChainReads(RunAll(NO_LOGS, calls[..n], h).chain, loads); }
    if AnySplits(calls, h) { LastTaken(calls, h); }
  }

  // The last call taken is the first that splits its line.
  lemma {:induction false} LastTaken(calls: seq<Call>, h: Setup)
    requires AnySplits(calls, h)
    ensures 0 < Taken(calls, h) <= |calls|
    ensures Splits(calls[Taken(calls, h) - 1], h) && !AnySplits(calls[..Taken(calls, h) - 1], h)
  {
    hide Splits;
    var n := |calls| - 1;
    var front := calls[..n];
    assert calls == front + [calls[n]];
    SplitsStep(front, calls[n], h);
    if AnySplits(front, h) {
      LastTaken(front, h);
      assert front[..Taken(front, h) - 1] == calls[..Taken(front, h) - 1];
    }
  }

  // The setup of the code is one of these, as long as the digest gives hex digits.
  lemma {:induction false} KernelIsPlain(digest: string -> string, schema: Json)
    requires forall s :: Separators(digest(s)) == 0
    ensures PlainSetup(KernelSetup(digest, schema))
  {
    hide Print, NoForbiddenKey, Separators, Zeros;
    var h := KernelSetup(digest, schema);
    ZerosArePlain(64);
    assert h.genesis == Zeros(64) && h.schemaHash == digest(Print(schema));
    forall j ensures Separators(h.hash(j)) == 0 { assert h.hash(j) == digest(Print(j)); }
    forall fields | h.admits(fields) ensures Get(fields, "event_id").Str? { ConformingId(fields); }
  }

  lemma ConformingId(fields: Row)
    requires Conforms(fields)
    ensures Get(fields, "event_id").Str?
  {
  }

  lemma {:induction false} ZerosArePlain(n: nat)
    ensures Separators(Zeros(n)) == 0
  {
    if n > 0 {
      ZerosArePlain(n - 1);
      AsciiShows("0");
      SeparatorsAppend("0", Zeros(n - 1));
    }
  }
}
