// core/chain_walker.py: what the report of a walk holds, for every chain, failing ones included.

module ChainReport {
  import opened Basics
  import opened ChainWalk

  // ----- which events are accepted -----

  predicate ValidAt(events: seq<Event>, calls: Calls, i: nat) {
    i < |events| && events[i].Event? && calls.valid(events[i])
  }

  ghost predicate FirstValid(events: seq<Event>, calls: Calls, i: nat) {
    ValidAt(events, calls, i) && forall j: nat | j < i :: !ValidAt(events, calls, j)
  }

  // A valid event with the snapshot of the first valid one.
  ghost predicate AcceptedAt(events: seq<Event>, calls: Calls, i: nat) {
    && ValidAt(events, calls, i)
    && forall j: nat | FirstValid(events, calls, j) :: events[j].key.snapshotId == events[i].key.snapshotId
  }

  ghost function AcceptedBefore(events: seq<Event>, calls: Calls, i: nat): set<nat> {
    set j: nat | j < i && AcceptedAt(events, calls, j)
  }

  // The last event before i that is accepted, and, if asked for, carries a chain hash.
  ghost predicate LastBefore(events: seq<Event>, calls: Calls, i: nat, hashed: bool, j: nat) {
    && j < i && AcceptedAt(events, calls, j) && (hashed ==> events[j].chainHash.Some?)
    && forall k: nat | j < k < i && AcceptedAt(events, calls, k) :: hashed && events[k].chainHash.None?
  }

  ghost predicate NoneBefore(events: seq<Event>, calls: Calls, i: nat, hashed: bool) {
    forall k: nat | k < i && AcceptedAt(events, calls, k) :: hashed && events[k].chainHash.None?
  }

  // The id of the last accepted event before i.
  ghost predicate IsPrevId(events: seq<Event>, calls: Calls, i: nat, id: Option<string>) {
    match id
    case None => NoneBefore(events, calls, i, false)
    case Some(x) => exists j: nat :: LastBefore(events, calls, i, false, j) && events[j].eventId == x
  }

  // The last chain hash of an accepted event before i.
  ghost predicate IsPrevHash(events: seq<Event>, calls: Calls, i: nat, hash: Option<string>) {
    match hash
    case None => NoneBefore(events, calls, i, true)
    case Some(x) => exists j: nat :: LastBefore(events, calls, i, true, j) && events[j].chainHash == Some(x)
  }

  // ----- what is reported where -----

  // The finding belongs into the report.
  ghost predicate Belongs(events: seq<Event>, flags: Flags, calls: Calls, f: Finding) {
    var i := f.index;
    if f.note.Fine? then f.ok && AcceptedAt(events, calls, i)
    else if f.ok || i >= |events| then false
    else if f.note.Invalid? then !ValidAt(events, calls, i)
    else if f.note.SnapshotChanged? then ValidAt(events, calls, i) && !AcceptedAt(events, calls, i)
    else AcceptedAt(events, calls, i) && Fails(events, flags, calls, i, f.note)
  }

  // The condition of a failure of an accepted event.
  ghost predicate Fails(events: seq<Event>, flags: Flags, calls: Calls, i: nat, note: Note)
    requires AcceptedAt(events, calls, i)
  {
    var ev := events[i];
    match note
    case SequenceGap => flags.strict && ev.key.sequenceNo != 1 + |AcceptedBefore(events, calls, i)|
    case GenesisHasPrev => i == 0 && ev.prevEventId.Some?
    case PrevMismatch => i > 0 && !IsPrevId(events, calls, i, ev.prevEventId)
    case ChainHashMismatch =>
      flags.verify && ev.chainHash.Some?
      && forall prev | IsPrevHash(events, calls, i, prev) :: ev.chainHash.value != calls.hashAfter(prev, ev)
    case _ => false
  }

  // The order of the notes on one event.
  function Rank(note: Note): nat {
    match note
    case SequenceGap => 0
    case GenesisHasPrev => 1
    case PrevMismatch => 2
    case ChainHashMismatch => 3
    case _ => 4
  }

  // Findings by position, on one event by rank: no finding twice.
  ghost predicate InPlace(results: seq<Finding>) {
    forall m, n | 0 <= m < n < |results| ::
      results[m].index < results[n].index
      || (results[m].index == results[n].index && Rank(results[m].note) < Rank(results[n].note))
  }

  // ----- the loop variables -----

  ghost predicate StateIs(events: seq<Event>, calls: Calls, n: nat, w: Walk) {
    && w.expectedSeq == 1 + |AcceptedBefore(events, calls, n)|
    && IsPrevId(events, calls, n, w.prevEventId) && IsPrevHash(events, calls, n, w.prevChainHash)
    && (w.seen.None? ==> forall j: nat | j < n :: !ValidAt(events, calls, j))
    && (w.seen.Some? ==> exists j: nat :: j < n && FirstValid(events, calls, j) && events[j].key.snapshotId == w.seen.value)
  }

  lemma FirstIsOne(events: seq<Event>, calls: Calls, i: nat, j: nat)
    requires FirstValid(events, calls, i) && FirstValid(events, calls, j)
    ensures i == j
  {
  }

  // What the loop tells apart is what is accepted.
  lemma AcceptedByState(events: seq<Event>, calls: Calls, n: nat, w: Walk)
    requires StateIs(events, calls, n, w) && ValidAt(events, calls, n)
    ensures AcceptedAt(events, calls, n) <==> w.seen.None? || w.seen.value == events[n].key.snapshotId
  {
    if w.seen.None? {
      assert FirstValid(events, calls, n);
      forall j: nat | FirstValid(events, calls, j) ensures j == n { FirstIsOne(events, calls, j, n); }
    } else {
      var f: nat :| f < n && FirstValid(events, calls, f) && events[f].key.snapshotId == w.seen.value;
      forall j: nat | FirstValid(events, calls, j) ensures j == f { FirstIsOne(events, calls, j, f); }
    }
  }

  lemma OneMoreAccepted(events: seq<Event>, calls: Calls, n: nat)
    ensures |AcceptedBefore(events, calls, n + 1)| == |AcceptedBefore(events, calls, n)| + (if AcceptedAt(events, calls, n) then 1 else 0)
  {
    hide AcceptedAt;
    var a, b := AcceptedBefore(events, calls, n), AcceptedBefore(events, calls, n + 1);
    if AcceptedAt(events, calls, n) { assert b == a + {n}; } else { assert b == a; }
  }

  // An event that is not accepted leaves the references as they are.
  lemma SkippedReference(events: seq<Event>, calls: Calls, n: nat, hashed: bool, j: nat)
    requires !AcceptedAt(events, calls, n) && LastBefore(events, calls, n, hashed, j)
    ensures LastBefore(events, calls, n + 1, hashed, j)
  {
    hide AcceptedAt;
  }

  lemma SkippedState(events: seq<Event>, calls: Calls, n: nat, w: Walk, w': Walk)
    requires StateIs(events, calls, n, w) && w' == w.(results := w'.results)
    requires !AcceptedAt(events, calls, n) && (ValidAt(events, calls, n) ==> w.seen.Some?)
    ensures StateIs(events, calls, n + 1, w')
  {
    hide AcceptedBefore;
    OneMoreAccepted(events, calls, n);
    if w.prevEventId.Some? {
      var j: nat :| LastBefore(events, calls, n, false, j) && events[j].eventId == w.prevEventId.value;
      SkippedReference(events, calls, n, false, j);
    }
    if w.prevChainHash.Some? {
      var j: nat :| LastBefore(events, calls, n, true, j) && events[j].chainHash == w.prevChainHash;
      SkippedReference(events, calls, n, true, j);
    }
  }

  lemma TakenState(events: seq<Event>, calls: Calls, n: nat, w: Walk, w': Walk)
    requires StateIs(events, calls, n, w) && AcceptedAt(events, calls, n)
    requires w'.expectedSeq == w.expectedSeq + 1 && w'.seen == Some(events[n].key.snapshotId)
    requires w'.prevEventId == Some(events[n].eventId) && w'.prevChainHash == CarriedHash(events[n], w.prevChainHash)
    ensures StateIs(events, calls, n + 1, w')
  {
    AcceptedByState(events, calls, n, w);
    OneMoreAccepted(events, calls, n);
    NewReference(events, calls, n, false);
    TakenHash(events, calls, n, w, w');
    if w.seen.None? {
      assert FirstValid(events, calls, n);
    } else {
      var f: nat :| f < n && FirstValid(events, calls, f) && events[f].key.snapshotId == w.seen.value;
    }
  }

  lemma NewReference(events: seq<Event>, calls: Calls, n: nat, hashed: bool)
    requires AcceptedAt(events, calls, n) && (hashed ==> events[n].chainHash.Some?)
    ensures LastBefore(events, calls, n + 1, hashed, n)
  {
  }

  lemma KeptReference(events: seq<Event>, calls: Calls, n: nat, j: nat)
    requires AcceptedAt(events, calls, n) && events[n].chainHash.None? && LastBefore(events, calls, n, true, j)
    ensures LastBefore(events, calls, n + 1, true, j)
  {
    AcceptedIsValid(events, calls, n);
    hide AcceptedAt, ValidAt;
    forall k: nat | j < k < n + 1 && AcceptedAt(events, calls, k) ensures k < |events| && events[k].Event? && events[k].chainHash.None? {
      AcceptedIsValid(events, calls, k);
    }
  }

  lemma StillNone(events: seq<Event>, calls: Calls, n: nat)
    requires AcceptedAt(events, calls, n) && events[n].chainHash.None? && NoneBefore(events, calls, n, true)
    ensures NoneBefore(events, calls, n + 1, true)
  {
    hide AcceptedAt, ValidAt;
    forall k: nat | k < n + 1 && AcceptedAt(events, calls, k) ensures k < |events| && events[k].Event? && events[k].chainHash.None? {
      AcceptedIsValid(events, calls, k);
    }
  }

  lemma TakenHash(events: seq<Event>, calls: Calls, n: nat, w: Walk, w': Walk)
    requires IsPrevHash(events, calls, n, w.prevChainHash) && AcceptedAt(events, calls, n)
    requires w'.prevChainHash == CarriedHash(events[n], w.prevChainHash)
    ensures IsPrevHash(events, calls, n + 1, w'.prevChainHash)
  {
    AcceptedIsValid(events, calls, n);
    hide AcceptedAt, ValidAt, NoneBefore;
    if events[n].chainHash.Some? {
      NewReference(events, calls, n, true);
    } else if w.prevChainHash.Some? {
      var j: nat :| j < n && AcceptedAt(events, calls, j) && LastBefore(events, calls, n, true, j) && events[j].chainHash == w.prevChainHash;
      hide LastBefore;
      KeptReference(events, calls, n, j);
    } else {
      StillNone(events, calls, n);
    }
  }

  // The references are unique.
  lemma PrevIdIs(events: seq<Event>, calls: Calls, i: nat, a: Option<string>, b: Option<string>)
    requires IsPrevId(events, calls, i, a) && IsPrevId(events, calls, i, b)
    ensures a == b
  {
    hide AcceptedAt;
  }

  lemma PrevHashIs(events: seq<Event>, calls: Calls, i: nat, a: Option<string>, b: Option<string>)
    requires IsPrevHash(events, calls, i, a) && IsPrevHash(events, calls, i, b)
    ensures a == b
  {
    hide AcceptedAt;
  }

  // ----- the report -----

  // The findings of one more event.
  ghost predicate ReportsAt(events: seq<Event>, flags: Flags, calls: Calls, n: nat, more: seq<Finding>) {
    InPlace(more) && forall f :: f in more <==> f.index == n && Belongs(events, flags, calls, f)
  }

  lemma FailsByState(events: seq<Event>, flags: Flags, calls: Calls, n: nat, w: Walk)
    requires StateIs(events, calls, n, w) && AcceptedAt(events, calls, n)
    ensures var ev := events[n];
            && (Fails(events, flags, calls, n, SequenceGap) <==> Gap(w, ev, flags))
            && (Fails(events, flags, calls, n, GenesisHasPrev) <==> n == 0 && BadPrev(w, n, ev))
            && (Fails(events, flags, calls, n, PrevMismatch) <==> n > 0 && BadPrev(w, n, ev))
            && (Fails(events, flags, calls, n, ChainHashMismatch) <==> BadHash(w, ev, flags, calls))
            && !Fails(events, flags, calls, n, EmptyChain)
  {
    AcceptedIsValid(events, calls, n);
    hide AcceptedAt, AcceptedBefore, IsPrevId, IsPrevHash;
    var ev := events[n];
    if IsPrevId(events, calls, n, ev.prevEventId) { PrevIdIs(events, calls, n, ev.prevEventId, w.prevEventId); }
    forall prev | IsPrevHash(events, calls, n, prev) ensures prev == w.prevChainHash { PrevHashIs(events, calls, n, prev, w.prevChainHash); }
  }

  // The findings of an accepted event, with its three conditions.
  function FourNotes(n: nat, gap: bool, prev: bool, hash: bool): seq<Finding> {
    Complain(gap, n, SequenceGap) + Complain(prev, n, if n == 0 then GenesisHasPrev else PrevMismatch)
    + Complain(hash, n, ChainHashMismatch) + [Finding(n, true, Fine)]
  }

  lemma FourNotesHold(n: nat, gap: bool, prev: bool, hash: bool)
    ensures InPlace(FourNotes(n, gap, prev, hash))
    ensures forall f :: f in FourNotes(n, gap, prev, hash) <==>
              || (gap && f == Finding(n, false, SequenceGap)) || (prev && f == Finding(n, false, if n == 0 then GenesisHasPrev else PrevMismatch))
              || (hash && f == Finding(n, false, ChainHashMismatch)) || f == Finding(n, true, Fine)
  {
  }

  lemma AcceptedReports(events: seq<Event>, flags: Flags, calls: Calls, n: nat, w: Walk)
    requires StateIs(events, calls, n, w) && AcceptedAt(events, calls, n)
    ensures ReportsAt(events, flags, calls, n, FourNotes(n, Gap(w, events[n], flags), BadPrev(w, n, events[n]), BadHash(w, events[n], flags, calls)))
  {
    hide AcceptedAt, StateIs, Fails, Gap, BadPrev, BadHash, FourNotes, InPlace;
    FailsByState(events, flags, calls, n, w);
    AcceptedIsValid(events, calls, n);
    FourNotesHold(n, Gap(w, events[n], flags), BadPrev(w, n, events[n]), BadHash(w, events[n], flags, calls));
  }

  lemma AcceptedIsValid(events: seq<Event>, calls: Calls, n: nat)
    requires AcceptedAt(events, calls, n)
    ensures ValidAt(events, calls, n) && n < |events| && events[n].Event?
  {
  }

  lemma {:induction false} StepReports(events: seq<Event>, flags: Flags, calls: Calls, n: nat, w: Walk) returns (more: seq<Finding>)
    requires StateIs(events, calls, n, w) && n < |events|
    ensures var w' := Step(w, n, events[n], flags, calls);
            StateIs(events, calls, n + 1, w') && w'.results == w.results + more && ReportsAt(events, flags, calls, n, more)
  {
    hide StateIs, AcceptedAt, Fails, Gap, BadPrev, BadHash;
    var w', ev := Step(w, n, events[n], flags, calls), events[n];
    if !ValidAt(events, calls, n) {
      NotAccepted(events, calls, n);
      SkippedState(events, calls, n, w, w');
      more := [Finding(n, false, Invalid)];
    } else {
      AcceptedByState(events, calls, n, w);
      if AcceptedAt(events, calls, n) {
        TakenState(events, calls, n, w, w');
        more := FourNotes(n, Gap(w, ev, flags), BadPrev(w, n, ev), BadHash(w, ev, flags, calls));
        AcceptedReports(events, flags, calls, n, w);
        StepAppends(w, n, ev, flags, calls);
      } else {
        SkippedState(events, calls, n, w, w');
        more := [Finding(n, false, SnapshotChanged)];
      }
    }
  }

  lemma NotAccepted(events: seq<Event>, calls: Calls, n: nat)
    requires !ValidAt(events, calls, n)
    ensures !AcceptedAt(events, calls, n)
  {
  }

  lemma StepAppends(w: Walk, n: nat, ev: Event, flags: Flags, calls: Calls)
    requires ev.Event? && calls.valid(ev) && (w.seen.None? || w.seen.value == ev.key.snapshotId)
    ensures Step(w, n, ev, flags, calls).results
            == w.results + FourNotes(n, Gap(w, ev, flags), BadPrev(w, n, ev), BadHash(w, ev, flags, calls))
  {
    hide Gap, BadPrev, BadHash;
  }

  // The report on the first n events.
  ghost predicate ReportIs(events: seq<Event>, flags: Flags, calls: Calls, n: nat, results: seq<Finding>) {
    InPlace(results) && forall f :: f in results <==> f.index < n && Belongs(events, flags, calls, f)
  }

  lemma ReportGrows(events: seq<Event>, flags: Flags, calls: Calls, n: nat, results: seq<Finding>, more: seq<Finding>)
    requires ReportIs(events, flags, calls, n, results) && ReportsAt(events, flags, calls, n, more)
    ensures ReportIs(events, flags, calls, n + 1, results + more)
  {
    hide Belongs, Rank;
    forall m | 0 <= m < |results| ensures results[m].index < n { assert results[m] in results; }
    forall m | 0 <= m < |more| ensures more[m].index == n { assert more[m] in more; }
    forall f ensures f in results + more <==> f in results || f in more {}
  }

  lemma {:induction false} WalkReports(events: seq<Event>, flags: Flags, calls: Calls, n: nat)
    requires n <= |events|
    ensures StateIs(events, calls, n, WalkAll(events[..n], flags, calls))
    ensures ReportIs(events, flags, calls, n, WalkAll(events[..n], flags, calls).results)
  {
    hide StateIs, ReportIs, ReportsAt, Step;
    if n == 0 {
      NothingYet(events, flags, calls);
    } else {
      WalkReports(events, flags, calls, n - 1);
      var w := WalkAll(events[..n - 1], flags, calls);
      WalkAllStep(events, n - 1, flags, calls);
      var more := StepReports(events, flags, calls, n - 1, w);
      ReportGrows(events, flags, calls, n - 1, w.results, more);
    }
  }

  lemma NothingYet(events: seq<Event>, flags: Flags, calls: Calls)
    ensures StateIs(events, calls, 0, WalkAll(events[..0], flags, calls))
    ensures ReportIs(events, flags, calls, 0, WalkAll(events[..0], flags, calls).results)
  {
    assert AcceptedBefore(events, calls, 0) == {};
  }

  // The report of a walk: it holds a finding if and only if it belongs there, each once, by position and
  // on one event in the order of the checks.
  lemma {:induction false} ReportExact(events: seq<Event>, flags: Flags, calls: Calls)
    ensures forall f :: f in WalkAll(events, flags, calls).results <==> Belongs(events, flags, calls, f)
    ensures InPlace(WalkAll(events, flags, calls).results)
  {
    hide InPlace, AcceptedAt, Fails, StateIs;
    WalkReports(events, flags, calls, |events|);
    assert events[..|events|] == events;
    forall f | Belongs(events, flags, calls, f) ensures f.index < |events| {
      if f.note.Fine? { AcceptedIsValid(events, calls, f.index); }
    }
  }
}
