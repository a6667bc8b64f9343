// core/hasher.py: exactly which event ids are ambiguous, references that hold separators included.

module EventIds {
  import opened Basics
  import opened JsonModel
  import opened Hasher

  // ----- cutting a text at its separators -----

  // Parts, each behind a separator.
  function Tail(ws: seq<string>): string {
    if ws == [] then "" else [US] + ws[0] + Tail(ws[1..])
  }

  // Where the separator in front of part k stands, behind a front.
  function Cut(front: nat, ws: seq<string>, k: nat): nat
    requires k <= |ws|
    decreases k
  {
    if k == 0 then front else Cut(front + 1 + |ws[0]|, ws[1..], k - 1)
  }

  // The word stands in the text at this position.
  predicate StandsAt(t: string, e: int, w: string) {
    0 <= e && e + |w| <= |t| && t[e..e + |w|] == w
  }

  predicate Holds(v: string, w: string) {
    exists e :: 0 <= e <= |v| && StandsAt(v, e, w)
  }

  lemma {:induction false} CutStands(front: string, ws: seq<string>, k: nat)
    requires k < |ws|
    ensures var t, c := front + Tail(ws), Cut(|front|, ws, k);
            && |front| <= c && StandsAt(t, c, [US] + ws[k]) && Cut(|front|, ws, k + 1) == c + 1 + |ws[k]|
            && (k == |ws| - 1 ==> c + 1 + |ws[k]| == |t|)
    decreases k
  {
    var more := front + ([US] + ws[0]);
    assert front + Tail(ws) == more + Tail(ws[1..]);
    if k == 0 {
      assert Cut(|more|, ws[1..], 0) == |more|;
      assert (more + Tail(ws[1..]))[|front|..|front| + 1 + |ws[0]|] == [US] + ws[0];
    } else {
      CutStands(more, ws[1..], k - 1);
    }
  }

  lemma {:induction false} JoinTail(ps: seq<string>, ws: seq<string>)
    requires ps != []
    ensures Join(ps + ws) == Join(ps) + Tail(ws)
    decreases |ws|
  {
    if ws == [] {
      assert ps + ws == ps;
    } else {
      hide Join;
      JoinOne(ps, ws[0]);
      JoinTail(ps + [ws[0]], ws[1..]);
      assert ps + ws == ps + [ws[0]] + ws[1..];
      assert Join(ps) + ([US] + ws[0]) + Tail(ws[1..]) == Join(ps) + ([US] + ws[0] + Tail(ws[1..]));
    }
  }

  lemma JoinOne(ps: seq<string>, w: string)
    requires ps != []
    ensures Join(ps + [w]) == Join(ps) + ([US] + w)
  {
    JoinAppend(ps, [w]);
    assert Join([w]) == w;
    assert Join(ps) + [US] + w == Join(ps) + ([US] + w);
  }

  // ----- the readings of an event id -----

  const NAMES := ["execution_card_id=", "parent_card_id=", "policy_id=", "run_id=", "approval_id="]

  lemma NamesPlain()
    ensures forall i | 0 <= i < 5 :: US !in NAMES[i] && NAMES[i] != ""
    ensures NAMES[0][0] == 'e'
  {
  }

  function RefValue(refs: Refs, i: nat): string
    requires i < 5
  {
    OrEmpty([refs.executionCardId, refs.parentCardId, refs.policyId, refs.runId, refs.approvalId][i])
  }

  lemma RefPart(refs: Refs, i: nat)
    requires i < 5
    ensures RefParts(refs)[i] == NAMES[i] + RefValue(refs, i)
  {
  }

  function Rest(k: EventKey): (r: seq<string>)
    ensures |r| == 7
  {
    [IntText(k.sequenceNo)] + RefParts(k.refs) + [k.payloadHash]
  }

  lemma TextIsTail(k: EventKey)
    ensures Join(KeyParts(k)) == Join(Five(k)) + Tail(Rest(k))
  {
    EventTextIsFlat(k);
    assert FlatParts(k) == Five(k) + Rest(k);
    JoinTail(Five(k), Rest(k));
  }

  // Where the part k of the rest begins: 0 is the number, 1 to 5 the references, 6 the payload hash.
  function CutOf(k: EventKey, i: nat): nat
    requires i <= 7
  {
    Cut(|Join(Five(k))|, Rest(k), i)
  }

  // The same, together with what stands there.
  lemma Cuts(k: EventKey, i: nat)
    requires i < 7
    ensures var t, c := Join(KeyParts(k)), CutOf(k, i);
            && StandsAt(t, c, [US] + Rest(k)[i]) && CutOf(k, i + 1) == c + 1 + |Rest(k)[i]| && c < CutOf(k, i + 1) <= |t|
            && (i == 6 ==> CutOf(k, 7) == |t|)
    ensures 1 <= i < 6 ==> Rest(k)[i] == NAMES[i - 1] + RefValue(k.refs, i - 1)
    ensures Rest(k)[0] == IntText(k.sequenceNo) && Rest(k)[6] == k.payloadHash
  {
    TextIsTail(k);
    CutStands(Join(Five(k)), Rest(k), i);
    if 1 <= i < 6 {
      RefPart(k.refs, i - 1);
      assert Rest(k)[i] == RefParts(k.refs)[i - 1];
    }
  }

  // The reference i holds a separator and then the name of reference j.
  predicate HoldsName(k: EventKey, i: nat, j: nat)
    requires i < 5 && j < 5
  {
    Holds(RefValue(k.refs, i), [US] + NAMES[j])
  }

  // The first reference holds a number, and then its own name, between separators.
  ghost predicate HoldsNumber(k: EventKey) {
    exists n: int :: Holds(RefValue(k.refs, 0), [US] + IntText(n) + ([US] + NAMES[0]))
  }

  // ----- another reading needs such a reference -----

  lemma InsideValue(t: string, c: nat, name: string, v: string, e: nat, w: string)
    requires StandsAt(t, c, [US] + (name + v)) && US !in name && w != [] && w[0] == US
    requires c < e && e + |w| <= c + 1 + |name| + |v| && StandsAt(t, e, w)
    ensures Holds(v, w)
  {
    var from := c + 1 + |name|;
    assert forall i | 0 <= i < |name| :: t[c + 1 + i] == ([US] + (name + v))[1 + i] == name[i];
    assert t[e] == US;
    assert e >= from;
    assert forall i | 0 <= i < |v| :: t[from + i] == ([US] + (name + v))[1 + |name| + i] == v[i];
    assert StandsAt(v, e - from, w) by {
      assert forall i | 0 <= i < |w| :: v[e - from + i] == t[e + i] == w[i];
    }
  }

  // A separator and a name between two cuts end before the second.
  lemma NameFits(t: string, e: nat, w: string, c: nat)
    requires StandsAt(t, e, [US] + w) && US !in w && e < c <= |t| && (c < |t| ==> t[c] == US)
    ensures e + 1 + |w| <= c
  {
    assert forall m | 0 <= m < |w| :: t[e + 1 + m] == ([US] + w)[1 + m] && w[m] in w;
  }

  lemma NameBetween(k: EventKey, i: nat, e: nat, w: string)
    requires 1 <= i < 6 && US !in w && StandsAt(Join(KeyParts(k)), e, [US] + w) && CutOf(k, i) < e < CutOf(k, i + 1)
    ensures Holds(RefValue(k.refs, i - 1), [US] + w)
  {
    hide CutOf, Join, KeyParts, Five, Rest, Holds;
    NamesPlain();
    Cuts(k, i);
    CutIsSeparator(k, i + 1);
    NameFits(Join(KeyParts(k)), e, w, CutOf(k, i + 1));
    InsideValue(Join(KeyParts(k)), CutOf(k, i), NAMES[i - 1], RefValue(k.refs, i - 1), e, [US] + w);
  }

  // Two increasing chains between the same bounds are the same, if no link of the one stands between
  // the neighbours of its counterpart but where that does.
  lemma Crossing(c1: int, c2: int, c3: int, c4: int, c5: int, c6: int, d2: int, d3: int, d4: int, d5: int)
    requires c1 < c2 < c3 < c4 < c5 < c6 && c1 < d2 < d3 < d4 < d5 < c6
    requires (c1 < d2 < c3 ==> d2 == c2) && (c2 < d3 < c4 ==> d3 == c3) && (c3 < d4 < c5 ==> d4 == c4) && (c4 < d5 < c6 ==> d5 == c5)
    ensures d2 == c2 && d3 == c3 && d4 == c4 && d5 == c5
  {
  }

  // The keys of one text, the first without separators in its first five fields, neither with one in
  // the payload hash.
  ghost predicate TwoReadings(a: EventKey, b: EventKey) {
    && Join(KeyParts(a)) == Join(KeyParts(b)) && US !in a.payloadHash && US !in b.payloadHash
    && NoSeparator(Five(a))
  }

  // No separator within a part that holds none.
  lemma NoneWithin(k: EventKey, i: nat, e: nat)
    requires i < 7 && US !in Rest(k)[i] && CutOf(k, i) < e < CutOf(k, i + 1)
    ensures e < |Join(KeyParts(k))| && Join(KeyParts(k))[e] != US
  {
    hide CutOf, Join, KeyParts, Five, Rest;
    Cuts(k, i);
    var t, c := Join(KeyParts(k)), CutOf(k, i);
    assert t[e] == ([US] + Rest(k)[i])[e - c] == Rest(k)[i][e - c - 1];
    assert Rest(k)[i][e - c - 1] in Rest(k)[i];
  }

  lemma CutIsSeparator(k: EventKey, i: nat)
    requires i < 7
    ensures CutOf(k, i) < |Join(KeyParts(k))| && Join(KeyParts(k))[CutOf(k, i)] == US
  {
    hide CutOf, Join, KeyParts, Five, Rest;
    Cuts(k, i);
    var t, c := Join(KeyParts(k)), CutOf(k, i);
    assert t[c] == ([US] + Rest(k)[i])[0];
  }

  lemma SameLastCut(a: EventKey, b: EventKey)
    requires TwoReadings(a, b)
    ensures CutOf(a, 6) == CutOf(b, 6)
  {
    hide CutOf, Join, KeyParts, Five, Rest;
    Cuts(a, 6);
    Cuts(b, 6);
    CutIsSeparator(a, 6);
    CutIsSeparator(b, 6);
    if CutOf(a, 6) < CutOf(b, 6) { NoneWithin(a, 6, CutOf(b, 6)); }
    if CutOf(b, 6) < CutOf(a, 6) { NoneWithin(b, 6, CutOf(a, 6)); }
  }

  lemma FrontOf(k: EventKey)
    ensures CutOf(k, 0) <= |Join(KeyParts(k))| && Join(KeyParts(k))[..CutOf(k, 0)] == Join(Five(k))
  {
    TextIsTail(k);
    assert CutOf(k, 0) == |Join(Five(k))|;
  }

  lemma SepsOfPrefix(t: string, d: nat, c: nat)
    requires d < c <= |t| && t[d] == US
    ensures Seps(t[..c]) > Seps(t[..d])
  {
    assert t[..c] == t[..d] + [US] + t[d + 1..c];
    SepsAppend(t[..d] + [US], t[d + 1..c]);
    SepsAppend(t[..d], [US]);
    assert [US][..0] == [];
  }

  lemma FirstCutNotBefore(a: EventKey, b: EventKey)
    requires TwoReadings(a, b)
    ensures CutOf(a, 0) <= CutOf(b, 0)
  {
    hide CutOf, Join, KeyParts, Rest, Seps;
    FrontOf(a);
    FrontOf(b);
    CutIsSeparator(b, 0);
    JoinSeps(Five(a));
    JoinSeps(Five(b));
    TotalNone(Five(a));
    if CutOf(b, 0) < CutOf(a, 0) { SepsOfPrefix(Join(KeyParts(a)), CutOf(b, 0), CutOf(a, 0)); }
  }

  lemma NumberStarts(n: int)
    ensures IntText(n) != "" && (IntText(n)[0] == '-' || '0' <= IntText(n)[0] <= '9')
  {
    var ds := Digits(if n < 0 then -n else n);
    assert ds != "" && ds[0] in ds;
  }

  // The number of the one stands where that of the other does, or behind the first name.
  lemma SecondCut(a: EventKey, b: EventKey)
    requires TwoReadings(a, b)
    ensures CutOf(b, 0) == CutOf(a, 0) ==> CutOf(b, 1) == CutOf(a, 1)
    ensures CutOf(b, 0) != CutOf(a, 0) ==> CutOf(b, 0) > CutOf(a, 1)
  {
    hide CutOf, Join, KeyParts, Five, Rest, IntText;
    FirstCutNotBefore(a, b);
    Cuts(a, 0);
    Cuts(b, 0);
    if CutOf(b, 0) == CutOf(a, 0) {
      NotWithin(a, b, 1);
      NotWithin(b, a, 1);
    } else {
      NotWithin(a, b, 0);
      NumberIsNoName(a, b);
    }
  }

  lemma NotWithin(a: EventKey, b: EventKey, i: nat)
    requires Join(KeyParts(a)) == Join(KeyParts(b)) && i < 7 && CutOf(a, 0) < CutOf(b, i)
    ensures CutOf(a, 1) <= CutOf(b, i)
  {
    hide CutOf, Join, KeyParts, Five, Rest, IntText;
    CutIsSeparator(b, i);
    FirstIsNumber(a);
    if CutOf(b, i) < CutOf(a, 1) { NoneWithin(a, 0, CutOf(b, i)); }
  }

  lemma FirstIsNumber(k: EventKey)
    ensures US !in Rest(k)[0]
  {
    hide IntText;
    IntHasNoSeparator(k.sequenceNo);
  }

  lemma NumberIsNoName(a: EventKey, b: EventKey)
    requires Join(KeyParts(a)) == Join(KeyParts(b))
    ensures CutOf(b, 0) != CutOf(a, 1)
  {
    hide CutOf, Join, KeyParts, Five, Rest, IntText;
    Cuts(a, 1);
    Cuts(b, 0);
    NumberStarts(b.sequenceNo);
    NamesPlain();
    var t, c, d := Join(KeyParts(a)), CutOf(a, 1), CutOf(b, 0);
    assert t[d + 1] == ([US] + Rest(b)[0])[1] == IntText(b.sequenceNo)[0];
    assert t[c + 1] == ([US] + Rest(a)[1])[1] == NAMES[0][0];
  }

  // Where a name of the one stands off that of the other.
  lemma NameOff(a: EventKey, b: EventKey, i: nat)
    requires TwoReadings(a, b) && 2 <= i < 6
    requires CutOf(a, i - 1) < CutOf(b, i) < CutOf(a, i + 1) && CutOf(b, i) != CutOf(a, i)
    ensures HoldsName(a, i - 2, i - 1) || HoldsName(a, i - 1, i - 1)
  {
    hide CutOf, Join, KeyParts, Five, Rest, Holds;
    NamesPlain();
    Cuts(b, i);
    var t, d, name := Join(KeyParts(a)), CutOf(b, i), NAMES[i - 1];
    assert StandsAt(t, d, [US] + name) by {
      assert [US] + Rest(b)[i] == ([US] + name) + RefValue(b.refs, i - 1);
      StandsFirst(t, d, [US] + name, RefValue(b.refs, i - 1));
    }
    if d < CutOf(a, i) { NameBetween(a, i - 1, d, name); } else { NameBetween(a, i, d, name); }
  }

  lemma StandsFirst(t: string, e: nat, v: string, w: string)
    requires StandsAt(t, e, v + w)
    ensures StandsAt(t, e, v)
  {
    assert forall m | 0 <= m < |v| :: t[e + m] == (v + w)[m] == v[m];
  }

  // No reference holds what makes another reading.
  ghost predicate Tight(k: EventKey) {
    !HoldsNumber(k) && forall i | 1 <= i < 5 :: !HoldsName(k, i - 1, i) && !HoldsName(k, i, i)
  }

  lemma TightAt(k: EventKey, i: nat)
    requires Tight(k) && 1 <= i < 5
    ensures !HoldsName(k, i - 1, i) && !HoldsName(k, i, i)
  {
  }

  lemma {:induction false} SameNames(a: EventKey, b: EventKey)
    requires TwoReadings(a, b) && Tight(a)
    ensures forall i | 2 <= i < 7 :: CutOf(b, i) == CutOf(a, i)
  {
    hide CutOf, Join, KeyParts, Five, Rest, HoldsName, HoldsNumber;
    SameLastCut(a, b);
    SecondCut(a, b);
    forall i | 0 <= i < 7 ensures CutOf(a, i) < CutOf(a, i + 1) && CutOf(b, i) < CutOf(b, i + 1) {
      Cuts(a, i);
      Cuts(b, i);
    }
    forall i | 2 <= i < 6 && CutOf(a, i - 1) < CutOf(b, i) < CutOf(a, i + 1) ensures CutOf(b, i) == CutOf(a, i) {
      if CutOf(b, i) != CutOf(a, i) {
        NameOff(a, b, i);
        TightAt(a, i - 1);
      }
    }
    assert CutOf(b, 1) < CutOf(b, 2) < CutOf(b, 3) < CutOf(b, 4) < CutOf(b, 5) < CutOf(b, 6);
    assert CutOf(a, 1) < CutOf(a, 2) < CutOf(a, 3) < CutOf(a, 4) < CutOf(a, 5) < CutOf(a, 6);
    Crossing(CutOf(a, 1), CutOf(a, 2), CutOf(a, 3), CutOf(a, 4), CutOf(a, 5), CutOf(a, 6),
             CutOf(b, 2), CutOf(b, 3), CutOf(b, 4), CutOf(b, 5));
  }

  // With all names in the same places, the numbers stand in the same place too.
  lemma {:induction false} SameCuts(a: EventKey, b: EventKey)
    requires TwoReadings(a, b) && Tight(a)
    ensures forall i | 0 <= i < 7 :: CutOf(b, i) == CutOf(a, i)
  {
    hide CutOf, Join, KeyParts, Five, Rest, HoldsName, HoldsNumber;
    SameNames(a, b);
    SecondCut(a, b);
    Cuts(b, 0);
    Cuts(b, 1);
    if CutOf(b, 0) != CutOf(a, 0) { NumberInside(a, b); }
  }

  lemma NumberInside(a: EventKey, b: EventKey)
    requires TwoReadings(a, b) && CutOf(b, 2) == CutOf(a, 2) && CutOf(b, 0) > CutOf(a, 1)
    ensures HoldsNumber(a)
  {
    hide CutOf, Join, KeyParts, Five, IntText, Rest, Holds;
    NamesPlain();
    Cuts(a, 1);
    Cuts(b, 0);
    Cuts(b, 1);
    var t, d, number := Join(KeyParts(a)), CutOf(b, 0), IntText(b.sequenceNo);
    var w := [US] + number + ([US] + NAMES[0]);
    StandsFirst(t, CutOf(b, 1), [US] + NAMES[0], RefValue(b.refs, 0)) by {
      assert [US] + Rest(b)[1] == ([US] + NAMES[0]) + RefValue(b.refs, 0);
    }
    StandsBoth(t, d, [US] + number, [US] + NAMES[0]);
    NamedEnds(b, a);
    InsideValue(t, CutOf(a, 1), NAMES[0], RefValue(a.refs, 0), d, w);
  }

  lemma NamedEnds(b: EventKey, a: EventKey)
    requires CutOf(b, 2) == CutOf(a, 2)
    ensures CutOf(b, 1) + 1 + |NAMES[0]| <= CutOf(a, 2)
  {
    hide CutOf, Join, KeyParts, Five, Rest;
    Cuts(b, 1);
  }

  lemma StandsBoth(t: string, e: int, v: string, w: string)
    requires StandsAt(t, e, v) && StandsAt(t, e + |v|, w)
    ensures StandsAt(t, e, v + w)
  {
    assert forall m | 0 <= m < |v| :: t[e + m] == t[e..e + |v|][m] == v[m];
    assert forall m | 0 <= m < |w| :: t[e + |v| + m] == t[e + |v|..e + |v| + |w|][m] == w[m];
    assert forall m | 0 <= m < |v + w| :: t[e..e + |v + w|][m] == t[e + m] == (v + w)[m];
  }

  lemma SamePart(a: EventKey, b: EventKey, i: nat)
    requires Join(KeyParts(a)) == Join(KeyParts(b)) && i < 7
    requires CutOf(b, i) == CutOf(a, i) && CutOf(b, i + 1) == CutOf(a, i + 1)
    ensures Rest(b)[i] == Rest(a)[i]
  {
    hide CutOf, Join, KeyParts, Five, Rest;
    Cuts(a, i);
    Cuts(b, i);
    assert [US] + Rest(a)[i] == [US] + Rest(b)[i];
    SplitSame([US], [US], Rest(a)[i], Rest(b)[i]);
  }

  lemma SameFront(a: EventKey, b: EventKey)
    requires TwoReadings(a, b) && CutOf(b, 0) == CutOf(a, 0)
    ensures Five(b) == Five(a)
  {
    hide CutOf, Join, KeyParts, Rest, Seps;
    FrontOf(a);
    FrontOf(b);
    JoinSeps(Five(a));
    JoinSeps(Five(b));
    TotalNone(Five(a));
    TotalNone(Five(b));
    JoinInjective(Five(a), Five(b));
  }

  lemma SameFields(a: EventKey, b: EventKey)
    requires Five(b) == Five(a) && Rest(b) == Rest(a)
    ensures SameKey(a, b)
  {
    assert Five(a)[0] == Five(b)[0] && Five(a)[1] == Five(b)[1] && Five(a)[2] == Five(b)[2];
    assert Five(a)[3] == Five(b)[3] && Five(a)[4] == Five(b)[4];
    assert Rest(a)[0] == Rest(b)[0] && Rest(a)[1..6] == Rest(b)[1..6] && Rest(a)[6] == Rest(b)[6];
    assert Rest(a)[1..6] == RefParts(a.refs) && Rest(b)[1..6] == RefParts(b.refs);
    IntTextInjective(a.sequenceNo, b.sequenceNo);
    RefPartsReadable(a.refs, b.refs);
  }

  lemma {:induction false} OneReading(a: EventKey, b: EventKey)
    requires TwoReadings(a, b) && Tight(a)
    ensures SameKey(a, b)
  {
    hide CutOf, Join, KeyParts, Five, Rest, HoldsName, HoldsNumber, SameKey;
    SameCuts(a, b);
    forall i | 0 <= i < 7 ensures Rest(b)[i] == Rest(a)[i] {
      if i == 6 {
        Cuts(a, 6);
        Cuts(b, 6);
      }
      SamePart(a, b, i);
    }
    SameFront(a, b);
    assert Rest(b) == Rest(a);
    SameFields(a, b);
  }

  // ----- such a reference makes another reading -----

  lemma SplitHeld(v: string, w: string) returns (x: string, y: string)
    requires Holds(v, w)
    ensures v == x + w + y
  {
    var e :| 0 <= e <= |v| && StandsAt(v, e, w);
    return v[..e], v[e + |w|..];
  }

  function WithRef(refs: Refs, i: nat, v: string): (r: Refs)
    requires i < 5
    ensures RefValue(r, i) == v && forall j | 0 <= j < 5 && j != i :: RefValue(r, j) == RefValue(refs, j)
  {
    match i
    case 0 => refs.(executionCardId := Some(v))
    case 1 => refs.(parentCardId := Some(v))
    case 2 => refs.(policyId := Some(v))
    case 3 => refs.(runId := Some(v))
    case _ => refs.(approvalId := Some(v))
  }

  // Two neighbouring references, other values for them that join to the same, and nothing else changed.
  lemma NeighboursMove(a: EventKey, i: nat, v: string, w: string) returns (b: EventKey)
    requires 1 <= i < 5
    requires v + ([US] + NAMES[i]) + w == RefValue(a.refs, i - 1) + ([US] + NAMES[i]) + RefValue(a.refs, i)
    requires v != RefValue(a.refs, i - 1)
    ensures b.payloadHash == a.payloadHash && !SameKey(a, b) && Join(KeyParts(b)) == Join(KeyParts(a))
  {
    hide Join, Fingerprint;
    b := a.(refs := WithRef(WithRef(a.refs, i - 1, v), i, w));
    assert RefValue(b.refs, i - 1) == v;
    NotSame(a, b, i - 1);
    SameFingerprint(a.refs, b.refs, i);
    assert KeyParts(b) == KeyParts(a);
  }

  lemma NotSame(a: EventKey, b: EventKey, i: nat)
    requires i < 5 && RefValue(a.refs, i) != RefValue(b.refs, i)
    ensures !SameKey(a, b)
  {
  }

  lemma SameFingerprint(a: Refs, b: Refs, i: nat)
    requires 1 <= i < 5 && forall j | 0 <= j < 5 && j != i - 1 && j != i :: RefValue(a, j) == RefValue(b, j)
    requires RefValue(b, i - 1) + ([US] + NAMES[i]) + RefValue(b, i) == RefValue(a, i - 1) + ([US] + NAMES[i]) + RefValue(a, i)
    ensures Fingerprint(b) == Fingerprint(a)
  {
    hide Join, RefValue, RefParts;
    forall j | 0 <= j < 5
      ensures RefParts(a)[j] == NAMES[j] + RefValue(a, j) && RefParts(b)[j] == NAMES[j] + RefValue(b, j)
    {
      RefPart(a, j);
      RefPart(b, j);
    }
    Regrouped(NAMES[i - 1], RefValue(a, i - 1), NAMES[i], RefValue(a, i));
    Regrouped(NAMES[i - 1], RefValue(b, i - 1), NAMES[i], RefValue(b, i));
    SameJoined(RefParts(a), RefParts(b), i);
  }

  lemma Regrouped(m: string, v: string, n: string, w: string)
    ensures (m + v) + [US] + (n + w) == m + (v + ([US] + n) + w)
  {
  }

  lemma SameJoined(xs: seq<string>, ys: seq<string>, i: nat)
    requires |xs| == |ys| && 1 <= i < |xs| && forall j | 0 <= j < |xs| && j != i - 1 && j != i :: xs[j] == ys[j]
    requires xs[i - 1] + [US] + xs[i] == ys[i - 1] + [US] + ys[i]
    ensures Join(ys) == Join(xs)
  {
    hide Join;
    JoinTwo(xs, i);
    JoinTwo(ys, i);
    assert xs[..i - 1] == ys[..i - 1] && xs[i + 1..] == ys[i + 1..];
  }

  // Two neighbours joined first.
  lemma {:induction false} JoinTwo(ps: seq<string>, i: nat)
    requires 1 <= i < |ps|
    ensures Join(ps) == Join(ps[..i - 1] + [ps[i - 1] + [US] + ps[i]] + ps[i + 1..])
    decreases i
  {
    var one := ps[i - 1] + [US] + ps[i];
    if i > 1 {
      JoinTwo(ps[1..], i - 1);
      var qs := ps[..i - 1] + [one] + ps[i + 1..];
      assert ps[1..][..i - 2] + [one] + ps[1..][i..] == qs[1..];
      assert Join(ps) == ps[0] + [US] + Join(ps[1..]) && Join(qs) == qs[0] + [US] + Join(qs[1..]);
    } else {
      assert ps[..0] + [one] + ps[2..] == [one] + ps[2..];
      if |ps| > 2 {
        assert Join(ps) == ps[0] + [US] + Join(ps[1..]) && Join(ps[1..]) == ps[1] + [US] + Join(ps[1..][1..]);
        assert ps[1..][1..] == ps[2..] && ([one] + ps[2..])[1..] == ps[2..];
        assert ps[0] + [US] + (ps[1] + [US] + Join(ps[2..])) == one + [US] + Join(ps[2..]);
      } else {
        assert ps[1..] == [ps[1]] && ps[2..] == [] && [one] + [] == [one];
      }
    }
  }

  lemma {:induction false} LastLonger(ps: seq<string>, x: string, w: string)
    ensures Join(ps + [x + w]) == Join(ps + [x]) + w
  {
    if ps == [] {
      assert [] + [x + w] == [x + w] && [] + [x] == [x];
    } else {
      LastLonger(ps[1..], x, w);
      assert (ps + [x + w])[1..] == ps[1..] + [x + w] && (ps + [x])[1..] == ps[1..] + [x];
      assert ps[0] + [US] + (Join(ps[1..] + [x]) + w) == (ps[0] + [US] + Join(ps[1..] + [x])) + w;
    }
  }

  function FirstRest(k: EventKey): string {
    [US] + IntText(k.sequenceNo) + ([US] + (NAMES[0] + RefValue(k.refs, 0)))
  }

  lemma TailOfRest(k: EventKey)
    ensures Tail(Rest(k)) == FirstRest(k) + Tail(Rest(k)[2..])
  {
    RefPart(k.refs, 0);
    var r := Rest(k);
    assert r[1] == RefParts(k.refs)[0] && r[1..][1..] == r[2..];
    assert Tail(r) == [US] + r[0] + Tail(r[1..]) && Tail(r[1..]) == [US] + r[1] + Tail(r[2..]);
    assert [US] + r[0] + ([US] + r[1] + Tail(r[2..])) == [US] + r[0] + ([US] + r[1]) + Tail(r[2..]);
  }

  // A number and the first name inside the first reference: everything before it can be the snapshot.
  lemma NumberMoves(a: EventKey, n: int) returns (b: EventKey)
    requires Holds(RefValue(a.refs, 0), [US] + IntText(n) + ([US] + NAMES[0]))
    ensures b.payloadHash == a.payloadHash && !SameKey(a, b) && Join(KeyParts(b)) == Join(KeyParts(a))
  {
    hide Join, IntText, Holds, KeyParts, Tail, Rest;
    var number := [US] + IntText(n) + ([US] + NAMES[0]);
    var x, y := SplitHeld(RefValue(a.refs, 0), number);
    var more := [US] + IntText(a.sequenceNo) + ([US] + (NAMES[0] + x));
    b := a.(snapshotId := a.snapshotId + more, sequenceNo := n, refs := WithRef(a.refs, 0, y));
    assert b.snapshotId != a.snapshotId;
    TextIsTail(a);
    TextIsTail(b);
    TailOfRest(a);
    TailOfRest(b);
    SameBehind(a, b);
    var four := Five(a)[..4];
    assert Five(a) == four + [a.snapshotId] && Five(b) == four + [b.snapshotId];
    LastLonger(four, a.snapshotId, more);
    assert more + FirstRest(b) == FirstRest(a) by { NumberRegroups(a, x, n, y); }
    assert Join(Five(a)) + more + (FirstRest(b) + Tail(Rest(b)[2..])) == Join(Five(a)) + (more + FirstRest(b)) + Tail(Rest(b)[2..]);
    assert Join(Five(a)) + (FirstRest(a) + Tail(Rest(a)[2..])) == Join(Five(a)) + FirstRest(a) + Tail(Rest(a)[2..]);
  }

  lemma NumberRegroups(a: EventKey, x: string, n: int, y: string)
    requires RefValue(a.refs, 0) == x + ([US] + IntText(n) + ([US] + NAMES[0])) + y
    ensures [US] + IntText(a.sequenceNo) + ([US] + (NAMES[0] + x)) + ([US] + IntText(n) + ([US] + (NAMES[0] + y)))
            == [US] + IntText(a.sequenceNo) + ([US] + (NAMES[0] + RefValue(a.refs, 0)))
  {
    hide IntText, RefValue;
  }

  lemma SameBehind(a: EventKey, b: EventKey)
    requires a.payloadHash == b.payloadHash && forall i | 1 <= i < 5 :: RefValue(a.refs, i) == RefValue(b.refs, i)
    ensures Rest(a)[2..] == Rest(b)[2..]
  {
    hide RefValue, IntText;
    forall i | 1 <= i < 5 ensures RefParts(a.refs)[i] == RefParts(b.refs)[i] {
      RefPart(a.refs, i);
      RefPart(b.refs, i);
    }
    forall i | 2 <= i < 7 ensures Rest(a)[i] == Rest(b)[i] {
      if i < 6 { assert Rest(a)[i] == RefParts(a.refs)[i - 1] && Rest(b)[i] == RefParts(b.refs)[i - 1]; }
    }
  }

  lemma NameMoves(a: EventKey, i: nat, own: bool) returns (b: EventKey)
    requires 1 <= i < 5 && HoldsName(a, if own then i else i - 1, i)
    ensures b.payloadHash == a.payloadHash && !SameKey(a, b) && Join(KeyParts(b)) == Join(KeyParts(a))
  {
    hide Join, KeyParts, Holds, RefValue, SameKey;
    var name, v, w := [US] + NAMES[i], RefValue(a.refs, i - 1), RefValue(a.refs, i);
    if own {
      var x, y := SplitHeld(w, name);
      assert (v + name + x) + name + y == v + name + (x + name + y);
      b := NeighboursMove(a, i, v + name + x, y);
    } else {
      var x, y := SplitHeld(v, name);
      assert x + name + (y + name + w) == (x + name + y) + name + w;
      b := NeighboursMove(a, i, x, y + name + w);
    }
  }

  // Exactly which ids of events are ambiguous among events whose payload hashes, as hashes do, hold no
  // separator: those with a separator in one of the first five fields, with a reference that holds a
  // separator and then its own name or that of the next reference, or with a first reference that
  // holds a number and then its own name between separators.
  lemma {:induction false} AmbiguousExact(a: EventKey)
    requires US !in a.payloadHash
    ensures (exists b: EventKey :: US !in b.payloadHash && !SameKey(a, b) && Join(KeyParts(b)) == Join(KeyParts(a)))
            <==> (exists i | 0 <= i < 5 :: US in Five(a)[i]) || !Tight(a)
  {
    hide Join, KeyParts, HoldsName, SameKey, RefValue;
    if i :| 0 <= i < 5 && US in Five(a)[i] {
      var b := SpreadFive(a, i);
    } else if HoldsNumber(a) {
      var n: int :| Holds(RefValue(a.refs, 0), [US] + IntText(n) + ([US] + NAMES[0]));
      var b := NumberMoves(a, n);
    } else if i :| 1 <= i < 5 && (HoldsName(a, i - 1, i) || HoldsName(a, i, i)) {
      var b := NameMoves(a, i, HoldsName(a, i, i));
    } else {
      hide HoldsNumber;
      assert Tight(a) && NoSeparator(Five(a));
      forall b: EventKey | US !in b.payloadHash && Join(KeyParts(b)) == Join(KeyParts(a)) ensures SameKey(a, b) {
        OneReading(a, b);
      }
    }
  }

  lemma SpreadFive(a: EventKey, i: nat) returns (b: EventKey)
    requires i < 5 && US in Five(a)[i] && US !in a.payloadHash
    ensures US !in b.payloadHash && !SameKey(a, b) && Join(KeyParts(b)) == Join(KeyParts(a))
  {
    b := EventIdAmbiguous(a, i);
  }
}
