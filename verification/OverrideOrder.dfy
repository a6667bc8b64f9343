// What the override verifier leaves open: the events of an accepted log, sealed again in another
// order, are an accepted log, so the verifier does not see that an approval came before the execution
// it allows.

module OverrideOrder {
  import opened Basics
  import opened JsonModel
  import opened OverrideSchema
  import opened OverrideChain

  // ----- sealing events again -----

  // The event under another link of the chain.
  function WithChain(j: Json, prev: string, hash: string): Json {
    if !j.Obj? || !Get(j.fields, "chain").Obj? then j
    else Obj(j.fields["chain" := Obj(Get(j.fields, "chain").fields["prev_hash" := Str(prev)]["hash" := Str(hash)])])
  }

  // The hash the event has to carry behind prev.
  function SealAfter(j: Json, prev: string, w: World): string {
    Seal(WithChain(j, prev, ""), prev, w)
  }

  // The events linked in the order they are given in.
  function Resealed(log: seq<Json>, prev: string, w: World): seq<Json> {
    if log == [] then []
    else [WithChain(log[0], prev, SealAfter(log[0], prev, w))] + Resealed(log[1..], SealAfter(log[0], prev, w), w)
  }

  // sha256_hex
  ghost predicate HexDigest(digest: string -> string) {
    forall text :: IsHex64(Str(digest(text)))
  }

  lemma SealIgnoresHash(j: Json, prev: string, hash: string, w: World)
    ensures Seal(WithChain(j, prev, hash), prev, w) == SealAfter(j, prev, w)
  {
    hide Print;
    if j.Obj? && Get(j.fields, "chain").Obj? {
      var chain := Get(j.fields, "chain").fields["prev_hash" := Str(prev)];
      assert chain["hash" := Str(hash)] - {"hash"} == chain["hash" := Str("")] - {"hash"};
      var f, g := j.fields["chain" := Obj(chain["hash" := Str(hash)])], j.fields["chain" := Obj(chain["hash" := Str("")])];
      var bare := Obj(chain["hash" := Str("")] - {"hash"});
      assert f["chain" := bare] == g["chain" := bare];
      assert Payload(WithChain(j, prev, hash)) == Payload(WithChain(j, prev, ""));
    }
  }

  ghost predicate LinkFormat(prev: string, hash: string) {
    (prev == GENESIS || IsHex64(Str(prev))) && IsHex64(Str(hash))
  }

  ghost predicate SameBody(f: map<string, Json>, g: map<string, Json>) {
    && Get(f, "type") == Get(g, "type") && Get(f, "ref_request_event_id") == Get(g, "ref_request_event_id")
    && Get(f, "approval") == Get(g, "approval") && Get(f, "request") == Get(g, "request")
    && Get(f, "ref_approval_event_id") == Get(g, "ref_approval_event_id") && Get(f, "execution") == Get(g, "execution")
  }

  lemma SameKind(f: map<string, Json>, g: map<string, Json>, clock: Clock)
    requires SameBody(f, g)
    ensures KindOf(f, clock) == KindOf(g, clock)
  {
    hide RequestOk, Expiry, ExecutionOk, NonEmpty, Get;
  }

  lemma OffChain(f: map<string, Json>, g: map<string, Json>)
    requires forall k | k != "chain" :: Get(f, k) == Get(g, k)
    ensures SameBody(f, g)
  {
    hide Get;
    OwnKeysDiffer();
    CommonKeysDiffer();
  }

  lemma SameCommon(f: map<string, Json>, g: map<string, Json>, clock: Clock)
    requires forall k | k != "chain" :: (k in f <==> k in g) && Get(f, k) == Get(g, k)
    requires CommonOk(f, clock) && ChainOk(Get(g, "chain"))
    ensures CommonOk(g, clock)
  {
    hide NonEmpty, ActorOk, TargetOk, NonEmptyTexts, AuthOk, IsHex64, ChainOk, Get;
    CommonKeysDiffer();
  }

  lemma DecodeWithChain(j: Json, prev: string, hash: string, clock: Clock)
    requires Decode(j, clock).Some? && LinkFormat(prev, hash)
    ensures Decode(WithChain(j, prev, hash), clock) == Some(Decode(j, clock).value.(prev := prev, hash := hash))
  {
    hide KindOf, CommonOk, Instant, IsHex64, SameBody;
    var f, chain := j.fields, Get(j.fields, "chain").fields["prev_hash" := Str(prev)]["hash" := Str(hash)];
    var g := f["chain" := Obj(chain)];
    InnerKeysDiffer();
    assert ChainOk(Get(g, "chain"));
    assert forall k | k != "chain" :: (k in f <==> k in g) && Get(f, k) == Get(g, k);
    OffChain(f, g);
    SameKind(f, g, clock);
    SameCommon(f, g, clock);
    CommonKeysDiffer();
  }

  // ----- the events sealed again -----

  // What an event says, without its place in the chain.
  ghost function Bare(e: Event): Event {
    e.(prev := "", hash := "")
  }

  ghost predicate SameEvents(es: seq<Event>, fs: seq<Event>) {
    |es| == |fs| && forall i | 0 <= i < |es| :: Bare(es[i]) == Bare(fs[i])
  }

  ghost predicate LinkedFrom(log: seq<Json>, es: seq<Event>, prev: string, w: World) {
    |log| == |es| && forall i: nat | i < |log| :: LinkedBehind(log, es, prev, i, w)
  }

  ghost predicate LinkedBehind(log: seq<Json>, es: seq<Event>, prev: string, i: nat, w: World)
    requires i < |log| && i < |es|
  {
    && es[i].prev == (if i == 0 then prev else es[i - 1].hash)
    && es[i].hash == Seal(log[i], es[i].prev, w)
  }

  // The decoded events of Resealed(log, prev, w).
  ghost function Moved(log: seq<Json>, es: seq<Event>, prev: string, w: World): (fs: seq<Event>)
    requires |es| == |log|
    ensures SameEvents(fs, es)
  {
    if log == [] then []
    else
      var hash := SealAfter(log[0], prev, w);
      [es[0].(prev := prev, hash := hash)] + Moved(log[1..], es[1..], hash, w)
  }

  ghost predicate DecodesTo(log: seq<Json>, es: seq<Event>, clock: Clock) {
    |log| == |es| && forall i | 0 <= i < |log| :: Decode(log[i], clock) == Some(es[i])
  }

  lemma {:induction false} ResealedDecodes(log: seq<Json>, es: seq<Event>, prev: string, clock: Clock, digest: string -> string)
    requires DecodesTo(log, es, clock) && HexDigest(digest) && (prev == GENESIS || IsHex64(Str(prev)))
    ensures var w := OverrideWorld(clock, digest);
            DecodesTo(Resealed(log, prev, w), Moved(log, es, prev, w), clock)
  {
    hide Decode, IsHex64, WithChain;
    var w := OverrideWorld(clock, digest);
    if log != [] {
      var hash := SealAfter(log[0], prev, w);
      assert IsHex64(Str(hash));
      ResealedDecodes(log[1..], es[1..], hash, clock, digest);
      DecodeWithChain(log[0], prev, hash, clock);
    }
  }

  lemma LinkedCons(j: Json, log: seq<Json>, e: Event, es: seq<Event>, w: World)
    requires LinkedFrom(log, es, e.hash, w) && e.hash == Seal(j, e.prev, w)
    ensures LinkedFrom([j] + log, [e] + es, e.prev, w)
  {
    hide Seal;
    var more, ms := [j] + log, [e] + es;
    forall i: nat | i < |more| ensures LinkedBehind(more, ms, e.prev, i, w) {
      if i > 0 { assert LinkedBehind(log, es, e.hash, i - 1, w); }
    }
  }

  lemma {:induction false} ResealedLinks(log: seq<Json>, es: seq<Event>, prev: string, w: World)
    requires |es| == |log|
    ensures LinkedFrom(Resealed(log, prev, w), Moved(log, es, prev, w), prev, w)
  {
    hide Seal, WithChain, SealAfter, LinkedFrom;
    if log == [] {
      NothingLinked(prev, w);
    } else {
      var hash := SealAfter(log[0], prev, w);
      ResealedLinks(log[1..], es[1..], hash, w);
      SealIgnoresHash(log[0], prev, hash, w);
      LinkedCons(WithChain(log[0], prev, hash), Resealed(log[1..], hash, w),
                 es[0].(prev := prev, hash := hash), Moved(log[1..], es[1..], hash, w), w);
    }
  }

  lemma NothingLinked(prev: string, w: World)
    ensures LinkedFrom([], [], prev, w)
  {
  }

  // The references of an event and their counterparts only depend on what the events say.
  lemma SameRefs(es: seq<Event>, fs: seq<Event>, e: Event, f: Event)
    requires SameEvents(es, fs) && Bare(e) == Bare(f)
    ensures RefsHold(es, e) ==> RefsHold(fs, f)
  {
    if RefsHold(es, e) && !e.kind.Requested? {
      var i :| IsRequest(es, i, e.kind.request) && (e.kind.Executed? || es[i].subject != e.subject);
      assert Bare(es[i]) == Bare(fs[i]);
      assert IsRequest(fs, i, e.kind.request);
      if e.kind.Executed? {
        var j :| IsApproval(es, j, e.kind.approval, e.kind.request) && e.ts <= es[j].kind.expires;
        assert Bare(es[j]) == Bare(fs[j]);
        assert IsApproval(fs, j, e.kind.approval, e.kind.request);
      }
    }
  }

  // The part of Sound that is not about hashes.
  ghost predicate Coherent(es: seq<Event>) {
    es != [] && UniqueIds(es) && forall i | 0 <= i < |es| :: RefsHold(es, es[i])
  }

  lemma SameCoherent(es: seq<Event>, fs: seq<Event>)
    requires SameEvents(es, fs) && Coherent(es)
    ensures Coherent(fs)
  {
    forall i, j | 0 <= i < j < |fs| ensures fs[i].id != fs[j].id {
      assert Bare(es[i]) == Bare(fs[i]) && Bare(es[j]) == Bare(fs[j]);
    }
    forall i | 0 <= i < |fs| ensures RefsHold(fs, fs[i]) {
      SameRefs(es, fs, es[i], fs[i]);
    }
  }

  ghost predicate Valid(log: seq<Json>, clock: Clock) {
    forall i | 0 <= i < |log| :: Decode(log[i], clock).Some?
  }

  ghost function Events(log: seq<Json>, clock: Clock): (es: seq<Event>)
    requires Valid(log, clock)
    ensures DecodesTo(log, es, clock)
  {
    seq(|log|, i requires 0 <= i < |log| && Valid(log, clock) => Decode(log[i], clock).value)
  }

  // A log is sound when its events are linked and coherent.
  lemma SoundParts(log: seq<Json>, es: seq<Event>, clock: Clock, digest: string -> string)
    requires DecodesTo(log, es, clock)
    ensures var w := OverrideWorld(clock, digest);
            && (Sound(log, w) <==> LinkedFrom(log, es, GENESIS, w) && Coherent(es))
            && (AllValid(log, w) && Decoded(log, w) == es)
  {
    hide Decode, RefsHold, Seal;
    var w := OverrideWorld(clock, digest);
    assert forall i | 0 <= i < |log| :: w.decode(log[i]) == Some(es[i]);
    assert Decoded(log, w) == es;
    if LinkedFrom(log, es, GENESIS, w) {
      forall i: nat | i < |log| ensures LinkedAt(log, es, i, w) {
        assert LinkedBehind(log, es, GENESIS, i, w);
      }
    }
    if Linked(log, es, w) {
      forall i: nat | i < |log| ensures LinkedBehind(log, es, GENESIS, i, w) {
        assert LinkedAt(log, es, i, w);
      }
    }
  }

  // Valid events, sealed in the order they stand in, are accepted exactly when they are coherent.
  lemma {:induction false} ResealedSound(log: seq<Json>, clock: Clock, digest: string -> string)
    requires Valid(log, clock) && HexDigest(digest)
    ensures var w := OverrideWorld(clock, digest);
            Sound(Resealed(log, GENESIS, w), w) <==> Coherent(Events(log, clock))
    ensures var w := OverrideWorld(clock, digest);
            var sealed := Resealed(log, GENESIS, w);
            |sealed| == |log| && AllValid(sealed, w) && SameEvents(Decoded(sealed, w), Events(log, clock))
  {
    hide Decode, Coherent, HexDigest, Sound, LinkedFrom;
    var w, es := OverrideWorld(clock, digest), Events(log, clock);
    var sealed, fs := Resealed(log, GENESIS, w), Moved(log, es, GENESIS, w);
    ResealedDecodes(log, es, GENESIS, clock, digest);
    ResealedLinks(log, es, GENESIS, w);
    SoundParts(sealed, fs, clock, digest);
    if Coherent(es) { SameCoherent(es, fs); }
    if Coherent(fs) { SameCoherent(fs, es); }
  }

  // ----- other orders -----

  // order names every position below n once.
  ghost predicate Order(order: seq<nat>, n: nat) {
    |order| == n && OrderFits(order, n) && Distinct(order) && forall k: nat | k < n :: k in order
  }

  ghost predicate OrderFits(order: seq<nat>, n: nat) {
    forall i | 0 <= i < |order| :: order[i] < n
  }

  lemma OrderFitsIt(order: seq<nat>, n: nat)
    requires Order(order, n)
    ensures OrderFits(order, n) && |order| == n
  {
  }

  ghost function Reordered<T>(s: seq<T>, order: seq<nat>): (r: seq<T>)
    requires OrderFits(order, |s|)
    ensures |r| == |order| && forall i | 0 <= i < |r| :: r[i] == s[order[i]]
  {
    seq(|order|, i requires 0 <= i < |order| && OrderFits(order, |s|) => s[order[i]])
  }

  lemma PlaceOf(es: seq<Event>, order: seq<nat>, k: nat) returns (i: nat)
    requires Order(order, |es|) && k < |es|
    ensures i < |order| && order[i] == k && Reordered(es, order)[i] == es[k]
  {
    assert k in order;
    i :| i < |order| && order[i] == k;
  }

  lemma ReorderedIds(es: seq<Event>, order: seq<nat>)
    requires Order(order, |es|)
    ensures UniqueIds(Reordered(es, order)) <==> UniqueIds(es)
  {
    var fs := Reordered(es, order);
    if UniqueIds(fs) {
      forall k, l | 0 <= k < l < |es| ensures es[k].id != es[l].id {
        var i := PlaceOf(es, order, k);
        var j := PlaceOf(es, order, l);
        assert i < j || j < i;
      }
    }
    if UniqueIds(es) {
      forall i, j | 0 <= i < j < |fs| ensures fs[i].id != fs[j].id {
        assert order[i] < order[j] || order[j] < order[i];
      }
    }
  }

  lemma ReorderedElements(es: seq<Event>, order: seq<nat>)
    requires Order(order, |es|)
    ensures forall e :: e in es <==> e in Reordered(es, order)
  {
    forall k: nat | k < |es| ensures es[k] in Reordered(es, order) {
      var i := PlaceOf(es, order, k);
    }
  }

  lemma ReorderedCoherent(es: seq<Event>, order: seq<nat>)
    requires Order(order, |es|)
    ensures Coherent(Reordered(es, order)) <==> Coherent(es)
  {
    hide RefsHold, UniqueIds, Order;
    OrderFitsIt(order, |es|);
    var fs := Reordered(es, order);
    ReorderedIds(es, order);
    ReorderedElements(es, order);
    forall e ensures RefsHold(es, e) <==> RefsHold(fs, e) {
      RefsInclude(es, fs, e);
      RefsInclude(fs, es, e);
    }
    SameAll(es, fs);
    SameAll(fs, es);
  }

  lemma SameAll(es: seq<Event>, fs: seq<Event>)
    requires forall e :: e in fs ==> e in es
    requires forall e :: RefsHold(es, e) <==> RefsHold(fs, e)
    ensures (forall i | 0 <= i < |es| :: RefsHold(es, es[i])) ==> forall i | 0 <= i < |fs| :: RefsHold(fs, fs[i])
  {
    hide RefsHold;
    if forall i | 0 <= i < |es| :: RefsHold(es, es[i]) {
      forall i | 0 <= i < |fs| ensures RefsHold(fs, fs[i]) {
        assert fs[i] in es;
      }
    }
  }

  // Valid events are accepted in any order, once sealed in it, exactly when they are in the order given.
  lemma {:induction false} OrderDoesNotMatter(log: seq<Json>, order: seq<nat>, clock: Clock, digest: string -> string)
    requires Valid(log, clock) && HexDigest(digest) && Order(order, |log|)
    ensures var w := OverrideWorld(clock, digest);
            Sound(Resealed(Reordered(log, order), GENESIS, w), w) <==> Sound(Resealed(log, GENESIS, w), w)
  {
    hide Decode, Coherent, HexDigest, Sound;
    var es := Events(log, clock);
    var moved := Reordered(log, order);
    assert Valid(moved, clock);
    assert Events(moved, clock) == Reordered(es, order);
    ResealedSound(log, clock, digest);
    ResealedSound(moved, clock, digest);
    ReorderedCoherent(es, order);
  }

  // The events of an accepted log, sealed in any order, are an accepted log that says the same.
  lemma {:induction false} AnyOrderAccepted(log: seq<Json>, order: seq<nat>, clock: Clock, digest: string -> string)
    requires Sound(log, OverrideWorld(clock, digest)) && HexDigest(digest) && Order(order, |log|)
    ensures var w := OverrideWorld(clock, digest);
            var sealed := Resealed(Reordered(log, order), GENESIS, w);
            Sound(sealed, w) && SameEvents(Decoded(sealed, w), Reordered(Decoded(log, w), order))
  {
    hide Decode, Coherent, HexDigest, LinkedFrom;
    var w := OverrideWorld(clock, digest);
    assert forall i | 0 <= i < |log| :: w.decode(log[i]).Some?;
    assert Valid(log, clock);
    var es, moved := Events(log, clock), Reordered(log, order);
    SoundParts(log, es, clock, digest);
    assert Valid(moved, clock);
    assert Events(moved, clock) == Reordered(es, order);
    ResealedSound(moved, clock, digest);
    ReorderedCoherent(es, order);
  }

  // ----- sealing again changes nothing that was sealed -----

  lemma ChainKept(j: Json, clock: Clock)
    requires Decode(j, clock).Some?
    ensures WithChain(j, Decode(j, clock).value.prev, Decode(j, clock).value.hash) == j
  {
    hide KindOf, CommonOk, Instant, IsHex64;
    var e, f := Decode(j, clock).value, j.fields;
    var c := Get(f, "chain").fields;
    assert c["prev_hash" := Str(e.prev)]["hash" := Str(e.hash)] == c;
    assert f["chain" := Obj(c)] == f;
  }

  lemma LinkedTail(log: seq<Json>, es: seq<Event>, prev: string, w: World)
    requires LinkedFrom(log, es, prev, w) && log != []
    ensures es[0].prev == prev && es[0].hash == Seal(log[0], prev, w)
    ensures LinkedFrom(log[1..], es[1..], es[0].hash, w)
  {
    hide Seal;
    assert LinkedBehind(log, es, prev, 0, w);
    forall i: nat | i < |log| - 1 ensures LinkedBehind(log[1..], es[1..], es[0].hash, i, w) {
      assert LinkedBehind(log, es, prev, i + 1, w);
    }
  }

  lemma {:induction false} ResealedSame(log: seq<Json>, es: seq<Event>, prev: string, clock: Clock, digest: string -> string)
    requires DecodesTo(log, es, clock) && LinkedFrom(log, es, prev, OverrideWorld(clock, digest))
    ensures Resealed(log, prev, OverrideWorld(clock, digest)) == log
  {
    hide Decode, Seal, WithChain, SealAfter, LinkedFrom;
    var w := OverrideWorld(clock, digest);
    if log != [] {
      LinkedTail(log, es, prev, w);
      ChainKept(log[0], clock);
      SealIgnoresHash(log[0], prev, es[0].hash, w);
      ResealedSame(log[1..], es[1..], es[0].hash, clock, digest);
    }
  }

  // An accepted log is what sealing its own events gives.
  lemma {:induction false} AcceptedIsSealed(log: seq<Json>, clock: Clock, digest: string -> string)
    requires Sound(log, OverrideWorld(clock, digest))
    ensures Resealed(log, GENESIS, OverrideWorld(clock, digest)) == log
  {
    hide Decode, Coherent, LinkedFrom;
    var w := OverrideWorld(clock, digest);
    assert forall i | 0 <= i < |log| :: w.decode(log[i]).Some?;
    SoundParts(log, Events(log, clock), clock, digest);
    ResealedSame(log, Events(log, clock), GENESIS, clock, digest);
  }

  // ----- when the order is sure -----

  // e names the event d.
  predicate Names(e: Event, d: Event) {
    match e.kind
    case Requested => false
    case Approved(request, _) => d.id == request
    case Rejected(request) => d.id == request
    case Executed(request, approval) => d.id == request || d.id == approval
  }

  // Whatever an event names stands before it.
  ghost predicate NamedFirst(es: seq<Event>) {
    forall i, k | 0 <= i < |es| && 0 <= k < |es| && Names(es[k], es[i]) :: i < k
  }

  lemma SameNamed(es: seq<Event>, fs: seq<Event>)
    requires SameEvents(es, fs) && NamedFirst(es)
    ensures NamedFirst(fs)
  {
    forall i, k | 0 <= i < |fs| && 0 <= k < |fs| && Names(fs[k], fs[i]) ensures i < k {
      assert Bare(es[i]) == Bare(fs[i]) && Bare(es[k]) == Bare(fs[k]);
      assert Names(es[k], es[i]);
    }
  }

  function Forward(n: nat): seq<nat> {
    seq(n, i requires 0 <= i < n => i)
  }

  function Backward(n: nat): seq<nat> {
    seq(n, i requires 0 <= i < n => n - 1 - i)
  }

  lemma BothAreOrders(n: nat)
    ensures Order(Forward(n), n) && Order(Backward(n), n)
  {
    forall k: nat | k < n ensures k in Forward(n) && k in Backward(n) {
      assert Forward(n)[k] == k && Backward(n)[n - 1 - k] == k;
    }
  }

  // In one of the two orders an event that names another comes first.
  lemma SomeOrderFails(es: seq<Event>, k: nat)
    requires Coherent(es) && k < |es| && !es[k].kind.Requested?
    ensures !NamedFirst(Reordered(es, Forward(|es|))) || !NamedFirst(Reordered(es, Backward(|es|)))
  {
    assert RefsHold(es, es[k]);
    var n, i :=  |es|, RequestOf(es, es[k]);
    assert Names(es[k], es[i]) && i != k;
    var fs, gs := Reordered(es, Forward(n)), Reordered(es, Backward(n));
    assert Names(fs[k], fs[i]) && Names(gs[n - 1 - k], gs[n - 1 - i]);
  }

  ghost function RequestOf(es: seq<Event>, e: Event): (i: int)
    requires RefsHold(es, e) && !e.kind.Requested?
    ensures IsRequest(es, i, e.kind.request)
  {
    var i :| IsRequest(es, i, e.kind.request);
    i
  }

  // The events of an accepted log keep what they name before them in every order they can be sealed
  // in exactly when all of them are requests.
  lemma {:induction false} OrderSureExact(log: seq<Json>, clock: Clock, digest: string -> string)
    requires Sound(log, OverrideWorld(clock, digest)) && HexDigest(digest)
    ensures var w := OverrideWorld(clock, digest);
            (forall order | Order(order, |log|) :: SealedNamedFirst(log, order, w))
            <==> forall i | 0 <= i < |log| :: Decoded(log, w)[i].kind.Requested?
  {
    hide Decode, Coherent, HexDigest, NamedFirst, Order, Names;
    var w := OverrideWorld(clock, digest);
    var es := Decoded(log, w);
    assert forall i | 0 <= i < |log| :: w.decode(log[i]).Some?;
    SoundParts(log, es, clock, digest);
    forall order | Order(order, |log|)
      ensures OrderFits(order, |log|) && (SealedNamedFirst(log, order, w) <==> NamedFirst(Reordered(es, order)))
    {
      SealedNames(log, order, clock, digest);
    }
    BothAreOrders(|log|);
    forall k: nat | k < |log| && !es[k].kind.Requested?
      ensures exists order :: Order(order, |log|) && !SealedNamedFirst(log, order, w)
    {
      SomeOrderFails(es, k);
      assert !SealedNamedFirst(log, Forward(|log|), w) || !SealedNamedFirst(log, Backward(|log|), w);
    }
    if forall i | 0 <= i < |log| :: es[i].kind.Requested? {
      RequestsNameNothing(es);
    }
  }

  // The log sealed in the order keeps what an event names before it.
  ghost predicate SealedNamedFirst(log: seq<Json>, order: seq<nat>, w: World) {
    OrderFits(order, |log|) ==>
      var sealed := Resealed(Reordered(log, order), GENESIS, w);
      AllValid(sealed, w) && NamedFirst(Decoded(sealed, w))
  }

  lemma SealedNames(log: seq<Json>, order: seq<nat>, clock: Clock, digest: string -> string)
    requires Sound(log, OverrideWorld(clock, digest)) && HexDigest(digest) && Order(order, |log|)
    ensures var w := OverrideWorld(clock, digest);
            OrderFits(order, |log|) && (SealedNamedFirst(log, order, w) <==> NamedFirst(Reordered(Decoded(log, w), order)))
  {
    hide Decode, HexDigest, NamedFirst, Order, Names;
    OrderFitsIt(order, |log|);
    AnyOrderAccepted(log, order, clock, digest);
    var w := OverrideWorld(clock, digest);
    SealedSame(log, order, Decoded(log, w), w);
  }

  lemma SealedSame(log: seq<Json>, order: seq<nat>, es: seq<Event>, w: World)
    requires OrderFits(order, |log|) && |es| == |log|
    requires var sealed := Resealed(Reordered(log, order), GENESIS, w);
             AllValid(sealed, w) && SameEvents(Decoded(sealed, w), Reordered(es, order))
    ensures SealedNamedFirst(log, order, w) <==> NamedFirst(Reordered(es, order))
  {
    hide NamedFirst, Resealed;
    var fs, gs := Decoded(Resealed(Reordered(log, order), GENESIS, w), w), Reordered(es, order);
    if NamedFirst(fs) { SameNamed(fs, gs); }
    if NamedFirst(gs) { SameNamed(gs, fs); }
  }

  lemma RequestsNameNothing(es: seq<Event>)
    requires forall i | 0 <= i < |es| :: es[i].kind.Requested?
    ensures forall order | OrderFits(order, |es|) :: NamedFirst(Reordered(es, order))
  {
  }

  // ----- when an override was executed -----

  // The event under another time.
  function WithTime(j: Json, stamp: string): Json {
    if !j.Obj? then j else Obj(j.fields["ts" := Str(stamp)])
  }

  lemma OffTime(f: map<string, Json>, stamp: string)
    ensures var g := f["ts" := Str(stamp)];
            && SameBody(f, g) && Get(g, "chain") == Get(f, "chain") && ("auth" in f <==> "auth" in g)
            && Get(g, "event_id") == Get(f, "event_id") && Get(g, "actor") == Get(f, "actor")
            && Get(g, "policy_sha256") == Get(f, "policy_sha256") && Get(g, "target") == Get(f, "target")
            && Get(g, "evidence_refs") == Get(f, "evidence_refs") && Get(g, "auth") == Get(f, "auth")
  {
    CommonKeysDiffer();
    OwnKeysDiffer();
  }

  lemma DecodeWithTime(j: Json, stamp: string, clock: Clock)
    requires Decode(j, clock).Some? && Instant(Str(stamp), clock).Some?
    ensures Decode(WithTime(j, stamp), clock) == Some(Decode(j, clock).value.(ts := Instant(Str(stamp), clock).value))
  {
    hide KindOf, Instant, IsHex64, SameBody, NonEmpty, TargetOk, NonEmptyTexts, AuthOk, ActorOk, ChainOk;
    var f, g := j.fields, j.fields["ts" := Str(stamp)];
    OffTime(f, stamp);
    SameKind(f, g, clock);
  }

  // An execution neither requests nor approves: its time concerns itself alone.
  lemma SameButTime(es: seq<Event>, k: nat, t: int, e: Event)
    requires k < |es| && es[k].kind.Executed?
    ensures RefsHold(es, e) <==> RefsHold(es[k := es[k].(ts := t)], e)
  {
    var fs := es[k := es[k].(ts := t)];
    forall i, id ensures IsRequest(es, i, id) <==> IsRequest(fs, i, id) {}
    forall i, id, request ensures IsApproval(es, i, id, request) <==> IsApproval(fs, i, id, request) {}
  }

  lemma RetimedCoherent(es: seq<Event>, i: int, j: int, k: nat, t: int)
    requires Coherent(es) && k < |es| && Authorised(es, es[k], i, j)
    ensures Coherent(es[k := es[k].(ts := t)]) <==> t <= es[j].kind.expires
  {
    hide RefsHold;
    var e, fs := es[k].(ts := t), es[k := es[k].(ts := t)];
    RetimedRefs(es, i, j, k, t);
    forall l | 0 <= l < |fs| ensures RefsHold(fs, fs[l]) <==> (l == k ==> t <= es[j].kind.expires) {
      SameButTime(es, k, t, fs[l]);
      if l != k { assert RefsHold(es, es[l]); }
    }
    assert RefsHold(fs, fs[k]) <==> t <= es[j].kind.expires;
    assert UniqueIds(fs);
  }

  lemma RetimedRefs(es: seq<Event>, i: int, j: int, k: nat, t: int)
    requires UniqueIds(es) && k < |es| && Authorised(es, es[k], i, j)
    ensures RefsHold(es, es[k].(ts := t)) <==> t <= es[j].kind.expires
  {
    assert IsRequest(es, i, es[k].kind.request);
    assert IsApproval(es, j, es[k].kind.approval, es[k].kind.request);
  }

  // The time of an execution, set to anything and sealed again, is accepted exactly up to the end of
  // its approval: it may lie before the approval, and before the request.
  lemma {:induction false} ExecutionTimeExact(log: seq<Json>, i: int, j: int, k: nat, stamp: string, clock: Clock, digest: string -> string)
    requires Sound(log, OverrideWorld(clock, digest)) && HexDigest(digest)
    requires var es := Decoded(log, OverrideWorld(clock, digest)); k < |es| && Authorised(es, es[k], i, j)
    requires Instant(Str(stamp), clock).Some?
    ensures var w := OverrideWorld(clock, digest);
            Sound(Resealed(log[k := WithTime(log[k], stamp)], GENESIS, w), w)
            <==> Instant(Str(stamp), clock).value <= Decoded(log, w)[j].kind.expires
  {
    hide Decode, Coherent, HexDigest, LinkedFrom, Instant, Linked, UniqueIds, RefsHold;
    var w, t := OverrideWorld(clock, digest), Instant(Str(stamp), clock).value;
    var es, late := Decoded(log, w), log[k := WithTime(log[k], stamp)];
    assert forall l | 0 <= l < |log| :: w.decode(log[l]) == Some(es[l]);
    SoundParts(log, es, clock, digest);
    DecodeWithTime(log[k], stamp, clock);
    assert DecodesTo(late, es[k := es[k].(ts := t)], clock);
    assert Valid(late, clock) && Events(late, clock) == es[k := es[k].(ts := t)];
    ResealedSound(late, clock, digest);
    RetimedCoherent(es, i, j, k, t);
  }

  // ----- an accepted log in the wrong order -----

  function Zeros(): string {
    seq(64, i => '0')
  }

  // The fields every event has, whatever its type; the chain is a placeholder.
  function Common(kind: string, id: string, subject: string, stamp: string): map<string, Json> {
    map["type" := Str(kind), "ts" := Str(stamp), "event_id" := Str(id),
        "actor" := Obj(map["role" := Str("operator"), "subject" := Str(subject)]),
        "policy_sha256" := Str(Zeros()),
        "target" := Obj(map["decision_event_id" := Str("decision"), "decision_hash" := Str(Zeros())]),
        "evidence_refs" := Arr([Str("evidence")]),
        "chain" := Obj(map["prev_hash" := Str(GENESIS), "hash" := Str(Zeros())]),
        "auth" := Null]
  }

  function AsRequest(id: string, subject: string, stamp: string): Json {
    Obj(Common("OVERRIDE_REQUESTED", id, subject, stamp)["request" := Obj(map[
      "requested_action" := Str("force_flat"), "reason_code" := Str("OTHER"), "reason_text" := Str("reason"),
      "ttl_sec" := Int(60)])])
  }

  function AsApproval(id: string, subject: string, stamp: string, request: string, expires: string): Json {
    Obj(Common("OVERRIDE_APPROVED", id, subject, stamp)["ref_request_event_id" := Str(request)]["approval" := Obj(map[
      "decision" := Str("approved"), "constraints" := Limits(expires)])])
  }

  function Limits(expires: string): Json {
    Obj(map["scope" := Arr([Str("all")]), "expires_at" := Str(expires), "max_notional" := Int(0)])
  }

  function AsExecution(id: string, subject: string, stamp: string, request: string, approval: string): Json {
    Obj(Common("OVERRIDE_EXECUTED", id, subject, stamp)["ref_request_event_id" := Str(request)]["ref_approval_event_id" := Str(approval)]
        ["execution" := Effect()])
  }

  function Effect(): Json {
    Obj(map["effect" := Str("flattened"), "execution_intent_id" := Str("intent")])
  }

  lemma ZerosAreHex()
    ensures IsHex64(Str(Zeros()))
  {
  }

  lemma CommonFields(kind: string, id: string, subject: string, stamp: string)
    ensures var f := Common(kind, id, subject, stamp);
            && "auth" in f && Get(f, "auth") == Null && Get(f, "type") == Str(kind) && Get(f, "ts") == Str(stamp)
            && Get(f, "event_id") == Str(id) && Get(f, "policy_sha256") == Str(Zeros())
            && Get(f, "actor") == Obj(map["role" := Str("operator"), "subject" := Str(subject)])
            && Get(f, "target") == Obj(map["decision_event_id" := Str("decision"), "decision_hash" := Str(Zeros())])
            && Get(f, "evidence_refs") == Arr([Str("evidence")])
            && Get(f, "chain") == Obj(map["prev_hash" := Str(GENESIS), "hash" := Str(Zeros())])
  {
    hide Zeros;
    CommonKeysDiffer();
  }

  lemma CommonIsOk(kind: string, id: string, subject: string, stamp: string, clock: Clock)
    requires id != "" && subject != ""
    ensures CommonOk(Common(kind, id, subject, stamp), clock)
  {
    hide Common, Zeros;
    CommonFields(kind, id, subject, stamp);
    ZerosAreHex();
    InnerKeysDiffer();
  }

  ghost predicate SameHead(f: map<string, Json>, g: map<string, Json>) {
    && ("auth" in f <==> "auth" in g) && Get(f, "auth") == Get(g, "auth") && Get(f, "type") == Get(g, "type")
    && Get(f, "ts") == Get(g, "ts") && Get(f, "event_id") == Get(g, "event_id") && Get(f, "actor") == Get(g, "actor")
    && Get(f, "policy_sha256") == Get(g, "policy_sha256") && Get(f, "target") == Get(g, "target")
    && Get(f, "evidence_refs") == Get(g, "evidence_refs") && Get(f, "chain") == Get(g, "chain")
  }

  lemma AddField(f: map<string, Json>, key: string, value: Json)
    requires key in ["request", "ref_request_event_id", "approval", "ref_approval_event_id", "execution"]
    ensures SameHead(f, f[key := value])
  {
    OwnKeysDiffer();
  }

  // An event with the common fields and a body of its kind is valid.
  lemma CommonDecodes(f: map<string, Json>, kind: string, id: string, subject: string, stamp: string, body: Kind, clock: Clock)
    requires id != "" && subject != "" && Instant(Str(stamp), clock).Some?
    requires SameHead(Common(kind, id, subject, stamp), f) && KindOf(f, clock) == Some(body)
    ensures Decode(Obj(f), clock) == Some(Event(id, subject, Instant(Str(stamp), clock).value, body, GENESIS, Zeros()))
  {
    hide Common, Zeros, KindOf, Instant, NonEmpty, ActorOk, TargetOk, NonEmptyTexts, ChainOk, AuthOk;
    CommonFields(kind, id, subject, stamp);
    CommonIsOk(kind, id, subject, stamp, clock);
    assert CommonOk(f, clock);
    InnerKeysDiffer();
  }

  lemma RequestDecodes(id: string, subject: string, stamp: string, clock: Clock)
    requires id != "" && subject != "" && Instant(Str(stamp), clock).Some?
    ensures Decode(AsRequest(id, subject, stamp), clock)
            == Some(Event(id, subject, Instant(Str(stamp), clock).value, Requested, GENESIS, Zeros()))
  {
    hide Common, Zeros, Instant, Decode;
    var f := Common("OVERRIDE_REQUESTED", id, subject, stamp);
    var g := AsRequest(id, subject, stamp).fields;
    CommonFields("OVERRIDE_REQUESTED", id, subject, stamp);
    AddField(f, "request", g["request"]);
    InnerKeysDiffer();
    CommonDecodes(g, "OVERRIDE_REQUESTED", id, subject, stamp, Requested, clock);
  }

  lemma LimitsEnd(expires: string, clock: Clock)
    ensures Expiry(Limits(expires), clock) == Instant(Str(expires), clock)
  {
    hide Instant;
    InnerKeysDiffer();
  }

  lemma EffectIsOk()
    ensures ExecutionOk(Effect())
  {
    InnerKeysDiffer();
  }

  lemma ApprovalDecodes(id: string, subject: string, stamp: string, request: string, expires: string, clock: Clock)
    requires id != "" && subject != "" && request != "" && Instant(Str(stamp), clock).Some? && Instant(Str(expires), clock).Some?
    ensures Decode(AsApproval(id, subject, stamp, request, expires), clock)
            == Some(Event(id, subject, Instant(Str(stamp), clock).value,
                          Approved(request, Instant(Str(expires), clock).value), GENESIS, Zeros()))
  {
    hide Common, Zeros, Instant, Decode, Expiry, Limits, ExecutionOk, Effect, RequestOk, CommonOk, Names;
    var f := Common("OVERRIDE_APPROVED", id, subject, stamp);
    var g := AsApproval(id, subject, stamp, request, expires).fields;
    CommonFields("OVERRIDE_APPROVED", id, subject, stamp);
    AddField(f, "ref_request_event_id", Str(request));
    AddField(f["ref_request_event_id" := Str(request)], "approval", g["approval"]);
    LimitsEnd(expires, clock);
    OwnKeysDiffer();
    TypesDiffer();
    InnerKeysDiffer();
    CommonDecodes(g, "OVERRIDE_APPROVED", id, subject, stamp, Approved(request, Instant(Str(expires), clock).value), clock);
  }

  lemma ExecutionDecodes(id: string, subject: string, stamp: string, request: string, approval: string, clock: Clock)
    requires id != "" && subject != "" && request != "" && approval != "" && Instant(Str(stamp), clock).Some?
    ensures Decode(AsExecution(id, subject, stamp, request, approval), clock)
            == Some(Event(id, subject, Instant(Str(stamp), clock).value, Executed(request, approval), GENESIS, Zeros()))
  {
    hide Common, Zeros, Instant, Decode, Expiry, Limits, ExecutionOk, Effect, RequestOk, CommonOk, Names;
    var f := Common("OVERRIDE_EXECUTED", id, subject, stamp);
    var g := AsExecution(id, subject, stamp, request, approval).fields;
    var f1 := f["ref_request_event_id" := Str(request)];
    CommonFields("OVERRIDE_EXECUTED", id, subject, stamp);
    AddField(f, "ref_request_event_id", Str(request));
    AddField(f1, "ref_approval_event_id", Str(approval));
    AddField(f1["ref_approval_event_id" := Str(approval)], "execution", g["execution"]);
    OwnKeysDiffer();
    EffectIsOk();
    TypesDiffer();
    CommonDecodes(g, "OVERRIDE_EXECUTED", id, subject, stamp, Executed(request, approval), clock);
  }

  // An execution, logged before the request and the approval it stands on, by the one who requested it.
  function WrongOrder(early: string, given: string, expires: string): seq<Json> {
    [AsExecution("execution", "A", early, "request", "approval"), AsRequest("request", "A", given),
     AsApproval("approval", "B", given, "request", expires)]
  }

  // Whatever the digest, an accepted log can have an execution before its approval in the log, and also
  // in time: early may lie before given.
  lemma {:induction false} ExecutionFirst(early: string, given: string, expires: string, clock: Clock, digest: string -> string)
    requires HexDigest(digest)
    requires Instant(Str(early), clock).Some? && Instant(Str(given), clock).Some? && Instant(Str(expires), clock).Some?
    requires var end := Instant(Str(expires), clock).value;
             Instant(Str(early), clock).value <= end && Instant(Str(given), clock).value < end
    ensures var w := OverrideWorld(clock, digest);
            var log := Resealed(WrongOrder(early, given, expires), GENESIS, w);
            && Sound(log, w) && |log| == 3
            && var es := Decoded(log, w);
               && Authorised(es, es[0], 1, 2)
               && es[0].ts == Instant(Str(early), clock).value && es[2].ts == Instant(Str(given), clock).value
  {
    hide Decode, Instant, Resealed, AsExecution, AsRequest, AsApproval, Zeros, HexDigest, Sound, LinkedFrom;
    var log := WrongOrder(early, given, expires);
    ExecutionDecodes("execution", "A", early, "request", "approval", clock);
    RequestDecodes("request", "A", given, clock);
    ApprovalDecodes("approval", "B", given, "request", expires, clock);
    assert Valid(log, clock);
    var es := Events(log, clock);
    assert |"execution"| == 9 && |"request"| == 7 && |"approval"| == 8;
    assert "A"[0] != "B"[0];
    assert IsRequest(es, 1, "request") && IsApproval(es, 2, "approval", "request");
    assert Coherent(es);
    ResealedSound(log, clock, digest);
    var sealed := Decoded(Resealed(log, GENESIS, OverrideWorld(clock, digest)), OverrideWorld(clock, digest));
    assert Bare(sealed[0]) == Bare(es[0]) && Bare(sealed[1]) == Bare(es[1]) && Bare(sealed[2]) == Bare(es[2]);
  }
}
