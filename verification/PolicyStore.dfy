// core/policy_store/store.py: numbered policy files in one directory.

module PolicyFiles {
  import opened Basics
  import opened JsonModel
  import opened Text

  // ----- file names -----

  const PREFIX := "policy_v"
  const SUFFIX := ".json"

  predicate AllDigits(s: string) {
    forall i | 0 <= i < |s| :: IsDigit(s[i])
  }

  // VERSION_RE.search(name): policy_v(\d{4})\.json$, where "$" also stands before a last newline
  function VersionOf(name: string): Option<nat> {
    var base := if name != [] && name[|name| - 1] == '\n' then name[..|name| - 1] else name;
    var n := |base|;
    if n < 17 then None else
    var digits := base[n - 9..n - 5];
    if base[n - 17..n - 9] == PREFIX && base[n - 5..] == SUFFIX && AllDigits(digits) then
      FourDigits(digits);
      Some(ParseNat(digits).value)
    else None
  }

  lemma {:induction false} DigitsParse(s: string)
    requires AllDigits(s) && s != []
    ensures ParseNat(s).Some?
  {
    if |s| > 1 { DigitsParse(s[..|s| - 1]); }
  }

  lemma FourDigits(s: string)
    requires AllDigits(s) && |s| == 4
    ensures ParseNat(s).Some? && ParseNat(s).value <= 9999
  {
    DigitsParse(s);
    var t := s[..3];
    assert s[..3][..2] == s[..2] && s[..2][..1] == s[..1];
    assert ParseNat(s[..1]).value <= 9;
    assert ParseNat(s[..2]).value <= 99;
    assert ParseNat(t).value <= 999;
  }

  // A file name never denotes a version above 9999.
  lemma VersionBound(name: string)
    ensures VersionOf(name).Some? ==> VersionOf(name).value <= 9999
  {
    var base := if name != [] && name[|name| - 1] == '\n' then name[..|name| - 1] else name;
    if VersionOf(name).Some? { FourDigits(base[|base| - 9..|base| - 5]); }
  }

  function Pad(s: string): string
    decreases 4 - |s|
  {
    if |s| >= 4 then s else Pad("0" + s)
  }

  // f"policy_v{version:04d}.json"
  function FileName(version: nat): string {
    PREFIX + Pad(Digits(version)) + SUFFIX
  }

  lemma {:induction false} ParseZero(s: string)
    requires AllDigits(s) && s != []
    ensures ParseNat("0" + s) == ParseNat(s)
  {
    var t := "0" + s;
    assert t[..|t| - 1] == "0" + s[..|s| - 1];
    if |s| > 1 {
      ParseZero(s[..|s| - 1]);
    } else {
      assert s[..|s| - 1] == [] && t[..|t| - 1] == "0";
      assert ParseNat("0") == Some(0);
    }
  }

  lemma {:induction false} PadParse(s: string)
    requires AllDigits(s) && s != []
    ensures ParseNat(Pad(s)) == ParseNat(s)
    ensures AllDigits(Pad(s))
    ensures |Pad(s)| == if |s| >= 4 then |s| else 4
    decreases 4 - |s|
  {
    if |s| < 4 {
      ParseZero(s);
      PadParse("0" + s);
    }
  }

  lemma {:induction false} DigitsCount(n: nat)
    ensures |Digits(n)| <= 4 <==> n <= 9999
  {
    DigitsLength(n);
    DigitsLength(n / 10);
    DigitsLength(n / 10 / 10);
    DigitsLength(n / 10 / 10 / 10);
    if n >= 10000 { DigitsLength(n / 10 / 10 / 10 / 10); }
  }

  lemma PaddedDigits(version: nat)
    ensures AllDigits(Pad(Digits(version)))
    ensures ParseNat(Pad(Digits(version))) == Some(version)
    ensures |Pad(Digits(version))| == 4 <==> version <= 9999
    ensures |Pad(Digits(version))| >= 4
  {
    var s := Digits(version);
    assert AllDigits(s) by { forall i | 0 <= i < |s| ensures IsDigit(s[i]) { assert s[i] in s; } }
    PadParse(s);
    ParseNatDigits(version);
    DigitsCount(version);
  }

  lemma NameParts(digits: string)
    requires AllDigits(digits) && |digits| >= 4
    ensures var name := PREFIX + digits + SUFFIX;
            && name[|name| - 1] == 'n'
            && name[|name| - 5..] == SUFFIX
            && name[|name| - 9..|name| - 5] == digits[|digits| - 4..]
            && (|digits| == 4 ==> name[|name| - 17..|name| - 9] == PREFIX)
            && (|digits| > 4 ==> IsDigit(name[|name| - 10]))
  {
  }

  // The name written for a version is read back as that version exactly up to 9999; a longer
  // number is not recognised at all.
  lemma FileNameVersion(version: nat)
    ensures VersionOf(FileName(version)) == if version <= 9999 then Some(version) else None
  {
    var digits := Pad(Digits(version));
    var name := FileName(version);
    PaddedDigits(version);
    NameParts(digits);
    if version <= 9999 {
      assert digits[|digits| - 4..] == digits;
    } else {
      assert name[|name| - 17..|name| - 9][7] == name[|name| - 10];
      assert PREFIX[7] == 'v';
    }
  }

  lemma {:induction false} PadShape(s: string)
    ensures Pad(s) == Copies('0', if |s| >= 4 then 0 else 4 - |s|) + s
    decreases 4 - |s|
  {
    if |s| < 4 {
      PadShape("0" + s);
      assert "0" + s == ['0'] + s;
      assert Copies('0', 3 - |s|) + ("0" + s) == (Copies('0', 3 - |s|) + ['0']) + s;
    }
  }

  // The name written out: zeros up to four digits.
  lemma FileNameShape(version: nat)
    ensures var ds := Digits(version);
            FileName(version) == "policy_v" + (Copies('0', if |ds| >= 4 then 0 else 4 - |ds|) + ds) + ".json"
  {
    PadShape(Digits(version));
  }

  lemma {:induction false} DigitsSame(s: string, t: string)
    requires AllDigits(s) && AllDigits(t) && |s| == |t| && ParseNat(s) == ParseNat(t)
    ensures s == t
  {
    hide ParseNat;
    if s != [] {
      var n := |s| - 1;
      var h := LastDigit(s);
      var k := LastDigit(t);
      assert 10 * h + (s[n] as int - '0' as int) == 10 * k + (t[n] as int - '0' as int);
      if n > 0 { DigitsSame(s[..n], t[..n]); }
      assert s == s[..n] + [s[n]] && t == t[..n] + [t[n]];
    }
  }

  lemma {:induction false} LastDigit(s: string) returns (high: int)
    requires AllDigits(s) && s != []
    ensures |s| > 1 ==> ParseNat(s[..|s| - 1]) == Some(high)
    ensures ParseNat(s) == Some(10 * high + (s[|s| - 1] as int - '0' as int)) && (|s| == 1 ==> high == 0)
  {
    if |s| == 1 { return 0; }
    DigitsParse(s[..|s| - 1]);
    return ParseNat(s[..|s| - 1]).value;
  }

  // The name ends in the name written for the version, perhaps with a newline behind it.
  ghost predicate Names(name: string, version: nat, front: string, tail: string) {
    name == front + FileName(version) + tail && (tail == "" || tail == "\n")
  }

  lemma NameBase(name: string, base: string, tail: string)
    requires base != [] && base[|base| - 1] != '\n' && (tail == "" || tail == "\n") && name == base + tail
    ensures base == if name != [] && name[|name| - 1] == '\n' then name[..|name| - 1] else name
  {
  }

  lemma NameSlices(name: string, front: string, digits: string, tail: string)
    requires AllDigits(digits) && |digits| == 4 && (tail == "" || tail == "\n")
    requires name == front + (PREFIX + digits + SUFFIX) + tail
    ensures VersionOf(name) == ParseNat(digits)
  {
    hide AllDigits, ParseNat;
    var whole := PREFIX + digits + SUFFIX;
    NameBase(name, front + whole, tail);
    hide PREFIX, SUFFIX;
    var base := front + whole;
    var n := |base|;
    assert base[n - 17..n - 9] == whole[..8] == PREFIX;
    assert base[n - 9..n - 5] == whole[8..12] == digits;
    assert base[n - 5..] == whole[12..] == SUFFIX;
    FourDigits(digits);
  }

  lemma RecognisedName(name: string, version: nat) returns (front: string, tail: string)
    requires VersionOf(name) == Some(version)
    ensures Names(name, version, front, tail)
  {
    var base := if name != [] && name[|name| - 1] == '\n' then name[..|name| - 1] else name;
    var n := |base|;
    var digits := base[n - 9..n - 5];
    FourDigits(digits);
    VersionBound(name);
    PaddedDigits(version);
    DigitsSame(digits, Pad(Digits(version)));
    front, tail := base[..n - 17], name[n..];
    hide VersionOf, Pad, Digits, ParseNat, AllDigits;
    NineParts(base);
    assert FileName(version) == PREFIX + digits + SUFFIX;
    assert name == base + tail;
  }

  lemma NineParts(base: string)
    requires |base| >= 17
    ensures var n := |base|; base == base[..n - 17] + (base[n - 17..n - 9] + base[n - 9..n - 5] + base[n - 5..])
  {
  }

  // A name is recognised as a version if and only if it ends in the name written for it, and the
  // version has four digits.
  lemma VersionExact(name: string, version: nat)
    ensures VersionOf(name) == Some(version) <==> version <= 9999 && exists front, tail :: Names(name, version, front, tail)
  {
    PaddedDigits(version);
    VersionBound(name);
    hide VersionOf, Pad, Digits, ParseNat, AllDigits;
    if version <= 9999 && exists front, tail :: Names(name, version, front, tail) {
      var front, tail :| Names(name, version, front, tail);
      NameSlices(name, front, Pad(Digits(version)), tail);
    }
    if VersionOf(name) == Some(version) {
      var front, tail := RecognisedName(name, version);
    }
  }
}

module PolicyStore {
  import opened Basics
  import opened JsonModel
  import opened PolicyFiles

  // A directory: the files by name.  One file per version is what the store itself maintains; with
  // two files of one version the latest policy is one of them, by the order of os.listdir.
  type Files = map<string, Json>

  ghost predicate OneFilePerVersion(files: Files) {
    forall f, g | f in files && g in files ::
      VersionOf(f).Some? && VersionOf(f) == VersionOf(g) ==> f == g
  }

  // sha256_of_obj, for a given digest function
  function Sha(digest: string -> string, policy: Json): string {
    digest(Print(policy))
  }

  ghost predicate IsLatest(files: Files, name: string) {
    && name in files && VersionOf(name).Some?
    && forall f | f in files && VersionOf(f).Some? :: VersionOf(f).value <= VersionOf(name).value
  }

  ghost predicate HasVersion(files: Files) {
    exists f | f in files :: VersionOf(f).Some?
  }

  lemma {:induction false} LatestExists(files: Files)
    requires HasVersion(files)
    ensures exists name :: IsLatest(files, name)
    decreases |files|
  {
    var f :| f in files && VersionOf(f).Some?;
    if !IsLatest(files, f) {
      var g :| g in files && VersionOf(g).Some? && VersionOf(g).value > VersionOf(f).value;
      var rest := files - {f};
      assert g in rest;
      assert |rest.Keys| == |files.Keys - {f}|;
      LatestExists(rest);
      var name :| IsLatest(rest, name);
      assert VersionOf(g).value <= VersionOf(name).value;
      assert IsLatest(files, name);
    }
  }

  ghost function LatestName(files: Files): string
    requires HasVersion(files)
  {
    LatestExists(files);
    var name :| IsLatest(files, name);
    name
  }

  // The latest version and its policy, if there is any version.
  ghost function Latest(files: Files): Option<(nat, Json)> {
    if HasVersion(files) then
      LatestExists(files);
      var name := LatestName(files);
      Some((VersionOf(name).value, files[name]))
    else None
  }

  lemma LatestIs(files: Files, name: string)
    requires OneFilePerVersion(files)
    requires IsLatest(files, name)
    ensures Latest(files) == Some((VersionOf(name).value, files[name]))
  {
    LatestExists(files);
    assert IsLatest(files, LatestName(files));
  }

  // Whatever file is chosen, the latest version is the same.
  lemma LatestVersion(files: Files, name: string)
    requires IsLatest(files, name)
    ensures HasVersion(files) && Latest(files).value.0 == VersionOf(name).value
  {
    LatestExists(files);
    assert IsLatest(files, LatestName(files));
  }

  // What the store can take for the latest policy: with two files of the highest version, either.
  ghost predicate LatestOne(files: Files, latest: Option<(nat, Json)>) {
    match latest
    case None => !HasVersion(files)
    case Some((v, policy)) => exists name :: IsLatest(files, name) && VersionOf(name) == Some(v) && files[name] == policy
  }

  lemma SomeLatest(files: Files) returns (latest: Option<(nat, Json)>)
    ensures LatestOne(files, latest)
  {
    if HasVersion(files) {
      LatestExists(files);
      var name :| IsLatest(files, name);
      return Some((VersionOf(name).value, files[name]));
    }
    return None;
  }

  // Whichever is taken, it has the latest version number.
  lemma LatestOneVersion(files: Files, latest: Option<(nat, Json)>)
    requires LatestOne(files, latest) && latest.Some?
    ensures HasVersion(files) && latest.value.0 == Latest(files).value.0
    ensures OneFilePerVersion(files) ==> latest == Latest(files)
  {
    var (v, policy) := latest.value;
    var name :| IsLatest(files, name) && VersionOf(name) == Some(v) && files[name] == policy;
    LatestVersion(files, name);
    if OneFilePerVersion(files) { LatestIs(files, name); }
  }

  lemma LatestBound(files: Files)
    requires HasVersion(files)
    ensures Latest(files).value.0 <= 9999
  {
    VersionBound(LatestName(files));
  }

  // What saving a policy makes of a directory with some version.
  ghost function Saved(files: Files, policy: Json): Files
    requires HasVersion(files)
  {
    files[FileName(Latest(files).value.0 + 1) := policy]
  }

  lemma SaveOneFile(files: Files, policy: Json)
    requires OneFilePerVersion(files) && HasVersion(files)
    ensures OneFilePerVersion(Saved(files, policy))
  {
    LatestExists(files);
    assert IsLatest(files, LatestName(files));
    FileNameVersion(Latest(files).value.0 + 1);
  }

  lemma SavedIsLatest(files: Files, policy: Json, name: string)
    requires IsLatest(files, name)
    requires HasVersion(files) && Latest(files).value.0 == VersionOf(name).value <= 9998
    ensures IsLatest(Saved(files, policy), FileName(VersionOf(name).value + 1))
  {
    FileNameVersion(VersionOf(name).value + 1);
  }

  lemma SavedIsUnseen(files: Files, policy: Json, name: string)
    requires IsLatest(files, name)
    requires HasVersion(files) && Latest(files).value.0 == VersionOf(name).value >= 9999
    ensures IsLatest(Saved(files, policy), name) && Saved(files, policy)[name] == files[name]
  {
    FileNameVersion(VersionOf(name).value + 1);
  }

  // Saving makes the saved policy the latest one exactly while the new version has four digits;
  // from version 9999 on the file is written but never seen.
  lemma SaveVisible(files: Files, policy: Json)
    requires OneFilePerVersion(files) && HasVersion(files)
    ensures OneFilePerVersion(Saved(files, policy))
    ensures var (v, p) := Latest(files).value;
            Latest(Saved(files, policy)) == if v + 1 <= 9999 then Some((v + 1, policy)) else Some((v, p))
    ensures Latest(files).value.0 <= 9999
  {
    hide VersionOf, FileName, OneFilePerVersion;
    SaveOneFile(files, policy);
    LatestExists(files);
    var name := LatestName(files);
    var v := VersionOf(name).value;
    LatestBound(files);
    if v + 1 <= 9999 {
      SavedIsLatest(files, policy, name);
      FileNameVersion(v + 1);
      LatestIs(Saved(files, policy), FileName(v + 1));
    } else {
      SavedIsUnseen(files, policy, name);
      LatestIs(Saved(files, policy), name);
    }
  }

  // A saved file is a new one: no numbered file that existed before is overwritten.
  lemma SaveKeepsVersions(files: Files, policy: Json, name: string)
    requires HasVersion(files)
    requires name in files && VersionOf(name).Some?
    ensures Saved(files, policy)[name] == files[name]
  {
    LatestExists(files);
    assert IsLatest(files, LatestName(files));
    FileNameVersion(Latest(files).value.0 + 1);
  }

  // ----- the class -----

  datatype Snapshot = Snapshot(version: nat, policy: Json, sha256: string)

  function SnapshotOf(files: Files, name: string, digest: string -> string): Snapshot
    requires name in files && VersionOf(name).Some?
  {
    Snapshot(VersionOf(name).value, files[name], Sha(digest, files[name]))
  }

  // The version and the policy that a call took for the latest.
  function Taken(r: Result<Snapshot>): Option<(nat, Json)> {
    if r.Ok? then Some((r.value.version, r.value.policy)) else None
  }

  predicate SortedByVersion(items: seq<(nat, string)>) {
    forall i, j :: 0 <= i < j < |items| ==> items[i].0 <= items[j].0
  }

  // The item put behind every item whose version is not larger, as a stable sort does.
  function Inserted(sorted: seq<(nat, string)>, item: (nat, string)): (r: seq<(nat, string)>)
    requires SortedByVersion(sorted)
    ensures SortedByVersion(r)
    ensures multiset(r) == multiset(sorted) + multiset{item}
    ensures r != [] && (r[|r| - 1] == item || (sorted != [] && r[|r| - 1] == sorted[|sorted| - 1]))
  {
    var n := |sorted| - 1;
    if sorted == [] || sorted[n].0 <= item.0 then SortedBehind(sorted, item); sorted + [item] else
    assert sorted == sorted[..n] + [sorted[n]];
    var rest := Inserted(sorted[..n], item);
    SortedBehind(rest, sorted[n]);
    rest + [sorted[n]]
  }

  lemma SortedBehind(sorted: seq<(nat, string)>, item: (nat, string))
    requires SortedByVersion(sorted) && (sorted == [] || sorted[|sorted| - 1].0 <= item.0)
    ensures SortedByVersion(sorted + [item])
  {
  }

  // items.sort(key=lambda x: x[0])
  method SortByVersion(items: seq<(nat, string)>) returns (sorted: seq<(nat, string)>)
    ensures SortedByVersion(sorted)
    ensures multiset(sorted) == multiset(items)
  {
    sorted := [];
    for i := 0 to |items|
      invariant SortedByVersion(sorted)
      invariant multiset(sorted) == multiset(items[..i])
    {
      sorted := Inserted(sorted, items[i]);
      assert items[..i + 1] == items[..i] + [items[i]];
    }
    assert items[..|items|] == items;
  }

  class Store {
    var files: Files
    const digest: string -> string

    ghost predicate Valid()
      reads this
    {
      OneFilePerVersion(files)
    }

    constructor (files: Files, digest: string -> string)
      ensures this.files == files && this.digest == digest
    {
      this.files := files;
      this.digest := digest;
    }

    // _list_versions
    method ListVersions() returns (items: seq<(nat, string)>)
      ensures SortedByVersion(items)
      ensures forall v, f :: (v, f) in items <==> f in files && VersionOf(f) == Some(v)
    {
      var found: seq<(nat, string)> := [];
      var names := files.Keys;
      while names != {}
        invariant names <= files.Keys
        invariant forall v, f :: (v, f) in found <==> f in files.Keys - names && VersionOf(f) == Some(v)
        decreases |names|
      {
        var fn :| fn in names;
        names := names - {fn};
        match VersionOf(fn)
        case Some(v) => found := found + [(v, fn)];
        case None =>
      }
      items := SortByVersion(found);
      assert forall x :: x in items <==> x in multiset(items);
      assert forall x :: x in found <==> x in multiset(found);
    }

    // latest; Err is the FileNotFoundError
    method GetLatest() returns (r: Result<Snapshot>)
      ensures r.Ok? <==> HasVersion(files)
      ensures r.Ok? ==> exists name :: IsLatest(files, name) && r.value == SnapshotOf(files, name, digest)
      ensures LatestOne(files, Taken(r)) && (r.Ok? ==> r.value.sha256 == Sha(digest, r.value.policy))
      ensures Valid() ==> r == match Latest(files)
                               case Some((v, p)) => Ok(Snapshot(v, p, Sha(digest, p)))
                               case None => Err
    {
      var versions := ListVersions();
      if versions == [] {
        assert forall f | f in files :: VersionOf(f).Some? ==> (VersionOf(f).value, f) in versions;
        return Err;
      }
      var (v, name) := versions[|versions| - 1];
      assert (v, name) in versions;
      forall f | f in files && VersionOf(f).Some? ensures VersionOf(f).value <= v {
        assert (VersionOf(f).value, f) in versions;
      }
      assert IsLatest(files, name);
      if OneFilePerVersion(files) { LatestIs(files, name); }
      return Ok(SnapshotOf(files, name, digest));
    }

    // save_new_version
    method SaveNewVersion(policy: Json) returns (r: Result<Snapshot>)
      modifies this`files
      ensures old(Valid()) ==> Valid()
      ensures r.Ok? <==> old(HasVersion(files))
      ensures r.Err? ==> files == old(files)
      ensures r.Ok? ==> files == Saved(old(files), policy)
      ensures r.Ok? ==> r.value == Snapshot(Latest(old(files)).value.0 + 1, policy, Sha(digest, policy))
    {
      hide VersionOf, FileName, OneFilePerVersion, HasVersion, LatestName;
      var latest := GetLatest();
      if latest.Err? {
        return Err;
      }
      var v := latest.value.version + 1;
      ghost var name :| IsLatest(files, name) && latest.value == SnapshotOf(files, name, digest);
      LatestVersion(files, name);
      if OneFilePerVersion(files) { SaveOneFile(files, policy); }
      files := files[FileName(v) := policy];
      return Ok(Snapshot(v, policy, Sha(digest, policy)));
    }
  }
}
