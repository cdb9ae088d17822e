/** The versioned policy store as values: directories of version files, and the append-only log that they stand for. */
module PolicyHistory {
  import opened Collections
  import opened PolicyModel
  import opened Sorting
  import TextOrder

  datatype Version = Version(policy: Policy, number: int, author: string, timestamp: string, change: string,
                             contentHash: string)

  function VersionToDict(v: Version): Json {
    Object(map[AuthorKey := Text(v.author), ChangeKey := Text(v.change), HashKey := Text(v.contentHash),
               PolicyKey := PolicyToDict(v.policy), TimestampKey := Text(v.timestamp), VersionKey := Number(v.number)])
  }

  function VersionHead(d: map<Key, Json>, policy: Policy): Result<Version, ReadError> {
    if VersionKey in d && !d[VersionKey].Number? then Err(BadShape)
    else
      match TextIn(d, AuthorKey, "unknown")
      case Err(e) => Err(e)
      case Ok(author) =>
        match TextIn(d, TimestampKey, "")
        case Err(e) => Err(e)
        case Ok(timestamp) =>
          match TextIn(d, ChangeKey, "")
          case Err(e) => Err(e)
          case Ok(change) =>
            match TextIn(d, HashKey, "")
            case Err(e) => Err(e)
            case Ok(contentHash) =>
              var number := if VersionKey in d then d[VersionKey].n else 1;
              Ok(Version(policy, number, author, timestamp, change, contentHash))
  }

  function VersionFromDict(j: Json): Result<Version, ReadError> {
    if !j.Object? then Err(BadShape)
    else
      match PolicyFromDict(if PolicyKey in j.fields then j.fields[PolicyKey] else Object(map[]))
      case Err(e) => Err(e)
      case Ok(policy) => VersionHead(j.fields, policy)
  }

  /** What a version file that only holds a policy reads as, and one that is empty. */
  lemma VersionDefaults(policy: Policy)
    ensures VersionFromDict(Object(map[PolicyKey := PolicyToDict(policy)]))
         == Ok(Version(policy, 1, "unknown", "", "", ""))
    ensures VersionFromDict(Object(map[]))
         == Ok(Version(Policy("custom", "1.0", Deny, [], true), 1, "unknown", "", "", ""))
  {
    hide PolicyToDict, PolicyFromDict;
    PolicyRoundTrip(policy);
    DefaultsAreRead();
  }

  lemma VersionRoundTrip(v: Version)
    ensures VersionFromDict(VersionToDict(v)) == Ok(v)
  {
    hide PolicyToDict, PolicyFromDict;
    PolicyRoundTrip(v.policy);
  }

  // ---- file names ----

  function Digit(n: nat): char
    requires n < 10
  {
    ('0' as int + n) as char
  }

  function Digits(n: nat): (s: string)
    ensures s != "" && s[0] != '-'
  {
    if n < 10 then [Digit(n)] else Digits(n / 10) + [Digit(n % 10)]
  }

  function Decimal(n: int): string { if n < 0 then "-" + Digits(-n) else Digits(n) }

  function FileName(n: int): string { "v" + Decimal(n) + ".json" }

  const LATEST := "latest.json"

  predicate IsVersionFile(name: string) {
    name != "" && name[0] == 'v' && |name| >= 5 && name[|name| - 5..] == ".json" && name != LATEST
  }

  /** The number that a row of digits stands for. */
  function ValueOf(digits: string): int {
    if digits == "" then 0
    else ValueOf(digits[..|digits| - 1]) * 10 + (digits[|digits| - 1] as int - '0' as int)
  }

  /** Numbers are written in decimal, without leading zeros. */
  lemma {:induction false} DigitsAre(n: nat)
    ensures var s := Digits(n);
            && ValueOf(s) == n && (forall c | c in s :: '0' <= c <= '9') && (n > 0 ==> s[0] != '0')
  {
    if n < 10 {
      assert Digits(n)[..0] == "" && ValueOf("") == 0;
    } else {
      DigitsAre(n / 10);
      var front := Digits(n / 10);
      assert Digits(n) == front + [Digit(n % 10)] && Digits(n)[..|front|] == front;
    }
  }

  /** A version file is `v`, the number in decimal and `.json`. */
  lemma FileNameIs(n: nat)
    ensures var f := FileName(n);
            && |f| > 6 && f[0] == 'v' && f[|f| - 5..] == ".json"
            && var d := f[1..|f| - 5];
               ValueOf(d) == n && (forall c | c in d :: '0' <= c <= '9') && (n > 0 ==> d[0] != '0')
  {
    hide Digits, ValueOf;
    DigitsAre(n);
    var f := FileName(n);
    assert f[1..|f| - 5] == Digits(n);
  }

  lemma {:induction false} DigitsInjective(m: nat, n: nat)
    requires Digits(m) == Digits(n)
    ensures m == n
  {
    if m < 10 || n < 10 {
      assert |Digits(m)| == |Digits(n)|;
      assert m < 10 && n < 10;
      assert Digits(m)[0] == Digits(n)[0];
    } else {
      var a, b := Digits(m / 10), Digits(n / 10);
      assert Digits(m)[..|a|] == a && Digits(n)[..|b|] == b;
      assert Digits(m)[|a|] == Digits(n)[|b|];
      DigitsInjective(m / 10, n / 10);
    }
  }

  lemma DecimalInjective(m: int, n: int)
    requires Decimal(m) == Decimal(n)
    ensures m == n
  {
    hide Digits;
    if m < 0 || n < 0 {
      assert Decimal(m)[0] == Decimal(n)[0];
      assert Decimal(m)[1..] == Decimal(n)[1..];
      assert m < 0 && n < 0;
      assert Decimal(m)[1..] == Digits(-m) && Decimal(n)[1..] == Digits(-n);
      DigitsInjective(-m, -n);
    } else {
      DigitsInjective(m, n);
    }
  }

  lemma FileNameInjective(m: int, n: int)
    ensures FileName(m) == FileName(n) <==> m == n
    ensures IsVersionFile(FileName(m)) && FileName(m) != LATEST
  {
    hide Decimal;
    var f := FileName(m);
    assert f[0] == 'v' && LATEST[0] == 'l';
    assert f[|f| - 5..] == ".json";
    if FileName(m) == FileName(n) {
      assert FileName(m)[1..|f| - 5] == Decimal(m) && FileName(n)[1..|f| - 5] == Decimal(n);
      DecimalInjective(m, n);
    }
  }

  // ---- a policy's directory ----

  datatype Content = NotJson | Doc(json: Json)

  type Dir = Dict<string, Content>

  const NO_FILES: Dir := DictRep([], map[])

  type Digest = Json -> string

  function HashOf(policy: Policy, digest: Digest): string { digest(PolicyToDict(policy)) }

  /** `_read_version_file`: bad JSON and a missing key are skipped; a bad enum value raises. */
  datatype Outcome = Found(version: Version) | Absent | Raised

  function ReadFile(c: Content): Outcome {
    match c
    case NotJson => Absent
    case Doc(json) =>
      match VersionFromDict(json)
      case Ok(v) => Found(v)
      case Err(MissingKey(_)) => Absent
      case Err(_) => Raised
  }

  /** The listing loop, over sorted file names; `None` when it raises. */
  function ReadNames(names: seq<string>, dir: Dir, read: seq<Version>): Option<seq<Version>>
    requires forall name | name in names :: name in dir.items
    decreases |names|
  {
    if names == [] then Some(read)
    else if !IsVersionFile(names[0]) then ReadNames(names[1..], dir, read)
    else
      match ReadFile(dir.items[names[0]])
      case Found(v) => ReadNames(names[1..], dir, read + [v])
      case Absent => ReadNames(names[1..], dir, read)
      case Raised => None
  }

  function SortedNames(dir: Dir): (names: seq<string>)
    ensures forall name :: name in names <==> name in dir.items
  {
    SortMembers(dir.keys, TextOrder.Le);
    StableSort(dir.keys, TextOrder.Le)
  }

  function ListVersions(dir: Dir): Option<seq<Version>> { ReadNames(SortedNames(dir), dir, []) }

  /** `max(..., key=version)`: the first of the highest. */
  function Highest(vs: seq<Version>): (v: Version)
    requires vs != []
    ensures v in vs && forall w | w in vs :: w.number <= v.number
  {
    if |vs| == 1 then vs[0]
    else
      var v := Highest(vs[..|vs| - 1]);
      if vs[|vs| - 1].number > v.number then vs[|vs| - 1] else v
  }

  function NextNumber(vs: seq<Version>): int { if vs == [] then 1 else Highest(vs).number + 1 }

  function Write(dir: Dir, v: Version): Dir {
    dir.Put(FileName(v.number), Doc(VersionToDict(v))).Put(LATEST, Doc(VersionToDict(v)))
  }

  function Save(dir: Dir, policy: Policy, author: string, change: string, now: string,
                digest: Digest): Option<Version> {
    match ListVersions(dir)
    case None => None
    case Some(vs) => Some(Version(policy, NextNumber(vs), author, now, change, HashOf(policy, digest)))
  }

  function Load(dir: Dir, number: int): Outcome {
    if FileName(number) in dir.items then ReadFile(dir.items[FileName(number)]) else Absent
  }

  function LoadLatest(dir: Dir): Outcome {
    if LATEST in dir.items then ReadFile(dir.items[LATEST])
    else
      match ListVersions(dir)
      case None => Raised
      case Some(vs) => if vs == [] then Absent else Found(Highest(vs))
  }

  // ---- integrity ----

  datatype Mismatch = Mismatch(number: int, stored: string, computed: string)

  predicate HashFits(v: Version, digest: Digest) {
    v.contentHash == "" || v.contentHash == HashOf(v.policy, digest)
  }

  function Mismatches(vs: seq<Version>, digest: Digest): seq<Mismatch>
    decreases |vs|
  {
    if vs == [] then []
    else
      var v := vs[|vs| - 1];
      Mismatches(vs[..|vs| - 1], digest) +
      if HashFits(v, digest) then [] else [Mismatch(v.number, v.contentHash, HashOf(v.policy, digest))]
  }

  /** `verify_integrity`. */
  function VerifyIntegrity(dir: Dir, digest: Digest): Option<seq<Mismatch>> {
    match ListVersions(dir)
    case None => None
    case Some(vs) => Some(Mismatches(vs, digest))
  }

  // ---- what a listing holds ----

  /** Version file `n` holds the `n`th of `files`, and there are no other version files. */
  ghost predicate Stores(items: map<string, Content>, files: seq<Version>) {
    && (forall n | 1 <= n <= |files| :: FileName(n) in items && items[FileName(n)] == Doc(VersionToDict(files[n - 1])))
    && (forall name | name in items && IsVersionFile(name) :: exists n | 1 <= n <= |files| :: name == FileName(n))
  }

  lemma StoredIsFound(items: map<string, Content>, files: seq<Version>, n: nat)
    requires Stores(items, files) && 1 <= n <= |files|
    ensures FileName(n) in items && ReadFile(items[FileName(n)]) == Found(files[n - 1])
  {
    hide VersionToDict, VersionFromDict, FileName;
    VersionRoundTrip(files[n - 1]);
  }

  ghost predicate Readable(dir: Dir) {
    forall name | name in dir.items && IsVersionFile(name) :: ReadFile(dir.items[name]).Found?
  }

  lemma StoresIsReadable(dir: Dir, files: seq<Version>)
    requires Stores(dir.items, files)
    ensures Readable(dir)
  {
    hide ReadFile, FileName, IsVersionFile;
    forall name | name in dir.items && IsVersionFile(name) ensures ReadFile(dir.items[name]).Found? {
      var n :| 1 <= n <= |files| && name == FileName(n);
      StoredIsFound(dir.items, files, n);
    }
  }

  ghost function VersionsAt(dir: Dir, names: seq<string>): seq<Version>
    requires Readable(dir) && forall name | name in names :: name in dir.items && IsVersionFile(name)
  {
    seq(|names|, i requires 0 <= i < |names| => ReadFile(dir.items[names[i]]).version)
  }

  ghost function VersionNames(names: seq<string>): (kept: seq<string>)
    ensures forall name :: name in kept <==> name in names && IsVersionFile(name)
  {
    FilterMembers(names, IsVersionFile);
    Filter(names, IsVersionFile)
  }

  lemma {:induction false} ReadNamesReads(names: seq<string>, dir: Dir, read: seq<Version>)
    requires Readable(dir) && forall name | name in names :: name in dir.items
    ensures ReadNames(names, dir, read) == Some(read + VersionsAt(dir, VersionNames(names)))
    decreases |names|
  {
    hide ReadFile, IsVersionFile;
    if names == [] {
      assert read + VersionsAt(dir, VersionNames(names)) == read;
    } else {
      var rest := VersionNames(names[1..]);
      if IsVersionFile(names[0]) {
        var v := ReadFile(dir.items[names[0]]).version;
        ReadNamesReads(names[1..], dir, read + [v]);
        assert VersionNames(names) == [names[0]] + rest;
        assert VersionsAt(dir, VersionNames(names)) == [v] + VersionsAt(dir, rest);
        assert read + [v] + VersionsAt(dir, rest) == read + ([v] + VersionsAt(dir, rest));
      } else {
        ReadNamesReads(names[1..], dir, read);
        assert VersionNames(names) == rest;
      }
    }
  }

  lemma ListedIsStored(dir: Dir, files: seq<Version>, names: seq<string>, k: nat)
    requires Stores(dir.items, files) && Readable(dir) && k < |names|
    requires forall name | name in names :: name in dir.items && IsVersionFile(name)
    ensures VersionsAt(dir, names)[k] in files
  {
    hide ReadFile, FileName, IsVersionFile;
    assert names[k] in names;
    var n :| 1 <= n <= |files| && names[k] == FileName(n);
    StoredIsFound(dir.items, files, n);
  }

  lemma StoredIsListed(dir: Dir, files: seq<Version>, names: seq<string>, i: nat)
    requires Stores(dir.items, files) && Readable(dir) && i < |files|
    requires forall name :: name in names <==> name in dir.items && IsVersionFile(name)
    ensures files[i] in VersionsAt(dir, names)
  {
    hide ReadFile, FileName, IsVersionFile;
    StoredIsFound(dir.items, files, i + 1);
    FileNameInjective(i + 1, i + 1);
    assert FileName(i + 1) in names;
    var k :| 0 <= k < |names| && names[k] == FileName(i + 1);
    assert VersionsAt(dir, names)[k] == files[i];
  }

  /** A listing holds every stored version and nothing else. */
  lemma ListingIsExact(dir: Dir, files: seq<Version>)
    requires Stores(dir.items, files)
    ensures ListVersions(dir).Some?
    ensures forall v :: v in ListVersions(dir).value <==> v in files
    ensures files == [] ==> ListVersions(dir).value == []
  {
    hide ReadFile, FileName, IsVersionFile, ReadNames, SortedNames, VersionNames, Stores, Readable;
    StoresIsReadable(dir, files);
    var names := VersionNames(SortedNames(dir));
    ReadNamesReads(SortedNames(dir), dir, []);
    var vs := VersionsAt(dir, names);
    assert [] + vs == vs;
    forall k | 0 <= k < |vs| ensures vs[k] in files { ListedIsStored(dir, files, names, k); }
    forall i | 0 <= i < |files| ensures files[i] in vs { StoredIsListed(dir, files, names, i); }
    assert |vs| == 0 || vs[0] in files;
  }

  lemma {:induction false} MismatchesIff(vs: seq<Version>, digest: Digest)
    ensures forall m :: m in Mismatches(vs, digest) <==>
              exists v | v in vs ::
                !HashFits(v, digest) && m == Mismatch(v.number, v.contentHash, HashOf(v.policy, digest))
    decreases |vs|
  {
    hide HashFits, HashOf;
    if vs != [] {
      MismatchesIff(vs[..|vs| - 1], digest);
      assert vs == vs[..|vs| - 1] + [vs[|vs| - 1]];
    }
  }

  lemma FitsIff(v: Version, digest: Digest)
    ensures HashFits(v, digest) <==> v.contentHash == "" || v.contentHash == digest(PolicyToDict(v.policy))
  {
    hide PolicyToDict;
  }

  /** What is reported: exactly the stored versions whose content hash is present and does not fit their policy.
      `latest.json` is never looked at. */
  lemma IntegrityIff(dir: Dir, files: seq<Version>, digest: Digest)
    requires Stores(dir.items, files)
    ensures VerifyIntegrity(dir, digest).Some?
    ensures forall m :: m in VerifyIntegrity(dir, digest).value <==>
              exists v | v in files ::
                !HashFits(v, digest) && m == Mismatch(v.number, v.contentHash, HashOf(v.policy, digest))
    ensures VerifyIntegrity(dir, digest).value == [] <==>
              forall v | v in files :: v.contentHash == "" || v.contentHash == digest(PolicyToDict(v.policy))
    ensures forall v | v in files :: HashFits(v, digest) <==>
              v.contentHash == "" || v.contentHash == digest(PolicyToDict(v.policy))
  {
    hide HashFits, ListVersions, Mismatches, HashOf, Stores, PolicyToDict;
    forall v | v in files
      ensures HashFits(v, digest) <==> v.contentHash == "" || v.contentHash == digest(PolicyToDict(v.policy))
    {
      FitsIff(v, digest);
    }
    ListingIsExact(dir, files);
    MismatchesIff(ListVersions(dir).value, digest);
    var bad := VerifyIntegrity(dir, digest).value;
    if bad != [] { assert bad[0] in bad; }
    if v :| v in files && !HashFits(v, digest) {
      assert Mismatch(v.number, v.contentHash, HashOf(v.policy, digest)) in bad;
    }
  }
}
