/** Bounded cleanup of a directory: files past their time go first, then the oldest until the rest fits. */
module RetentionModel {
  import opened Sorting

  /** What becomes of the attempts to delete a file, one after another. An attempt that fails leaves the file where it
      is: plain deletion leaves it as it was, secure deletion, which overwrites and truncates first, leaves `size`
      bytes under a new `mtime`. `next` is the fate of later attempts. */
  datatype Fate = Goes | Stays(size: nat, mtime: real, next: Fate)

  datatype StoredFile = StoredFile(name: string, mtime: real, size: nat, fate: Fate)

  datatype RetentionPolicy = RetentionPolicy(ttlDays: int, secureDelete: bool, maxSizeMb: int)

  datatype Stats = Stats(filesRemoved: nat, bytesFreed: nat, errors: seq<string>)

  function Cutoff(policy: RetentionPolicy, now: real): real { now - (policy.ttlDays * 86400) as real }

  function MaxBytes(policy: RetentionPolicy): int { policy.maxSizeMb * 1024 * 1024 }

  function Total(files: seq<StoredFile>): nat {
    if files == [] then 0 else files[0].size + Total(files[1..])
  }

  /** The files of a directory have different names. */
  ghost predicate Named(files: seq<StoredFile>) {
    forall i, j | 0 <= i < j < |files| :: files[i].name != files[j].name
  }

  // ---- attempts ----

  /** A deletion that fails raises when it is plain; a secure one returns false, and its caller does not look. */
  predicate Counts(f: StoredFile, secure: bool) { secure || f.fate.Goes? }

  /** What an attempt leaves of a file. */
  function Left(f: StoredFile, secure: bool): seq<StoredFile> {
    match f.fate
    case Goes => []
    case Stays(size, mtime, next) =>
      [if secure then f.(size := size, mtime := mtime, fate := next) else f.(fate := next)]
  }

  /** The directory after one attempt on each of the files that `p` picks. */
  function Attempt(files: seq<StoredFile>, p: StoredFile -> bool, secure: bool): seq<StoredFile> {
    if files == [] then []
    else (if p(files[0]) then Left(files[0], secure) else [files[0]]) + Attempt(files[1..], p, secure)
  }

  function Expired(cutoff: real): StoredFile -> bool { (f: StoredFile) => f.mtime < cutoff }

  function Among(picked: seq<StoredFile>): StoredFile -> bool { (f: StoredFile) => f in picked }

  function CountedBy(p: StoredFile -> bool, secure: bool): StoredFile -> bool {
    (f: StoredFile) => p(f) && Counts(f, secure)
  }

  /** The bytes that counted attempts left behind all the same. */
  function Leftover(files: seq<StoredFile>, p: StoredFile -> bool, secure: bool): nat {
    if files == [] then 0
    else (if CountedBy(p, secure)(files[0]) then Total(Left(files[0], secure)) else 0) + Leftover(files[1..], p, secure)
  }

  // ---- the two passes ----

  predicate OlderOrTied(a: StoredFile, b: StoredFile) { a.mtime <= b.mtime }

  /** How many files the quota loop attempts, walking from the oldest while what it believes is left exceeds the
      limit. */
  function Turns(oldestFirst: seq<StoredFile>, total: int, limit: int, secure: bool): (n: nat)
    ensures n <= |oldestFirst|
    decreases |oldestFirst|
  {
    if oldestFirst == [] || total <= limit then 0
    else
      var next := if Counts(oldestFirst[0], secure) then total - oldestFirst[0].size else total;
      1 + Turns(oldestFirst[1..], next, limit, secure)
  }

  function OldestFirst(files: seq<StoredFile>): seq<StoredFile> { StableSort(files, OlderOrTied) }

  function Targets(files: seq<StoredFile>, policy: RetentionPolicy): seq<StoredFile> {
    if policy.maxSizeMb <= 0 then []
    else OldestFirst(files)[..Turns(OldestFirst(files), Total(files), MaxBytes(policy), policy.secureDelete)]
  }

  function AfterTtl(files: seq<StoredFile>, policy: RetentionPolicy, now: real): seq<StoredFile> {
    Attempt(files, Expired(Cutoff(policy, now)), policy.secureDelete)
  }

  function AfterQuota(files: seq<StoredFile>, policy: RetentionPolicy): seq<StoredFile> {
    Attempt(files, Among(Targets(files, policy)), policy.secureDelete)
  }

  /** A policy that never expires never applies its quota either. */
  function Kept(files: seq<StoredFile>, policy: RetentionPolicy, now: real): seq<StoredFile> {
    if policy.ttlDays == 0 then files else AfterQuota(AfterTtl(files, policy, now), policy)
  }

  function TtlCounted(files: seq<StoredFile>, policy: RetentionPolicy, now: real): seq<StoredFile> {
    Filter(files, CountedBy(Expired(Cutoff(policy, now)), policy.secureDelete))
  }

  function QuotaCounted(files: seq<StoredFile>, policy: RetentionPolicy): seq<StoredFile> {
    Filter(Targets(files, policy), (f: StoredFile) => Counts(f, policy.secureDelete))
  }

  /** The attempts that the cleanup counts as removals. */
  function Counted(files: seq<StoredFile>, policy: RetentionPolicy, now: real): seq<StoredFile> {
    if policy.ttlDays == 0 then []
    else TtlCounted(files, policy, now) + QuotaCounted(AfterTtl(files, policy, now), policy)
  }

  ghost function Leftovers(files: seq<StoredFile>, policy: RetentionPolicy, now: real): nat {
    if policy.ttlDays == 0 then 0
    else
      var left := AfterTtl(files, policy, now);
      Leftover(files, Expired(Cutoff(policy, now)), policy.secureDelete)
      + Leftover(left, Among(Targets(left, policy)), policy.secureDelete)
  }

  // ---- totals ----

  lemma {:induction false} TotalConcat(a: seq<StoredFile>, b: seq<StoredFile>)
    ensures Total(a + b) == Total(a) + Total(b)
  {
    if a == [] {
      assert a + b == b;
    } else {
      assert (a + b)[1..] == a[1..] + b;
      TotalConcat(a[1..], b);
    }
  }

  lemma TotalWithout(files: seq<StoredFile>, i: nat)
    requires i < |files|
    ensures Total(files) == files[i].size + Total(files[..i] + files[i + 1..])
  {
    assert files == files[..i] + files[i..];
    TotalConcat(files[..i], files[i..]);
    TotalConcat(files[..i], files[i + 1..]);
    assert files[i..][1..] == files[i + 1..];
  }

  lemma ElementsWithout(files: seq<StoredFile>, i: nat)
    requires i < |files|
    ensures multiset(files[..i] + files[i + 1..]) == multiset(files) - multiset{files[i]}
  {
    assert files == files[..i] + ([files[i]] + files[i + 1..]);
  }

  lemma NonePermuted(b: seq<StoredFile>)
    requires multiset(b) == multiset{}
    ensures b == []
  {
    assert |b| == |multiset(b)|;
  }

  lemma HeadIn(a: seq<StoredFile>, b: seq<StoredFile>) returns (i: nat)
    requires a != [] && multiset(a) == multiset(b)
    ensures i < |b| && b[i] == a[0]
  {
    assert a[0] in multiset(b);
    i :| 0 <= i < |b| && b[i] == a[0];
  }

  lemma RestPermuted(a: seq<StoredFile>, b: seq<StoredFile>, i: nat)
    requires a != [] && i < |b| && b[i] == a[0] && multiset(a) == multiset(b)
    ensures multiset(a[1..]) == multiset(b[..i] + b[i + 1..])
  {
    ElementsWithout(b, i);
    assert a == [a[0]] + a[1..];
    assert multiset(a) == multiset{a[0]} + multiset(a[1..]);
  }

  lemma {:induction false} TotalPermuted(a: seq<StoredFile>, b: seq<StoredFile>)
    requires multiset(a) == multiset(b)
    ensures Total(a) == Total(b)
  {
    if a == [] {
      NonePermuted(b);
    } else {
      var i := HeadIn(a, b);
      RestPermuted(a, b, i);
      TotalWithout(b, i);
      TotalPermuted(a[1..], b[..i] + b[i + 1..]);
    }
  }

  lemma SortTotal(files: seq<StoredFile>)
    ensures Total(OldestFirst(files)) == Total(files)
  {
    SortElements(files, OlderOrTied);
    TotalPermuted(OldestFirst(files), files);
  }

  /** Listing some of a directory's files in any order gives their total. */
  lemma TotalOfSome(files: seq<StoredFile>, some: seq<StoredFile>)
    requires Named(files) && Named(some) && forall f | f in some :: f in files
    ensures Total(Filter(files, Among(some))) == Total(some)
  {
    hide Filter, Total;
    DistinctOnce(files);
    DistinctOnce(some);
    var picked := Filter(files, Among(some));
    forall f: StoredFile ensures multiset(picked)[f] == multiset(some)[f] {
      FilterCount(files, Among(some), f);
      if f in some { assert f in files; }
    }
    assert multiset(picked) == multiset(some);
    TotalPermuted(picked, some);
  }

  lemma {:induction false} FilterNamed(files: seq<StoredFile>, p: StoredFile -> bool)
    requires Named(files)
    ensures Named(Filter(files, p))
  {
    if files != [] {
      var f, rest := files[0], files[1..];
      assert forall i | 0 < i < |files| :: files[i] == rest[i - 1];
      FilterNamed(rest, p);
      FilterMembers(rest, p);
      forall k | 0 <= k < |Filter(rest, p)| ensures Filter(rest, p)[k].name != f.name {
        assert Filter(rest, p)[k] in Filter(rest, p);
      }
    }
  }

  // ---- what attempts do to a directory ----

  lemma {:induction false} AttemptConcat(a: seq<StoredFile>, b: seq<StoredFile>, p: StoredFile -> bool, secure: bool)
    ensures Attempt(a + b, p, secure) == Attempt(a, p, secure) + Attempt(b, p, secure)
  {
    if a == [] {
      assert a + b == b;
    } else {
      assert (a + b)[1..] == a[1..] + b;
      AttemptConcat(a[1..], b, p, secure);
    }
  }

  lemma {:induction false} AttemptNone(files: seq<StoredFile>, p: StoredFile -> bool, secure: bool)
    requires forall f | f in files :: !p(f)
    ensures Attempt(files, p, secure) == files
  {
    if files != [] {
      AttemptNone(files[1..], p, secure);
      assert files == [files[0]] + files[1..];
    }
  }

  lemma {:induction false} AttemptSame(files: seq<StoredFile>, p: StoredFile -> bool, q: StoredFile -> bool,
                                       secure: bool)
    requires forall f | f in files :: p(f) == q(f)
    ensures Attempt(files, p, secure) == Attempt(files, q, secure)
  {
    if files != [] { AttemptSame(files[1..], p, q, secure); }
  }

  /** Where the files of the directory come from: untouched, or left by an attempt. */
  lemma {:induction false} AttemptMembers(files: seq<StoredFile>, p: StoredFile -> bool, secure: bool)
    ensures forall g :: g in Attempt(files, p, secure) <==>
              exists f | f in files :: if p(f) then g in Left(f, secure) else g == f
  {
    hide Left;
    if files != [] {
      assert files == [files[0]] + files[1..];
      AttemptMembers(files[1..], p, secure);
    }
  }

  lemma LeftKeepsName(f: StoredFile, secure: bool)
    ensures forall g | g in Left(f, secure) :: g.name == f.name
    ensures |Left(f, secure)| <= 1
  {
  }

  lemma AttemptNames(files: seq<StoredFile>, p: StoredFile -> bool, secure: bool, g: StoredFile) returns (f: StoredFile)
    requires g in Attempt(files, p, secure)
    ensures f in files && f.name == g.name && if p(f) then g in Left(f, secure) else g == f
  {
    hide Attempt, Left;
    AttemptMembers(files, p, secure);
    f :| f in files && if p(f) then g in Left(f, secure) else g == f;
    LeftKeepsName(f, secure);
  }

  lemma {:induction false} AttemptNamed(files: seq<StoredFile>, p: StoredFile -> bool, secure: bool)
    requires Named(files)
    ensures Named(Attempt(files, p, secure))
  {
    if files != [] {
      var f, rest := files[0], files[1..];
      AttemptNamed(rest, p, secure);
      assert forall i | 0 < i < |files| :: files[i] == rest[i - 1];
      hide Left;
      LeftKeepsName(f, secure);
      forall g | g in Attempt(rest, p, secure) ensures g.name != f.name {
        var h := AttemptNames(rest, p, secure, g);
      }
    }
  }

  /** What an attempt makes of a file, and that others are left as they are. */
  lemma AttemptIs(files: seq<StoredFile>, p: StoredFile -> bool, secure: bool, f: StoredFile)
    requires Named(files) && f in files
    ensures var after := Attempt(files, p, secure);
            if !p(f) then f in after
            else match f.fate
                 case Goes => forall g | g in after :: g.name != f.name
                 case Stays(size, mtime, next) =>
                   StoredFile(f.name, if secure then mtime else f.mtime, if secure then size else f.size, next) in after
  {
    hide Attempt;
    AttemptMembers(files, p, secure);
    if p(f) && f.fate.Goes? {
      forall g | g in Attempt(files, p, secure) ensures g.name != f.name {
        var h := AttemptNames(files, p, secure, g);
        assert h.name == f.name ==> h == f;
      }
    } else if p(f) {
      assert Left(f, secure)[0] in Left(f, secure);
    }
  }

  /** The time pass attempts the files that are more than `ttl_days` days of 86400 seconds old, and no others. */
  lemma TimePassIs(files: seq<StoredFile>, policy: RetentionPolicy, now: real, f: StoredFile)
    requires Named(files) && f in files
    ensures var after := AfterTtl(files, policy, now);
            if now - f.mtime <= (86400 * policy.ttlDays) as real then f in after
            else match f.fate
                 case Goes => forall g | g in after :: g.name != f.name
                 case Stays(size, mtime, next) =>
                   StoredFile(f.name, if policy.secureDelete then mtime else f.mtime,
                              if policy.secureDelete then size else f.size, next) in after
    ensures f in TtlCounted(files, policy, now) <==>
            now - f.mtime > (86400 * policy.ttlDays) as real && (policy.secureDelete || f.fate.Goes?)
  {
    hide Attempt, Filter;
    AttemptIs(files, Expired(Cutoff(policy, now)), policy.secureDelete, f);
    FilterMembers(files, CountedBy(Expired(Cutoff(policy, now)), policy.secureDelete));
  }

  /** Bytes are conserved by any attempts: what was counted and what is left make up what there was and what counted
      attempts left behind. */
  lemma {:induction false} AttemptConserves(files: seq<StoredFile>, p: StoredFile -> bool, secure: bool)
    ensures Total(Filter(files, CountedBy(p, secure))) + Total(Attempt(files, p, secure))
         == Total(files) + Leftover(files, p, secure)
  {
    if files != [] {
      var f, rest := files[0], files[1..];
      AttemptConserves(rest, p, secure);
      TotalConcat(if p(f) then Left(f, secure) else [f], Attempt(rest, p, secure));
      TotalConcat(if CountedBy(p, secure)(f) then [f] else [], Filter(rest, CountedBy(p, secure)));
      assert Total([f]) == f.size;
    }
  }

  lemma TargetsWithin(files: seq<StoredFile>, policy: RetentionPolicy)
    requires Named(files)
    ensures Named(Targets(files, policy))
    ensures forall f | f in Targets(files, policy) :: f in files
  {
    hide StableSort, Turns;
    SortMembers(files, OlderOrTied);
    SortNamed(files);
    assert forall f | f in Targets(files, policy) :: f in OldestFirst(files);
  }

  lemma SortNamed(files: seq<StoredFile>)
    requires Named(files)
    ensures Named(OldestFirst(files))
  {
    hide StableSort;
    var s := OldestFirst(files);
    SortMembers(files, OlderOrTied);
    SortDistinct(files, OlderOrTied);
    forall i, j | 0 <= i < j < |s| ensures s[i].name != s[j].name {
      assert s[i] in s && s[j] in s;
      var a :| 0 <= a < |files| && files[a] == s[i];
      var b :| 0 <= b < |files| && files[b] == s[j];
    }
  }

  /** The quota pass counts its targets in the order of the walk. */
  lemma QuotaCounts(files: seq<StoredFile>, policy: RetentionPolicy)
    requires Named(files)
    ensures Total(Filter(files, CountedBy(Among(Targets(files, policy)), policy.secureDelete)))
         == Total(QuotaCounted(files, policy))
  {
    hide Filter, Total, Targets, Counts;
    var targets, counts := Targets(files, policy), (f: StoredFile) => Counts(f, policy.secureDelete);
    var counted := QuotaCounted(files, policy);
    TargetsWithin(files, policy);
    FilterNamed(targets, counts);
    FilterMembers(targets, counts);
    FilterSame(files, CountedBy(Among(targets), policy.secureDelete), Among(counted));
    TotalOfSome(files, counted);
  }

  /** Bytes are conserved by a cleanup, up to what counted deletions left behind. */
  lemma BytesConserved(files: seq<StoredFile>, policy: RetentionPolicy, now: real)
    requires Named(files)
    ensures Total(Counted(files, policy, now)) + Total(Kept(files, policy, now))
         == Total(files) + Leftovers(files, policy, now)
  {
    hide Total, Filter, Attempt, Targets, Leftover, QuotaCounted, TtlCounted;
    if policy.ttlDays == 0 {
      NoTotal();
    } else {
      var left := AfterTtl(files, policy, now);
      var expired := Expired(Cutoff(policy, now));
      TtlCountedIs(files, policy, now);
      AttemptConserves(files, expired, policy.secureDelete);
      AttemptNamed(files, expired, policy.secureDelete);
      AttemptConserves(left, Among(Targets(left, policy)), policy.secureDelete);
      QuotaCounts(left, policy);
      TotalConcat(TtlCounted(files, policy, now), QuotaCounted(left, policy));
    }
  }

  lemma TtlCountedIs(files: seq<StoredFile>, policy: RetentionPolicy, now: real)
    ensures TtlCounted(files, policy, now)
         == Filter(files, CountedBy(Expired(Cutoff(policy, now)), policy.secureDelete))
  {
  }

  lemma NoTotal()
    ensures Total([]) == 0
  {
  }

  lemma {:induction false} NoLeftoverIff(files: seq<StoredFile>, p: StoredFile -> bool, secure: bool)
    ensures Leftover(files, p, secure) == 0 <==>
            forall f | f in files && p(f) && Counts(f, secure) :: f.fate.Goes? || f.fate.size == 0
  {
    if files != [] {
      assert files == [files[0]] + files[1..];
      NoLeftoverIff(files[1..], p, secure);
      LeftSize(files[0], secure);
    }
  }

  lemma LeftSize(f: StoredFile, secure: bool)
    ensures Counts(f, secure) ==> Total(Left(f, secure)) == if f.fate.Goes? then 0 else f.fate.size
  {
    if f.fate.Stays? && secure { assert Left(f, secure)[1..] == []; }
  }

  /** The reported figure is exact unless a counted attempt failed and left bytes behind. A secure deletion whose last
      step failed left none; plain deletion never counts a failure. */
  lemma BytesConservedIff(files: seq<StoredFile>, policy: RetentionPolicy, now: real)
    requires Named(files)
    ensures Total(Counted(files, policy, now)) + Total(Kept(files, policy, now)) == Total(files)
       <==> forall f | f in Counted(files, policy, now) :: f.fate.Goes? || f.fate.size == 0
    ensures !policy.secureDelete ==> forall f | f in Counted(files, policy, now) :: f.fate.Goes?
  {
    hide Total, Filter, Kept, Leftover, Targets, Attempt;
    BytesConserved(files, policy, now);
    if policy.ttlDays != 0 {
      var secure, expired, left := policy.secureDelete, Expired(Cutoff(policy, now)), AfterTtl(files, policy, now);
      var targets := Targets(left, policy);
      AttemptNamed(files, expired, secure);
      TargetsWithin(left, policy);
      FilterMembers(files, CountedBy(expired, secure));
      FilterMembers(targets, (f: StoredFile) => Counts(f, secure));
      NoLeftoverIff(files, expired, secure);
      NoLeftoverIff(left, Among(targets), secure);
    }
  }

  // ---- what the quota pass picks ----

  lemma OneTotal(files: seq<StoredFile>)
    requires |files| <= 1
    ensures Total(files) == if files == [] then 0 else files[0].size
  {
    if files != [] { assert files[1..] == []; }
  }

  /** What the walk believes it has freed with its first `m` attempts. */
  function Freed(s: seq<StoredFile>, m: nat, secure: bool): nat
    requires m <= |s|
  {
    Total(Filter(s[..m], (f: StoredFile) => Counts(f, secure)))
  }

  lemma FreedNothing(s: seq<StoredFile>, secure: bool)
    ensures Freed(s, 0, secure) == 0
  {
    assert s[..0] == [];
  }

  lemma FreedNext(s: seq<StoredFile>, m: nat, secure: bool)
    requires m < |s|
    ensures Freed(s, m + 1, secure) == (if secure || s[0].fate.Goes? then s[0].size else 0) + Freed(s[1..], m, secure)
  {
    var counts := (f: StoredFile) => Counts(f, secure);
    assert s[..m + 1] == [s[0]] + s[1..][..m];
    FilterCons(s[0], s[1..][..m], counts);
    TotalConcat(if counts(s[0]) then [s[0]] else [], Filter(s[1..][..m], counts));
    OneTotal(if counts(s[0]) then [s[0]] else []);
  }

  /** The walk stops as soon as it believes the rest to fit, or with no file left to attempt. */
  lemma {:induction false} TurnsAreFewest(s: seq<StoredFile>, total: int, limit: int, secure: bool)
    ensures var n := Turns(s, total, limit, secure);
            && (n == |s| || total - Freed(s, n, secure) <= limit)
            && forall m | 0 <= m < n :: total - Freed(s, m, secure) > limit
    decreases |s|
  {
    hide Freed;
    FreedNothing(s, secure);
    if s != [] && total > limit {
      var next := if Counts(s[0], secure) then total - s[0].size else total;
      var n := Turns(s, total, limit, secure);
      TurnsAreFewest(s[1..], next, limit, secure);
      if n < |s| { FreedNext(s, n - 1, secure); }
      forall m | 0 < m < n ensures total - Freed(s, m, secure) > limit { FreedNext(s, m - 1, secure); }
    }
  }

  lemma FreedAll(s: seq<StoredFile>, m: nat, secure: bool)
    requires m <= |s| && forall f | f in s :: Counts(f, secure)
    ensures Total(s) - Freed(s, m, secure) == Total(s[m..])
  {
    hide Total, Filter, Counts;
    FilterAll(s[..m], (f: StoredFile) => Counts(f, secure));
    assert s == s[..m] + s[m..];
    TotalConcat(s[..m], s[m..]);
  }

  lemma OlderIsPreorder()
    ensures TotalPreorder(OlderOrTied)
  {
  }

  /** Quota deletion attempts the shortest oldest-first prefix after which what it counted makes the rest fit, or every
      file when there is no such prefix: failed plain deletions are skipped and not counted. */
  lemma QuotaTakesShortestPrefix(files: seq<StoredFile>, policy: RetentionPolicy)
    requires policy.maxSizeMb > 0
    ensures var s, n := OldestFirst(files), |Targets(files, policy)|;
            && (forall i, j | 0 <= i < j < |s| :: s[i].mtime <= s[j].mtime) && multiset(s) == multiset(files)
            && n <= |s| && Targets(files, policy) == s[..n]
            && (n == |s| || Total(files) - Freed(s, n, policy.secureDelete) <= policy.maxSizeMb * 1048576)
            && forall m | 0 <= m < n :: Total(files) - Freed(s, m, policy.secureDelete) > policy.maxSizeMb * 1048576
  {
    hide StableSort, Total, Turns, Counts, Freed;
    OlderIsPreorder();
    SortSorted(files, OlderOrTied);
    SortElements(files, OlderOrTied);
    SortTotal(files);
    TurnsAreFewest(OldestFirst(files), Total(files), MaxBytes(policy), policy.secureDelete);
  }

  /** When every attempt counts, always when it is secure, the rest is what the walk believes it to be, and fits. */
  lemma QuotaSparesTheRest(files: seq<StoredFile>, policy: RetentionPolicy)
    requires policy.maxSizeMb > 0 && forall f | f in files :: Counts(f, policy.secureDelete)
    ensures var s, n := OldestFirst(files), |Targets(files, policy)|;
            && n <= |s| && Targets(files, policy) == s[..n]
            && Total(s[n..]) <= policy.maxSizeMb * 1048576
            && forall m | 0 <= m < n :: Total(s[m..]) > policy.maxSizeMb * 1048576
  {
    hide StableSort, Total, Turns, Counts, Freed;
    var s, n := OldestFirst(files), |Targets(files, policy)|;
    QuotaTakesShortestPrefix(files, policy);
    SortMembers(files, OlderOrTied);
    SortTotal(files);
    forall m | 0 <= m <= n ensures Total(files) - Freed(s, m, policy.secureDelete) == Total(s[m..]) {
      FreedAll(s, m, policy.secureDelete);
    }
    if n == |s| {
      NoTotal();
      assert s[n..] == [];
    }
  }

  lemma TargetsAreOldest(files: seq<StoredFile>, policy: RetentionPolicy, v: StoredFile, f: StoredFile)
    requires v in Targets(files, policy) && f in files && f !in Targets(files, policy)
    ensures v.mtime <= f.mtime
  {
    hide StableSort, Total, Turns;
    OlderIsPreorder();
    SortSorted(files, OlderOrTied);
    SortMembers(files, OlderOrTied);
    var s, n := OldestFirst(files), |Targets(files, policy)|;
    if policy.maxSizeMb > 0 {
      var i :| 0 <= i < n && s[i] == v;
      assert f in s;
      var j :| 0 <= j < |s| && s[j] == f;
      forall k | 0 <= k < n ensures s[k] in Targets(files, policy) { assert Targets(files, policy)[k] == s[k]; }
      assert OlderOrTied(s[i], s[j]);
    }
  }

  /** No file that could be deleted stays while a newer one goes, over both passes. */
  lemma OldestGoFirst(files: seq<StoredFile>, policy: RetentionPolicy, now: real, v: StoredFile, f: StoredFile)
    requires v in files && forall g | g in Kept(files, policy, now) :: g.name != v.name
    requires f in files && f in Kept(files, policy, now) && f.fate.Goes? && Named(files)
    ensures v.mtime <= f.mtime
  {
    hide Attempt, Targets, Left;
    if policy.ttlDays == 0 { return; }
    var secure, expired, left := policy.secureDelete, Expired(Cutoff(policy, now)), AfterTtl(files, policy, now);
    AttemptNamed(files, expired, secure);
    var h := AttemptNames(left, Among(Targets(left, policy)), secure, f);
    UntouchedIs(files, expired, secure, f, left);
    UntouchedIs(left, Among(Targets(left, policy)), secure, f, Kept(files, policy, now));
    if !expired(v) {
      AttemptMembers(files, expired, secure);
      AttemptMembers(left, Among(Targets(left, policy)), secure);
      assert v in left && v in Targets(left, policy);
      TargetsAreOldest(left, policy, v, f);
    }
  }

  /** A deletable file that is still there under its name after further attempts was never picked. */
  lemma UntouchedIs(files: seq<StoredFile>, p: StoredFile -> bool, secure: bool, f: StoredFile, after: seq<StoredFile>)
    requires Named(files) && f.fate.Goes? && after == Attempt(files, p, secure)
    requires exists g | g in after :: g.name == f.name
    requires f in files
    ensures f in after && !p(f)
  {
    hide Attempt;
    var g :| g in after && g.name == f.name;
    var h := AttemptNames(files, p, secure, g);
    assert h == f;
  }

  // ---- does the rest fit ----

  /** What is left of a directory when every file has been attempted by plain deletion. */
  function Residue(files: seq<StoredFile>): nat {
    if files == [] then 0 else (if files[0].fate.Goes? then 0 else files[0].size) + Residue(files[1..])
  }

  lemma {:induction false} PlainAttempt(files: seq<StoredFile>, p: StoredFile -> bool)
    ensures Residue(files) <= Total(Attempt(files, p, false)) && Leftover(files, p, false) == 0
    ensures (forall f | f in files :: p(f)) ==> Total(Attempt(files, p, false)) == Residue(files)
  {
    if files != [] {
      var f, rest := files[0], files[1..];
      PlainAttempt(rest, p);
      assert files == [f] + rest;
      var mine := if p(f) then Left(f, false) else [f];
      TotalConcat(mine, Attempt(rest, p, false));
      OneTotal(mine);
    }
  }

  /** The quota pass alone: what is left is what there was, less what it counted, and what counted attempts left. */
  lemma QuotaConserves(files: seq<StoredFile>, policy: RetentionPolicy)
    requires Named(files)
    ensures Total(AfterQuota(files, policy))
         == Total(files) - Total(QuotaCounted(files, policy))
            + Leftover(files, Among(Targets(files, policy)), policy.secureDelete)
  {
    hide Total, Filter, Attempt, Targets, Leftover, QuotaCounted;
    AttemptConserves(files, Among(Targets(files, policy)), policy.secureDelete);
    QuotaCounts(files, policy);
  }

  lemma PlainQuotaFitsIff(files: seq<StoredFile>, policy: RetentionPolicy)
    requires Named(files) && policy.maxSizeMb > 0 && !policy.secureDelete
    ensures Total(AfterQuota(files, policy)) <= MaxBytes(policy) <==> Residue(files) <= MaxBytes(policy)
  {
    hide Total, Filter, Attempt, Leftover, StableSort, Turns, Residue, Counts;
    var s, n := OldestFirst(files), |Targets(files, policy)|;
    QuotaConserves(files, policy);
    PlainAttempt(files, Among(Targets(files, policy)));
    QuotaTakesShortestPrefix(files, policy);
    if n == |s| {
      assert Targets(files, policy) == s;
      SortMembers(files, OlderOrTied);
    }
  }

  lemma SecureQuotaLeaves(files: seq<StoredFile>, policy: RetentionPolicy)
    requires Named(files) && policy.maxSizeMb > 0 && policy.secureDelete
    ensures Total(AfterQuota(files, policy))
         == Total(OldestFirst(files)[|Targets(files, policy)|..]) + Leftover(files, Among(Targets(files, policy)), true)
  {
    hide Total, Attempt, Leftover, StableSort, Turns;
    var s, n := OldestFirst(files), |Targets(files, policy)|;
    QuotaConserves(files, policy);
    FilterAll(Targets(files, policy), (f: StoredFile) => Counts(f, true));
    SortTotal(files);
    assert s == s[..n] + s[n..];
    TotalConcat(s[..n], s[n..]);
  }

  /** When a cleanup ends within the quota. A policy that never expires leaves the directory as it was. With plain
      deletion what cannot be deleted must fit. A secure one stops counting after the shortest prefix without which the
      rest fits, and whatever its failed deletions left must fit beside that rest. */
  lemma FitsIff(files: seq<StoredFile>, policy: RetentionPolicy, now: real)
    requires Named(files) && policy.maxSizeMb > 0
    ensures Total(Kept(files, policy, now)) <= policy.maxSizeMb * 1048576 <==>
            if policy.ttlDays == 0 then Total(files) <= policy.maxSizeMb * 1048576
            else
              var left := AfterTtl(files, policy, now);
              var s, n := OldestFirst(left), |Targets(left, policy)|;
              if policy.secureDelete
              then Total(s[n..]) + Leftover(left, Among(s[..n]), true) <= policy.maxSizeMb * 1048576
              else Residue(left) <= policy.maxSizeMb * 1048576
  {
    hide Total, Attempt, Leftover, StableSort, Turns, Residue;
    if policy.ttlDays != 0 {
      var left := AfterTtl(files, policy, now);
      AttemptNamed(files, Expired(Cutoff(policy, now)), policy.secureDelete);
      if policy.secureDelete {
        SecureQuotaLeaves(left, policy);
      } else {
        PlainQuotaFitsIff(left, policy);
      }
    }
  }

  /** So a secure policy meets its quota whenever no failed deletion left bytes behind: if deletion failed at all, then
      only at its last step. */
  lemma SecureFits(files: seq<StoredFile>, policy: RetentionPolicy, now: real)
    requires Named(files) && policy.maxSizeMb > 0 && policy.secureDelete && policy.ttlDays != 0
    requires forall f | f in AfterTtl(files, policy, now) :: f.fate.Goes? || f.fate.size == 0
    ensures Total(Kept(files, policy, now)) <= policy.maxSizeMb * 1048576
  {
    hide Total, Attempt, Leftover, StableSort, Turns, Kept;
    var left := AfterTtl(files, policy, now);
    FitsIff(files, policy, now);
    QuotaSparesTheRest(left, policy);
    NoLeftoverIff(left, Among(Targets(left, policy)), true);
  }

  lemma {:induction false} NoResidue(files: seq<StoredFile>)
    requires forall f | f in files :: f.fate.Goes?
    ensures Residue(files) == 0
  {
    if files != [] { NoResidue(files[1..]); }
  }

  /** When no deletion fails, what a cleanup keeps are files as they were, none of them past its time, all such files
      when there is no quota, and otherwise as many bytes as the quota allows. */
  lemma SureCleanup(files: seq<StoredFile>, policy: RetentionPolicy, now: real)
    requires Named(files) && policy.ttlDays != 0 && forall f | f in files :: f.fate.Goes?
    ensures var kept := Kept(files, policy, now);
            && (forall f | f in kept :: f in files && now - f.mtime <= (86400 * policy.ttlDays) as real)
            && (policy.maxSizeMb > 0 ==> Total(kept) <= policy.maxSizeMb * 1048576)
            && (policy.maxSizeMb <= 0 ==>
                  forall f | f in files && now - f.mtime <= (86400 * policy.ttlDays) as real :: f in kept)
  {
    hide Attempt, Total, Leftover, StableSort, Turns, Residue, Filter;
    var left := AfterTtl(files, policy, now);
    AttemptMembers(files, Expired(Cutoff(policy, now)), policy.secureDelete);
    AttemptMembers(left, Among(Targets(left, policy)), policy.secureDelete);
    if policy.maxSizeMb > 0 {
      if policy.secureDelete { SecureFits(files, policy, now); } else { FitsIff(files, policy, now); NoResidue(left); }
    } else {
      AttemptNone(left, Among([]), policy.secureDelete);
    }
  }
}
