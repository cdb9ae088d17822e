/** `RetentionManager`: the two deletion loops over one directory. */
module Retention {
  import opened Sorting
  import opened RetentionModel

  function ByName(name: string): StoredFile -> bool { (f: StoredFile) => f.name == name }

  lemma TotalNext(files: seq<StoredFile>, f: StoredFile)
    ensures Total(files + [f]) == Total(files) + f.size
  {
    TotalConcat(files, [f]);
  }

  lemma FilterNext(files: seq<StoredFile>, p: StoredFile -> bool, i: nat)
    requires i < |files|
    ensures Filter(files[..i + 1], p) == Filter(files[..i], p) + if p(files[i]) then [files[i]] else []
  {
    assert files[..i + 1] == files[..i] + [files[i]];
    FilterConcat(files[..i], [files[i]], p);
    if p(files[i]) { FilterAll([files[i]], p); } else { FilterNone([files[i]], p); }
  }

  // ---- the time pass ----

  /** The names that a raising deletion leaves in the error list. */
  function FailedNames(files: seq<StoredFile>, cutoff: real, secure: bool): seq<string>
    decreases |files|
  {
    if files == [] then []
    else
      var last := files[|files| - 1];
      FailedNames(files[..|files| - 1], cutoff, secure)
      + if last.mtime < cutoff && !Counts(last, secure) then [last.name] else []
  }

  lemma {:induction false} FailedNamesAre(files: seq<StoredFile>, policy: RetentionPolicy, now: real)
    ensures forall name :: name in FailedNames(files, Cutoff(policy, now), policy.secureDelete) <==>
              exists f | f in files && f.name == name ::
                now - f.mtime > (86400 * policy.ttlDays) as real && !policy.secureDelete && f.fate.Stays?
    decreases |files|
  {
    if files != [] {
      FailedNamesAre(files[..|files| - 1], policy, now);
      assert files == files[..|files| - 1] + [files[|files| - 1]];
    }
  }

  /** The directory while the time pass is at file `i`. */
  function Midway(listing: seq<StoredFile>, cutoff: real, secure: bool, i: nat): seq<StoredFile>
    requires i <= |listing|
  {
    Attempt(listing[..i], Expired(cutoff), secure) + listing[i..]
  }

  lemma OtherNames(files: seq<StoredFile>, p: StoredFile -> bool, secure: bool, name: string)
    requires forall f | f in files :: f.name != name
    ensures Attempt(Attempt(files, p, secure), ByName(name), secure) == Attempt(files, p, secure)
  {
    hide Attempt;
    forall g | g in Attempt(files, p, secure) ensures !ByName(name)(g) {
      var f := AttemptNames(files, p, secure, g);
    }
    AttemptNone(Attempt(files, p, secure), ByName(name), secure);
  }

  lemma MidwayNext(listing: seq<StoredFile>, cutoff: real, secure: bool, i: nat)
    requires Named(listing) && i < |listing|
    ensures Midway(listing, cutoff, secure, i + 1)
         == if listing[i].mtime < cutoff
            then Attempt(Midway(listing, cutoff, secure, i), ByName(listing[i].name), secure)
            else Midway(listing, cutoff, secure, i)
  {
    hide Attempt, Left;
    var f, before, rest := listing[i], listing[..i], listing[i + 1..];
    var done := Attempt(before, Expired(cutoff), secure);
    assert listing[..i + 1] == before + [f] && listing[i..] == [f] + rest;
    AttemptConcat(before, [f], Expired(cutoff), secure);
    AttemptOne(f, Expired(cutoff), secure);
    if f.mtime < cutoff {
      OtherNames(before, Expired(cutoff), secure, f.name);
      AttemptsOne(done, f, rest, secure);
      Regrouped(done, Left(f, secure), rest);
    } else {
      Regrouped(done, [f], rest);
    }
  }

  lemma Regrouped(a: seq<StoredFile>, b: seq<StoredFile>, c: seq<StoredFile>)
    ensures a + b + c == a + (b + c)
  {
  }

  /** An attempt by name touches one file. */
  lemma AttemptsOne(done: seq<StoredFile>, f: StoredFile, rest: seq<StoredFile>, secure: bool)
    requires Attempt(done, ByName(f.name), secure) == done && forall g | g in rest :: g.name != f.name
    ensures Attempt(done + ([f] + rest), ByName(f.name), secure) == done + (Left(f, secure) + rest)
  {
    hide Attempt, Left;
    AttemptConcat(done, [f] + rest, ByName(f.name), secure);
    AttemptConcat([f], rest, ByName(f.name), secure);
    AttemptOne(f, ByName(f.name), secure);
    AttemptNone(rest, ByName(f.name), secure);
  }

  lemma AttemptOne(f: StoredFile, p: StoredFile -> bool, secure: bool)
    ensures Attempt([f], p, secure) == if p(f) then Left(f, secure) else [f]
  {
    assert [f][1..] == [] && Attempt([], p, secure) == [];
  }

  lemma CountedNext(listing: seq<StoredFile>, cutoff: real, secure: bool, i: nat)
    requires i < |listing|
    ensures var p := CountedBy(Expired(cutoff), secure);
            if listing[i].mtime < cutoff && Counts(listing[i], secure)
            then |Filter(listing[..i + 1], p)| == |Filter(listing[..i], p)| + 1
                 && Total(Filter(listing[..i + 1], p)) == Total(Filter(listing[..i], p)) + listing[i].size
            else Filter(listing[..i + 1], p) == Filter(listing[..i], p)
    ensures FailedNames(listing[..i + 1], cutoff, secure) == FailedNames(listing[..i], cutoff, secure)
            + if listing[i].mtime < cutoff && !Counts(listing[i], secure) then [listing[i].name] else []
  {
    hide Filter, Total;
    var p := CountedBy(Expired(cutoff), secure);
    FilterNext(listing, p, i);
    TotalNext(Filter(listing[..i], p), listing[i]);
    assert listing[..i + 1][..i] == listing[..i];
  }

  lemma MidwayStarts(listing: seq<StoredFile>, cutoff: real, secure: bool)
    ensures Midway(listing, cutoff, secure, 0) == listing
    ensures Filter(listing[..0], CountedBy(Expired(cutoff), secure)) == [] && Total([]) == 0
    ensures FailedNames(listing[..0], cutoff, secure) == []
  {
  }

  lemma MidwayEnds(listing: seq<StoredFile>, cutoff: real, secure: bool)
    ensures Midway(listing, cutoff, secure, |listing|) == Attempt(listing, Expired(cutoff), secure)
  {
    assert listing[..|listing|] == listing && listing[|listing|..] == [];
  }

  // ---- the quota pass ----

  lemma TurnsNext(s: seq<StoredFile>, i: nat, total: int, limit: int, secure: bool)
    requires i < |s| && total > limit
    ensures Turns(s[i..], total, limit, secure)
         == 1 + Turns(s[i + 1..], if Counts(s[i], secure) then total - s[i].size else total, limit, secure)
  {
    assert s[i..][1..] == s[i + 1..];
  }

  lemma {:induction false} AttemptTwice(files: seq<StoredFile>, p: StoredFile -> bool, q: StoredFile -> bool,
                                        both: StoredFile -> bool, secure: bool)
    requires forall f | f in files :: (both(f) <==> p(f) || q(f)) && !(p(f) && q(f))
    requires forall f, g | f in files && p(f) && g in Left(f, secure) :: !q(g)
    ensures Attempt(Attempt(files, p, secure), q, secure) == Attempt(files, both, secure)
  {
    if files != [] {
      var f, rest := files[0], files[1..];
      assert f in files;
      AttemptTwice(rest, p, q, both, secure);
      hide Left;
      var mine := if p(f) then Left(f, secure) else [f];
      AttemptConcat(mine, Attempt(rest, p, secure), q, secure);
      if p(f) { AttemptNone(mine, q, secure); } else { AttemptOne(f, q, secure); }
    }
  }

  /** One more target, attempted by its name. */
  lemma TargetNext(listing: seq<StoredFile>, s: seq<StoredFile>, i: nat, secure: bool)
    requires Named(listing) && Named(s) && i < |s| && forall f | f in s :: f in listing
    ensures Attempt(Attempt(listing, Among(s[..i]), secure), ByName(s[i].name), secure)
         == Attempt(listing, Among(s[..i + 1]), secure)
  {
    hide Attempt, Left;
    var f := s[i];
    assert f in s && s[..i + 1] == s[..i] + [f];
    forall g | g in listing ensures ByName(f.name)(g) <==> g == f {
      var a :| 0 <= a < |listing| && listing[a] == f;
      var b :| 0 <= b < |listing| && listing[b] == g;
    }
    forall g, h | g in listing && Among(s[..i])(g) && h in Left(g, secure) ensures !ByName(f.name)(h) {
      LeftKeepsName(g, secure);
    }
    AttemptTwice(listing, Among(s[..i]), ByName(f.name), Among(s[..i + 1]), secure);
  }

  /** `_dir_stats`. */
  method DirTotal(files: seq<StoredFile>) returns (total: nat)
    ensures total == Total(files)
  {
    total := 0;
    for i := 0 to |files|
      invariant total == Total(files[..i])
    {
      assert files[..i + 1] == files[..i] + [files[i]];
      TotalNext(files[..i], files[i]);
      total := total + files[i].size;
    }
    assert files[..|files|] == files;
  }

  class RetentionManager {
    var files: seq<StoredFile>

    ghost predicate Valid()
      reads this
    {
      Named(files)
    }

    constructor (files: seq<StoredFile>)
      requires Named(files)
      ensures Valid() && this.files == files
    {
      this.files := files;
    }

    /** One attempt to delete `f`, and whether the caller counts it. */
    method Delete(f: StoredFile, secure: bool) returns (counted: bool)
      modifies this
      ensures files == Attempt(old(files), ByName(f.name), secure)
      ensures counted == Counts(f, secure)
    {
      files := Attempt(files, ByName(f.name), secure);
      return secure || f.fate.Goes?;
    }

    method RemoveExpired(policy: RetentionPolicy, now: real) returns (stats: Stats)
      requires Valid()
      modifies this
      ensures files == AfterTtl(old(files), policy, now)
      ensures stats.filesRemoved == |TtlCounted(old(files), policy, now)|
      ensures stats.bytesFreed == Total(TtlCounted(old(files), policy, now))
      ensures stats.errors == FailedNames(old(files), Cutoff(policy, now), policy.secureDelete)
      ensures forall name :: name in stats.errors <==> exists f | f in old(files) && f.name == name ::
                now - f.mtime > (86400 * policy.ttlDays) as real && !policy.secureDelete && f.fate.Stays?
    {
      FailedNamesAre(files, policy, now);
      hide Total, Filter, Attempt, Midway, FailedNames;
      stats := Stats(0, 0, []);
      var cutoff, secure := Cutoff(policy, now), policy.secureDelete;
      var listing := files;
      ghost var counts := CountedBy(Expired(cutoff), secure);
      MidwayStarts(listing, cutoff, secure);
      for i := 0 to |listing|
        invariant files == Midway(listing, cutoff, secure, i)
        invariant stats.filesRemoved == |Filter(listing[..i], counts)|
        invariant stats.bytesFreed == Total(Filter(listing[..i], counts))
        invariant stats.errors == FailedNames(listing[..i], cutoff, secure)
      {
        var f := listing[i];
        MidwayNext(listing, cutoff, secure, i);
        CountedNext(listing, cutoff, secure, i);
        if f.mtime < cutoff {
          var counted := Delete(f, secure);
          if counted {
            stats := stats.(filesRemoved := stats.filesRemoved + 1, bytesFreed := stats.bytesFreed + f.size);
          } else {
            stats := stats.(errors := stats.errors + [f.name]);
          }
        }
      }
      MidwayEnds(listing, cutoff, secure);
      assert listing[..|listing|] == listing;
    }

    method RemoveOverQuota(policy: RetentionPolicy, before: Stats) returns (stats: Stats)
      requires Valid()
      modifies this
      ensures files == AfterQuota(old(files), policy)
      ensures stats.filesRemoved == before.filesRemoved + |QuotaCounted(old(files), policy)|
      ensures stats.bytesFreed == before.bytesFreed + Total(QuotaCounted(old(files), policy))
      ensures stats.errors == before.errors
    {
      hide Filter, Total, Attempt, StableSort, Turns, Counts;
      stats := before;
      NothingPicked(files, policy.secureDelete);
      if policy.maxSizeMb <= 0 { return; }
      var listing := files;
      var total: int := DirTotal(files);
      var limit, secure := MaxBytes(policy), policy.secureDelete;
      var oldestFirst := OldestFirst(listing);
      SortMembers(listing, OlderOrTied);
      SortNamed(listing);
      ghost var counts := (f: StoredFile) => Counts(f, secure);
      ghost var turns := Turns(oldestFirst, total, limit, secure);
      var i := 0;
      assert oldestFirst[0..] == oldestFirst && oldestFirst[..0] == [];
      while i < |oldestFirst| && total > limit
        invariant i <= |oldestFirst|
        invariant turns == i + Turns(oldestFirst[i..], total, limit, secure)
        invariant files == Attempt(listing, Among(oldestFirst[..i]), secure)
        invariant stats.filesRemoved == before.filesRemoved + |Filter(oldestFirst[..i], counts)|
        invariant stats.bytesFreed == before.bytesFreed + Total(Filter(oldestFirst[..i], counts))
        invariant stats.errors == before.errors
      {
        var f := oldestFirst[i];
        TurnsNext(oldestFirst, i, total, limit, secure);
        TargetNext(listing, oldestFirst, i, secure);
        FilterNext(oldestFirst, counts, i);
        TotalNext(Filter(oldestFirst[..i], counts), f);
        assert Filter(oldestFirst[..i], counts) + [] == Filter(oldestFirst[..i], counts);
        var counted := Delete(f, secure);
        if counted {
          stats := stats.(filesRemoved := stats.filesRemoved + 1, bytesFreed := stats.bytesFreed + f.size);
          total := total - f.size;
        }
        i := i + 1;
      }
      TurnsEnd(oldestFirst[i..], total, limit, secure);
    }

    /** `_cleanup_directory`. A policy that never expires also never applies its quota. */
    method CleanupDirectory(policy: RetentionPolicy, now: real) returns (stats: Stats)
      requires Valid()
      modifies this
      ensures Valid() && files == Kept(old(files), policy, now)
      ensures stats.filesRemoved == |Counted(old(files), policy, now)|
      ensures stats.bytesFreed == Total(Counted(old(files), policy, now))
      ensures policy.ttlDays == 0 ==> files == old(files) && stats == Stats(0, 0, [])
      ensures stats.errors == if policy.ttlDays == 0 then []
                              else FailedNames(old(files), Cutoff(policy, now), policy.secureDelete)
    {
      hide Total, Attempt, TtlCounted, QuotaCounted, Targets;
      if policy.ttlDays == 0 {
        NoTotal();
        return Stats(0, 0, []);
      }
      var afterTtl := RemoveExpired(policy, now);
      AttemptNamed(old(files), Expired(Cutoff(policy, now)), policy.secureDelete);
      ghost var left := files;
      TotalConcat(TtlCounted(old(files), policy, now), QuotaCounted(left, policy));
      stats := RemoveOverQuota(policy, afterTtl);
      AttemptNamed(left, Among(Targets(left, policy)), policy.secureDelete);
    }
  }

  lemma NothingPicked(files: seq<StoredFile>, secure: bool)
    ensures Attempt(files, Among([]), secure) == files
    ensures Filter([], (f: StoredFile) => Counts(f, secure)) == [] && Total([]) == 0
  {
    AttemptNone(files, Among([]), secure);
  }

  lemma TurnsEnd(s: seq<StoredFile>, total: int, limit: int, secure: bool)
    requires s == [] || total <= limit
    ensures Turns(s, total, limit, secure) == 0
  {
  }
}
