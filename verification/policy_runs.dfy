/** Saves and rollbacks over the whole store: the files always stand for an append-only log. */
module PolicyRuns {
  import opened Collections
  import opened PolicyModel
  import opened PolicyHistory

  // ---- the store of directories ----

  type Files = map<string, Dir>

  function DirAt(files: Files, name: string): Dir { if name in files then files[name] else NO_FILES }

  /** `save`: a listing that raises leaves the directory as it was. */
  function SaveIn(files: Files, policy: Policy, author: string, change: string, now: string, digest: Digest): Files {
    var dir := DirAt(files, policy.name);
    match Save(dir, policy, author, change, now, digest)
    case None => files[policy.name := dir]
    case Some(v) => files[policy.name := Write(dir, v)]
  }

  function RollbackNote(number: int): string { "Rollback to v" + Decimal(number) }

  function RollbackIn(files: Files, name: string, number: int, author: string, now: string, digest: Digest): Files {
    match Load(DirAt(files, name), number)
    case Found(v) => SaveIn(files, v.policy, author, RollbackNote(number), now, digest)
    case Absent => files
    case Raised => files
  }

  datatype Op =
    | SaveOp(policy: Policy, author: string, change: string, now: string)
    | RollbackOp(name: string, number: int, author: string, now: string)

  function Step(files: Files, op: Op, digest: Digest): Files {
    match op
    case SaveOp(policy, author, change, now) => SaveIn(files, policy, author, change, now, digest)
    case RollbackOp(name, number, author, now) => RollbackIn(files, name, number, author, now, digest)
  }

  function Run(files: Files, ops: seq<Op>, digest: Digest): Files
    decreases |ops|
  {
    if ops == [] then files else Run(Step(files, ops[0], digest), ops[1..], digest)
  }

  // ---- the log ----

  type Log = seq<Version>
  type Logs = map<string, Log>

  ghost function LogAt(logs: Logs, name: string): Log { if name in logs then logs[name] else [] }

  ghost function Appended(log: Log, policy: Policy, author: string, change: string, now: string, digest: Digest): Log {
    log + [Version(policy, |log| + 1, author, now, change, HashOf(policy, digest))]
  }

  ghost function LogStep(logs: Logs, op: Op, digest: Digest): Logs {
    match op
    case SaveOp(policy, author, change, now) =>
      logs[policy.name := Appended(LogAt(logs, policy.name), policy, author, change, now, digest)]
    case RollbackOp(name, number, author, now) =>
      var log := LogAt(logs, name);
      if 1 <= number <= |log|
      then logs[name := Appended(log, log[number - 1].policy, author, RollbackNote(number), now, digest)]
      else logs
  }

  ghost function LogRun(logs: Logs, ops: seq<Op>, digest: Digest): Logs
    decreases |ops|
  {
    if ops == [] then logs else LogRun(LogStep(logs, ops[0], digest), ops[1..], digest)
  }

  // ---- files stand for the log ----

  ghost predicate Numbered(log: Log) { forall i | 0 <= i < |log| :: log[i].number == i + 1 }

  ghost predicate Intact(log: Log, name: string, digest: Digest) {
    forall i | 0 <= i < |log| :: log[i].policy.name == name && log[i].contentHash == HashOf(log[i].policy, digest)
  }

  ghost predicate LatestIs(items: map<string, Content>, log: Log) {
    if log == [] then LATEST !in items
    else LATEST in items && items[LATEST] == Doc(VersionToDict(log[|log| - 1]))
  }

  ghost predicate StandsFor(dir: Dir, log: Log, name: string, digest: Digest) {
    Stores(dir.items, log) && LatestIs(dir.items, log) && Numbered(log) && Intact(log, name, digest)
  }

  ghost predicate AllStandFor(files: Files, logs: Logs, digest: Digest) {
    && files.Keys == logs.Keys
    && forall name | name in files :: StandsFor(files[name], logs[name], name, digest)
  }

  lemma EmptyStandsFor(name: string, digest: Digest)
    ensures StandsFor(NO_FILES, [], name, digest)
  {
  }

  lemma DirStandsFor(files: Files, logs: Logs, name: string, digest: Digest)
    requires AllStandFor(files, logs, digest)
    ensures StandsFor(DirAt(files, name), LogAt(logs, name), name, digest)
  {
    hide StandsFor;
    EmptyStandsFor(name, digest);
  }

  lemma NextIsLength(dir: Dir, log: Log)
    requires Stores(dir.items, log) && Numbered(log)
    ensures ListVersions(dir).Some? && NextNumber(ListVersions(dir).value) == |log| + 1
  {
    hide ListVersions, Stores;
    ListingIsExact(dir, log);
    var vs := ListVersions(dir).value;
    if log != [] {
      assert log[|log| - 1] in log;
      assert log[|log| - 1] in vs;
      var h := Highest(vs);
      assert h in log;
      var i :| 0 <= i < |log| && log[i] == h;
    }
  }

  function Contents(v: Version): Content { Doc(VersionToDict(v)) }

  /** Putting a version at its number keeps every other file. */
  lemma PutStores(items: map<string, Content>, log: Log, n: nat, v: Version)
    requires Stores(items, log) && 1 <= n <= |log| + 1
    ensures Stores(items[FileName(n) := Contents(v)], if n <= |log| then log[n - 1 := v] else log + [v])
  {
    hide VersionToDict, FileName, IsVersionFile;
    var after := items[FileName(n) := Contents(v)];
    var files := if n <= |log| then log[n - 1 := v] else log + [v];
    forall m | 1 <= m <= |files| ensures FileName(m) in after && after[FileName(m)] == Contents(files[m - 1]) {
      FileNameInjective(m, n);
    }
    forall name | name in after && IsVersionFile(name) ensures exists m | 1 <= m <= |files| :: name == FileName(m) {
      if name != FileName(n) {
        var m :| 1 <= m <= |log| && name == FileName(m);
      }
    }
  }

  lemma PutLatestStores(items: map<string, Content>, log: Log, c: Content)
    requires Stores(items, log)
    ensures Stores(items[LATEST := c], log)
  {
    hide VersionToDict, FileName, IsVersionFile;
    NotVersionFile();
    var after := items[LATEST := c];
    forall n | 1 <= n <= |log| ensures FileName(n) in after && after[FileName(n)] == Contents(log[n - 1]) {
      FileNameInjective(n, n);
    }
    forall name | name in after && IsVersionFile(name) ensures exists n | 1 <= n <= |log| :: name == FileName(n) {
      assert name in items;
    }
  }

  lemma WriteStores(dir: Dir, log: Log, v: Version)
    requires Stores(dir.items, log) && v.number == |log| + 1
    ensures Stores(Write(dir, v).items, log + [v]) && LatestIs(Write(dir, v).items, log + [v])
  {
    hide VersionToDict, FileName, Stores;
    PutStores(dir.items, log, v.number, v);
    PutLatestStores(dir.items[FileName(v.number) := Contents(v)], log + [v], Contents(v));
  }

  lemma NotVersionFile()
    ensures !IsVersionFile(LATEST)
  {
  }

  lemma SaveAppends(dir: Dir, log: Log, policy: Policy, author: string, change: string, now: string, digest: Digest)
    requires StandsFor(dir, log, policy.name, digest)
    ensures Save(dir, policy, author, change, now, digest).Some?
    ensures StandsFor(Write(dir, Save(dir, policy, author, change, now, digest).value),
                      Appended(log, policy, author, change, now, digest), policy.name, digest)
  {
    hide Stores, ListVersions, NextNumber, Write, LatestIs, HashOf;
    NextIsLength(dir, log);
    WriteStores(dir, log, Save(dir, policy, author, change, now, digest).value);
  }

  lemma LoadIs(dir: Dir, log: Log, number: int)
    requires Stores(dir.items, log)
    ensures Load(dir, number) == if 1 <= number <= |log| then Found(log[number - 1]) else Absent
  {
    hide ReadFile, FileName, IsVersionFile;
    FileNameInjective(number, number);
    if 1 <= number <= |log| {
      StoredIsFound(dir.items, log, number);
    } else if FileName(number) in dir.items {
      var n :| 1 <= n <= |log| && FileName(number) == FileName(n);
      FileNameInjective(number, n);
    }
  }

  lemma StepStandsFor(files: Files, logs: Logs, op: Op, digest: Digest)
    requires AllStandFor(files, logs, digest)
    ensures AllStandFor(Step(files, op, digest), LogStep(logs, op, digest), digest)
  {
    match op
    case SaveOp(policy, author, change, now) =>
      SaveStandsFor(files, logs, policy, author, change, now, digest);
    case RollbackOp(name, number, author, now) =>
      RollbackStandsFor(files, logs, name, number, author, now, digest);
  }

  lemma SaveStandsFor(files: Files, logs: Logs, policy: Policy, author: string, change: string, now: string,
                      digest: Digest)
    requires AllStandFor(files, logs, digest)
    ensures AllStandFor(SaveIn(files, policy, author, change, now, digest),
                        logs[policy.name := Appended(LogAt(logs, policy.name), policy, author, change, now, digest)],
                        digest)
  {
    hide StandsFor, Save, Write, Appended;
    DirStandsFor(files, logs, policy.name, digest);
    SaveAppends(DirAt(files, policy.name), LogAt(logs, policy.name), policy, author, change, now, digest);
  }

  lemma RollbackStandsFor(files: Files, logs: Logs, name: string, number: int, author: string, now: string,
                          digest: Digest)
    requires AllStandFor(files, logs, digest)
    ensures AllStandFor(RollbackIn(files, name, number, author, now, digest),
                        LogStep(logs, RollbackOp(name, number, author, now), digest), digest)
  {
    hide AllStandFor, SaveIn, Appended, Load, Stores, LatestIs;
    var log := LogAt(logs, name);
    DirStandsFor(files, logs, name, digest);
    LoadIs(DirAt(files, name), log, number);
    if 1 <= number <= |log| {
      assert log[number - 1].policy.name == name;
      SaveStandsFor(files, logs, log[number - 1].policy, author, RollbackNote(number), now, digest);
    }
  }

  /** Any run of saves and rollbacks over the files is the same run over an append-only log. */
  lemma {:induction false} RunsStandFor(files: Files, logs: Logs, ops: seq<Op>, digest: Digest)
    requires AllStandFor(files, logs, digest)
    ensures AllStandFor(Run(files, ops, digest), LogRun(logs, ops, digest), digest)
    decreases |ops|
  {
    hide AllStandFor, Step, LogStep;
    if ops != [] {
      StepStandsFor(files, logs, ops[0], digest);
      RunsStandFor(Step(files, ops[0], digest), LogStep(logs, ops[0], digest), ops[1..], digest);
    }
  }

  // ---- what clients can rely on ----

  lemma {:induction false} LogsOnlyGrow(logs: Logs, ops: seq<Op>, digest: Digest, name: string)
    ensures LogAt(logs, name) <= LogAt(LogRun(logs, ops, digest), name)
    decreases |ops|
  {
    if ops != [] {
      var next := LogStep(logs, ops[0], digest);
      assert LogAt(logs, name) <= LogAt(next, name);
      LogsOnlyGrow(next, ops[1..], digest, name);
    }
  }

  lemma LatestLoads(dir: Dir, log: Log)
    requires Stores(dir.items, log) && LatestIs(dir.items, log)
    ensures LoadLatest(dir) == if log == [] then Absent else Found(log[|log| - 1])
  {
    hide ListVersions, VersionToDict, VersionFromDict, Stores;
    ListingIsExact(dir, log);
    if log != [] { VersionRoundTrip(log[|log| - 1]); }
  }

  lemma IntactIsClean(dir: Dir, log: Log, name: string, digest: Digest)
    requires Stores(dir.items, log) && Intact(log, name, digest)
    ensures VerifyIntegrity(dir, digest) == Some([])
  {
    hide VerifyIntegrity, ListVersions, HashOf, Stores;
    IntegrityIff(dir, log, digest);
    assert VerifyIntegrity(dir, digest).value == [];
  }

  lemma StandsForParts(dir: Dir, log: Log, name: string, digest: Digest)
    requires StandsFor(dir, log, name, digest)
    ensures Numbered(log)
    ensures forall number: int :: Load(dir, number) == if 1 <= number <= |log| then Found(log[number - 1]) else Absent
    ensures LoadLatest(dir) == if log == [] then Absent else Found(log[|log| - 1])
    ensures VerifyIntegrity(dir, digest) == Some([])
  {
    hide Stores, Load, VerifyIntegrity, LoadLatest, ListVersions, HashOf, Intact, Numbered, LatestIs;
    forall number: int ensures Load(dir, number) == if 1 <= number <= |log| then Found(log[number - 1]) else Absent {
      LoadIs(dir, log, number);
    }
    LatestLoads(dir, log);
    IntactIsClean(dir, log, name, digest);
  }

  /** From an empty store, after any run: the versions of a policy are exactly 1 to n, each loads as it was logged,
      the latest is version n, and integrity checking finds nothing. */
  lemma HistoryIsComplete(ops: seq<Op>, digest: Digest, name: string)
    ensures var dir, log := DirAt(Run(map[], ops, digest), name), LogAt(LogRun(map[], ops, digest), name);
            && Numbered(log)
            && (forall number: int ::
                  Load(dir, number) == if 1 <= number <= |log| then Found(log[number - 1]) else Absent)
            && LoadLatest(dir) == (if log == [] then Absent else Found(log[|log| - 1]))
            && VerifyIntegrity(dir, digest) == Some([])
  {
    hide Run, LogRun, StandsFor, Numbered, Load, VerifyIntegrity, LoadLatest;
    RunsStandFor(map[], map[], ops, digest);
    var files, logs := Run(map[], ops, digest), LogRun(map[], ops, digest);
    DirStandsFor(files, logs, name, digest);
    StandsForParts(DirAt(files, name), LogAt(logs, name), name, digest);
  }

  /** A version that can be loaded loads the same after any further run. */
  lemma VersionsNeverChange(before: seq<Op>, after: seq<Op>, digest: Digest, name: string, number: int)
    ensures var loaded := Load(DirAt(Run(map[], before, digest), name), number);
            loaded.Found? ==> Load(DirAt(Run(Run(map[], before, digest), after, digest), name), number) == loaded
  {
    hide Run, LogRun, Stores, Load;
    RunsStandFor(map[], map[], before, digest);
    var files, logs := Run(map[], before, digest), LogRun(map[], before, digest);
    RunsStandFor(files, logs, after, digest);
    DirStandsFor(files, logs, name, digest);
    DirStandsFor(Run(files, after, digest), LogRun(logs, after, digest), name, digest);
    LogsOnlyGrow(logs, after, digest, name);
    LoadIs(DirAt(files, name), LogAt(logs, name), number);
    LoadIs(DirAt(Run(files, after, digest), name), LogAt(LogRun(logs, after, digest), name), number);
  }

  lemma RollbackAppends(files: Files, logs: Logs, digest: Digest, name: string, number: int, author: string,
                        now: string)
    requires AllStandFor(files, logs, digest) && 1 <= number <= |LogAt(logs, name)|
    ensures LoadLatest(DirAt(RollbackIn(files, name, number, author, now, digest), name))
         == Found(Appended(LogAt(logs, name), LogAt(logs, name)[number - 1].policy, author, RollbackNote(number), now,
                           digest)[|LogAt(logs, name)|])
  {
    hide Stores, LoadLatest, RollbackIn, Numbered, Intact, LatestIs, HashOf, AllStandFor;
    RollbackStandsFor(files, logs, name, number, author, now, digest);
    var logs' := LogStep(logs, RollbackOp(name, number, author, now), digest);
    var files' := RollbackIn(files, name, number, author, now, digest);
    DirStandsFor(files', logs', name, digest);
    LatestLoads(DirAt(files', name), LogAt(logs', name));
  }

  /** Rolling back to a version makes its policy the latest again, as a new version. */
  lemma RollbackRestores(ops: seq<Op>, digest: Digest, name: string, number: int, author: string, now: string)
    ensures var before := DirAt(Run(map[], ops, digest), name);
            var files := RollbackIn(Run(map[], ops, digest), name, number, author, now, digest);
            var latest := LoadLatest(DirAt(files, name));
            Load(before, number).Found? ==>
            && latest.Found? && latest.version.policy == Load(before, number).version.policy
            && latest.version.author == author && latest.version.timestamp == now
            && LoadLatest(before).Found? && latest.version.number == LoadLatest(before).version.number + 1
  {
    hide Run, LogRun, Stores, Load, LoadLatest, RollbackIn, LatestIs, Intact, HashOf;
    RunsStandFor(map[], map[], ops, digest);
    var files, logs := Run(map[], ops, digest), LogRun(map[], ops, digest);
    var log := LogAt(logs, name);
    DirStandsFor(files, logs, name, digest);
    LoadIs(DirAt(files, name), log, number);
    LatestLoads(DirAt(files, name), log);
    if 1 <= number <= |log| { RollbackAppends(files, logs, digest, name, number, author, now); }
  }

  // ---- what a save writes, over any directory ----

  /** Over whatever files there are, a save that does not fail stores the version under its number and as the latest,
      and touches no other version and no other policy. Its number is one, or follows the highest of those listed. */
  lemma SaveWrites(files: Files, policy: Policy, author: string, change: string, now: string, digest: Digest,
                   number: int, name: string)
    requires Save(DirAt(files, policy.name), policy, author, change, now, digest).Some?
    ensures var before := DirAt(files, policy.name);
            var v := Save(before, policy, author, change, now, digest).value;
            var after := SaveIn(files, policy, author, change, now, digest);
            && v == Version(policy, v.number, author, now, change, digest(PolicyToDict(policy)))
            && (forall w | w in ListVersions(before).value :: w.number < v.number)
            && (if ListVersions(before).value == [] then v.number == 1
                else exists w | w in ListVersions(before).value :: w.number + 1 == v.number)
            && Load(DirAt(after, policy.name), number)
               == (if number == v.number then Found(v) else Load(before, number))
            && LoadLatest(DirAt(after, policy.name)) == Found(v)
            && (name != policy.name ==> DirAt(after, name) == DirAt(files, name))
  {
    hide ListVersions, PolicyToDict, Load, LoadLatest, Write, NextNumber;
    var before := DirAt(files, policy.name);
    var v := Save(before, policy, author, change, now, digest).value;
    NextFollows(ListVersions(before).value);
    WrittenLoads(before, v, number);
  }

  lemma NextFollows(vs: seq<Version>)
    ensures forall w | w in vs :: w.number < NextNumber(vs)
    ensures if vs == [] then NextNumber(vs) == 1 else exists w | w in vs :: w.number + 1 == NextNumber(vs)
  {
    if vs != [] { assert Highest(vs) in vs && Highest(vs).number + 1 == NextNumber(vs); }
  }

  lemma WrittenLoads(dir: Dir, v: Version, number: int)
    ensures Load(Write(dir, v), number) == if number == v.number then Found(v) else Load(dir, number)
    ensures LoadLatest(Write(dir, v)) == Found(v)
  {
    hide ListVersions, VersionToDict, VersionFromDict, FileName, IsVersionFile;
    FileNameInjective(number, v.number);
    FileNameInjective(v.number, v.number);
    VersionRoundTrip(v);
  }

  // ---- tampering ----

  /** Overwriting one version file of a sound history with any other version: it is reported exactly when the new
      file carries a content hash that is not the hash of its policy, and nothing else is reported. */
  lemma ReplacedVersionIff(dir: Dir, log: Log, name: string, digest: Digest, number: int, w: Version)
    requires StandsFor(dir, log, name, digest) && 1 <= number <= |log|
    ensures var report := VerifyIntegrity(dir.Put(FileName(number), Doc(VersionToDict(w))), digest);
            && report.Some?
            && (report.value == [] <==> w.contentHash == "" || w.contentHash == HashOf(w.policy, digest))
            && forall m | m in report.value :: m == Mismatch(w.number, w.contentHash, HashOf(w.policy, digest))
  {
    hide Stores, VerifyIntegrity, HashOf, FileName;
    PutStores(dir.items, log, number, w);
    var files := log[number - 1 := w];
    assert files[number - 1] == w;
    forall v | v in files ensures v == w || HashFits(v, digest) {
      var i :| 0 <= i < |files| && files[i] == v;
      assert i == number - 1 || files[i] == log[i];
    }
    IntegrityIff(dir.Put(FileName(number), Doc(VersionToDict(w))), files, digest);
    var report := VerifyIntegrity(dir.Put(FileName(number), Doc(VersionToDict(w))), digest);
    assert report.Some?;
    assert report.value == [] <==> HashFits(w, digest);
    assert forall m | m in report.value :: m == Mismatch(w.number, w.contentHash, HashOf(w.policy, digest));
  }

  /** So changing the policy in a version file and leaving its hash is always reported. */
  lemma ChangedPolicyIsReported(dir: Dir, log: Log, name: string, digest: Digest, number: int, policy: Policy)
    requires (forall j, k :: digest(j) == digest(k) ==> j == k) && forall j :: digest(j) != ""
    requires StandsFor(dir, log, name, digest) && 1 <= number <= |log|
    requires policy != log[number - 1].policy
    ensures var w := log[number - 1].(policy := policy);
            VerifyIntegrity(dir.Put(FileName(number), Doc(VersionToDict(w))), digest) != Some([])
  {
    hide Stores, VerifyIntegrity, FileName, PolicyToDict;
    ReplacedVersionIff(dir, log, name, digest, number, log[number - 1].(policy := policy));
    ToDictIsInjective(policy, log[number - 1].policy);
  }

  /** The latest pointer is outside what is verified: whatever is put there is served and never reported. */
  lemma LatestIsUnchecked(dir: Dir, log: Log, name: string, digest: Digest, c: Content)
    requires StandsFor(dir, log, name, digest)
    ensures VerifyIntegrity(dir.Put(LATEST, c), digest) == Some([]) && LoadLatest(dir.Put(LATEST, c)) == ReadFile(c)
  {
    hide VersionToDict, FileName, Stores, VerifyIntegrity, ReadFile, HashOf;
    PutLatestStores(dir.items, log, c);
    IntegrityIff(dir.Put(LATEST, c), log, digest);
  }
}
