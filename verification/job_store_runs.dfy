/** What the job store keeps over runs: memory and file agree, and a restart loses only the oldest jobs. */
module JobStoreRuns {
  import opened Collections
  import opened Sorting
  import opened JobStoreModel
  import TextOrder

  type Changes = c: Job | JobId !in c witness map[]

  datatype Op =
    | AddOp(id: string, command: seq<string>, actor: string, now: string)
    | UpdateOp(id: string, changes: Changes, now: string)
    | ReadOp
    | RestartOp

  function Step(s: Store, op: Op, cfg: Config): Store {
    match op
    case AddOp(id, command, actor, now) => Add(s, id, command, actor, now, cfg)
    case UpdateOp(id, changes, now) => Update(s, id, changes, now, cfg)
    case ReadOp => Loaded(s, cfg)
    case RestartOp => Restart(s)
  }

  function Run(s: Store, ops: seq<Op>, cfg: Config): Store
    decreases |ops|
  {
    if ops == [] then s else Run(Step(s, ops[0], cfg), ops[1..], cfg)
  }

  const FRESH := Store(false, NO_JOBS, [])

  // ---- loading ----

  /** The dict rebuilt from the newest jobs holds exactly them. */
  lemma IndexOfNewest(jobs: Jobs, limit: nat)
    requires Keyed(jobs)
    ensures Keyed(Index(Newest(jobs, limit))) && Index(Newest(jobs, limit)).Values() == Newest(jobs, limit)
    ensures forall id :: id in Index(Newest(jobs, limit)).items <==>
                         id in jobs.items && jobs.items[id] in Newest(jobs, limit)
    ensures forall id | id in Index(Newest(jobs, limit)).items :: Index(Newest(jobs, limit)).items[id] == jobs.items[id]
  {
    hide Index, Newest, Id;
    var kept := Newest(jobs, limit);
    NewestDistinct(jobs, limit);
    IndexOf(kept);
    var d := Index(kept);
    forall id ensures id in d.items <==> id in jobs.items && jobs.items[id] in kept {
      if id in d.items {
        assert id in d.keys;
        var i :| 0 <= i < |d.keys| && d.keys[i] == id;
        assert kept[i] in kept;
      }
      if id in jobs.items && jobs.items[id] in kept {
        var i :| 0 <= i < |kept| && kept[i] == jobs.items[id];
        assert d.keys[i] == id;
      }
    }
    forall id | id in d.items ensures d.items[id] == jobs.items[id] {
      assert id in d.keys;
      var i :| 0 <= i < |d.keys| && d.keys[i] == id;
      assert d.Values()[i] == kept[i] && kept[i] in kept;
    }
  }

  lemma NewestOfFew(jobs: Jobs, limit: nat, id: string)
    requires |jobs.keys| <= limit && id in jobs.items
    ensures jobs.items[id] in Newest(jobs, limit)
  {
    hide StableSort;
    SortElements(jobs.Values(), NewerOrTied);
    SortMembers(jobs.Values(), NewerOrTied);
    assert id in jobs.keys;
    var i :| 0 <= i < |jobs.keys| && jobs.keys[i] == id;
    assert jobs.Values()[i] in jobs.Values();
  }

  /** Rebuilding a dict that needs no truncation may reorder it, but holds the same jobs. */
  lemma TruncatedItems(jobs: Jobs, limit: nat)
    requires Keyed(jobs)
    ensures Truncated(jobs, limit).items == Index(Newest(jobs, limit)).items
  {
    hide Newest, Index, Id;
    IndexOfNewest(jobs, limit);
    if |jobs.keys| <= limit {
      forall id | id in jobs.items ensures jobs.items[id] in Newest(jobs, limit) { NewestOfFew(jobs, limit, id); }
      assert jobs.items == Index(Newest(jobs, limit)).items;
    }
  }

  /** Both loading paths leave memory with the same jobs, whichever the file's size selects. */
  lemma LoadedItems(s: Store, cfg: Config)
    requires !s.loaded && Readable(s.file)
    ensures Loaded(s, cfg).jobs.items == Index(Newest(Fold(s.file), cfg.maxJobs)).items
    ensures Keyed(Loaded(s, cfg).jobs)
  {
    hide Newest, Index, Fold, Truncated, Id;
    FoldKeyed(s.file);
    TruncatedItems(Fold(s.file), cfg.maxJobs);
    IndexOfNewest(Fold(s.file), cfg.maxJobs);
    var jobs := Fold(s.file);
    assert forall id | id in Truncated(jobs, cfg.maxJobs).items :: id in Index(Newest(jobs, cfg.maxJobs)).items;
  }

  /** What a load leaves. A line that raises empties the store. Otherwise memory holds jobs of the file, as many as the
      bound allows, and the file is left alone unless it is larger than ten mebibytes. */
  lemma LoadIs(s: Store, cfg: Config)
    requires !s.loaded && s.jobs == NO_JOBS
    ensures var t, read := Loaded(s, cfg), Fold(s.file);
            && t.loaded
            && (Scalar in s.file ==> t.jobs.keys == [] && t.file == s.file)
            && (Scalar !in s.file ==>
                  && |t.jobs.keys| == (if |read.keys| <= cfg.maxJobs then |read.keys| else cfg.maxJobs)
                  && (forall id | id in t.jobs.items :: id in read.items && t.jobs.items[id] == read.items[id])
                  && if cfg.fileSize(s.file) <= 10485760
                     then t.file == s.file && (|read.keys| <= cfg.maxJobs ==> t.jobs == read)
                     else |t.file| == |t.jobs.keys|
                          && forall i | 0 <= i < |t.file| :: t.file[i] == Record(t.jobs.Values()[i]))
  {
    if Readable(s.file) { LoadKeeps(s, cfg); }
  }

  lemma LoadKeeps(s: Store, cfg: Config)
    requires !s.loaded && Readable(s.file)
    ensures var t, read := Loaded(s, cfg), Fold(s.file);
            && t.loaded
            && |t.jobs.keys| == (if |read.keys| <= cfg.maxJobs then |read.keys| else cfg.maxJobs)
            && (forall id | id in t.jobs.items :: id in read.items && t.jobs.items[id] == read.items[id])
            && if cfg.fileSize(s.file) <= MAX_FILE_SIZE
               then t.file == s.file && (|read.keys| <= cfg.maxJobs ==> t.jobs == read)
               else t.file == Records(t.jobs.Values())
  {
    hide Newest, Index, Fold, Id;
    FoldKeyed(s.file);
    var read := Fold(s.file);
    IndexOfNewest(read, cfg.maxJobs);
    NewestDistinct(read, cfg.maxJobs);
    assert |Index(Newest(read, cfg.maxJobs)).keys| == |Index(Newest(read, cfg.maxJobs)).Values()|;
  }

  /** A job of the file that a load does not keep has no later stamp than any job that it keeps. */
  lemma LoadLeavesOutTheOldest(s: Store, cfg: Config, id: string, out: string, a: string, b: string)
    requires !s.loaded && Scalar !in s.file
    requires id in Loaded(s, cfg).jobs.items && out in Fold(s.file).items && out !in Loaded(s, cfg).jobs.items
    requires var kept := Loaded(s, cfg).jobs.items[id];
             if CreatedAt in kept then kept[CreatedAt] == Text(a) else a == ""
    requires var left := Fold(s.file).items[out]; if CreatedAt in left then left[CreatedAt] == Text(b) else b == ""
    ensures !TextOrder.ComesBefore(a, b)
  {
    hide Newest, Index, Fold, Truncated, Loaded, Id;
    var read := Fold(s.file);
    FoldKeyed(s.file);
    LoadedItems(s, cfg);
    IndexOfNewest(read, cfg.maxJobs);
    assert out in read.keys;
    var i :| 0 <= i < |read.keys| && read.keys[i] == out;
    assert read.Values()[i] == read.items[out];
    NoneNewerIsLeftOut(read, cfg.maxJobs, read.items[id], read.items[out], a, b);
  }

  lemma CompactionIsInvisible(s: Store, a: Config, b: Config)
    requires !s.loaded && Readable(s.file) && a.maxJobs == b.maxJobs
    ensures Loaded(s, a).jobs.items == Loaded(s, b).jobs.items
  {
    LoadedItems(s, a);
    LoadedItems(s, b);
  }

  lemma PopAbsent(jobs: Jobs)
    requires "" !in jobs.items
    ensures jobs.Pop("") == jobs
  {
    assert "" !in jobs.keys;
    DropAbsent(jobs.keys, "");
    assert jobs.items - {""} == jobs.items;
  }

  /** A compacted file reads back as the memory that compaction left. */
  lemma CompactedReadsBack(jobs: Jobs, limit: nat)
    requires Keyed(jobs) && "" !in jobs.items
    ensures Fold(Records(Newest(jobs, limit))) == Index(Newest(jobs, limit))
  {
    hide Newest, Index, Fold;
    FoldRecords(Newest(jobs, limit));
    IndexOfNewest(jobs, limit);
    PopAbsent(Index(Newest(jobs, limit)));
  }

  /** Restarting twice, under any two size limits, is restarting once. */
  lemma RestartIsIdempotent(s: Store, a: Config, b: Config)
    requires !s.loaded && Readable(s.file) && a.maxJobs == b.maxJobs
    ensures Loaded(Restart(Loaded(s, a)), b).jobs.items == Loaded(s, a).jobs.items
  {
    hide Newest, Index, Fold, Truncated;
    var once := Loaded(s, a);
    LoadedItems(s, a);
    LoadedItems(Restart(once), b);
    if once.file != s.file {
      var jobs := Fold(s.file);
      FoldKeyed(s.file);
      CompactedReadsBack(jobs, a.maxJobs);
      IndexOfNewest(jobs, a.maxJobs);
      var d := Index(Newest(jobs, a.maxJobs));
      NewestDistinct(jobs, a.maxJobs);
      assert |d.keys| == |d.Values()|;
      FewItems(d, b.maxJobs);
    }
  }

  lemma FewItems(d: Jobs, limit: nat)
    requires Keyed(d) && |d.keys| <= limit
    ensures Index(Newest(d, limit)).items == d.items
  {
    hide Newest, Index;
    TruncatedItems(d, limit);
  }

  // ---- agreement ----

  /** The file folds to the dict in memory, less a job whose id is the empty string. */
  ghost predicate Agrees(s: Store) {
    Keyed(s.jobs) && Readable(s.file) && Fold(s.file) == s.jobs.Pop("")
  }

  lemma FreshAgrees(cfg: Config)
    ensures Agrees(Loaded(FRESH, cfg)) && Loaded(FRESH, cfg).loaded
  {
    NoJobsPop();
    assert NO_JOBS.Values() == [];
    assert Newest(NO_JOBS, cfg.maxJobs) == [];
  }

  lemma AddAgrees(s: Store, id: string, command: seq<string>, actor: string, now: string, cfg: Config)
    requires s.loaded && Agrees(s)
    ensures Agrees(Add(s, id, command, actor, now, cfg))
  {
    hide NewJob, Fold, Id, ReadLine, Drop;
    var job := NewJob(id, command, actor, now);
    FoldSnoc(s.file, Record(job));
    PutThenPop(s.jobs, job);
  }

  lemma UpdateAgrees(s: Store, id: string, changes: Changes, now: string, cfg: Config)
    requires s.loaded && Agrees(s)
    ensures Agrees(Update(s, id, changes, now, cfg))
  {
    hide Fold, Id, Changed, Drop;
    if id in s.jobs.items {
      var jobs: Jobs := s.jobs.Put(id, Changed(s.jobs.items[id], changes, now));
      assert Keyed(jobs);
      RewriteReadsBack(jobs);
    }
  }

  /** Add and update agree with the file after any run in one process. */
  lemma {:induction false} RunAgrees(s: Store, ops: seq<Op>, cfg: Config)
    requires s.loaded && Agrees(s)
    requires RestartOp !in ops
    ensures Agrees(Run(s, ops, cfg)) && Run(s, ops, cfg).loaded
    decreases |ops|
  {
    hide Agrees, Add, Update;
    if ops != [] {
      assert ops[0] in ops;
      StepAgrees(s, ops[0], cfg);
      RunAgrees(Step(s, ops[0], cfg), ops[1..], cfg);
    }
  }

  lemma StepAgrees(s: Store, op: Op, cfg: Config)
    requires s.loaded && Agrees(s) && !op.RestartOp?
    ensures Agrees(Step(s, op, cfg)) && Step(s, op, cfg).loaded
  {
    hide Agrees;
    match op
    case AddOp(id, command, actor, now) => AddAgrees(s, id, command, actor, now, cfg);
    case UpdateOp(id, changes, now) => UpdateAgrees(s, id, changes, now, cfg);
    case ReadOp =>
  }

  /** From an empty store, folding the file gives exactly the dict in memory unless a job was added under the
      empty id, which the file cannot give back. */
  lemma FileIsMemoryIff(ops: seq<Op>, cfg: Config)
    requires RestartOp !in ops
    ensures var s := Run(Loaded(FRESH, cfg), ops, cfg);
            Fold(s.file) == s.jobs <==> "" !in s.jobs.items
  {
    hide Fold, Run;
    FreshAgrees(cfg);
    RunAgrees(Loaded(FRESH, cfg), ops, cfg);
    var s := Run(Loaded(FRESH, cfg), ops, cfg);
    if "" !in s.jobs.items { PopAbsent(s.jobs); }
  }

  // ---- the newest jobs, over any number of restarts ----

  /** A truncating restart leaves older jobs in the file that are not in memory, but both have the same newest jobs, in
      the same order. */
  ghost predicate SameNewest(s: Store, cfg: Config) {
    && Keyed(s.jobs) && Readable(s.file)
    && (!s.loaded ==> s.jobs == NO_JOBS)
    && (s.loaded ==> Newest(Fold(s.file), cfg.maxJobs) == Newest(s.jobs, cfg.maxJobs))
  }

  lemma NewestSorted(jobs: Jobs, limit: nat)
    ensures SortedBy(Newest(jobs, limit), NewerOrTied)
  {
    hide StableSort;
    NewerIsPreorder();
    SortSorted(jobs.Values(), NewerOrTied);
  }

  lemma NewestOfNewest(jobs: Jobs, limit: nat, bound: nat)
    requires Keyed(jobs) && limit <= bound
    ensures Newest(Index(Newest(jobs, bound)), limit) == Newest(jobs, limit)
  {
    hide Index, StableSort;
    IndexOfNewest(jobs, bound);
    NewestSorted(jobs, bound);
    SortOfSorted(Newest(jobs, bound), NewerOrTied);
  }

  lemma FewerNewest(jobs: Jobs, limit: nat, bound: nat)
    requires limit <= bound
    ensures Newest(jobs, limit) == Take(Newest(jobs, bound), limit)
  {
    hide StableSort;
  }

  lemma TruncatedNewest(jobs: Jobs, bound: nat, limit: nat)
    requires Keyed(jobs) && limit <= bound
    ensures Newest(Truncated(jobs, bound), limit) == Newest(jobs, limit)
  {
    hide Index, Newest;
    NewestOfNewest(jobs, limit, bound);
  }

  lemma LoadedNewest(s: Store, cfg: Config)
    requires SameNewest(s, cfg)
    ensures SameNewest(Loaded(s, cfg), cfg) && Loaded(s, cfg).loaded
    ensures !s.loaded ==> Newest(Loaded(s, cfg).jobs, cfg.maxJobs) == Newest(Fold(s.file), cfg.maxJobs)
  {
    hide Newest, Index, Fold, Truncated, Id;
    if !s.loaded {
      var jobs := Fold(s.file);
      FoldKeyed(s.file);
      LoadedItems(s, cfg);
      IndexOfNewest(jobs, cfg.maxJobs);
      TruncatedNewest(jobs, cfg.maxJobs, cfg.maxJobs);
      NewestOfNewest(jobs, cfg.maxJobs, cfg.maxJobs);
      CompactedReadsBack(jobs, cfg.maxJobs);
    }
  }

  lemma RestartNewest(s: Store, cfg: Config)
    requires SameNewest(s, cfg)
    ensures SameNewest(Restart(s), cfg)
  {
    hide Newest, Fold;
  }

  // ---- restarts ----

  /** After a restart exactly the newest `maxJobs` jobs of memory are left, unchanged, wherever memory and file have
      the same newest: a job survives when fewer than that many jobs are newer than it, or as new and earlier in the
      dict. */
  lemma RestartKeepsNewest(s: Store, cfg: Config, i: nat)
    requires s.loaded && SameNewest(s, cfg) && i < |s.jobs.keys|
    ensures var r := Loaded(Restart(s), cfg).jobs;
            && (s.jobs.keys[i] in r.items <==> Place(s.jobs.Values(), i, NewerOrTied) < cfg.maxJobs)
            && forall id | id in r.items :: id in s.jobs.items && r.items[id] == s.jobs.items[id]
  {
    hide Newest, Index, Fold, Place, Id, Loaded;
    LoadedItems(Restart(s), cfg);
    IndexOfNewest(s.jobs, cfg.maxJobs);
    NewestByPlace(s.jobs, cfg.maxJobs, i);
    assert s.jobs.Values()[i] == s.jobs.items[s.jobs.keys[i]];
  }

  /** Nothing is lost while the store stays within its bound. */
  lemma RestartKeepsAll(s: Store, cfg: Config)
    requires s.loaded && SameNewest(s, cfg) && |s.jobs.keys| <= cfg.maxJobs
    ensures Loaded(Restart(s), cfg).jobs.items == s.jobs.items
  {
    hide Newest, Index, Fold, Loaded;
    LoadedItems(Restart(s), cfg);
    FewItems(s.jobs, cfg.maxJobs);
  }

  /** A restart cannot be seen in a listing no longer than `maxJobs`: same jobs, same order, ties included. */
  lemma ListingSurvivesRestart(s: Store, limit: nat, cfg: Config)
    requires SameNewest(s, cfg) && limit <= cfg.maxJobs
    ensures ListRecent(Restart(s), limit, cfg) == ListRecent(s, limit, cfg)
  {
    hide Newest, Index, Fold, Loaded;
    if s.loaded {
      LoadedIs(s, cfg);
      RestartNewest(s, cfg);
      LoadedNewest(Restart(s), cfg);
      FewerNewest(Loaded(Restart(s), cfg).jobs, limit, cfg.maxJobs);
      FewerNewest(s.jobs, limit, cfg.maxJobs);
    }
  }

  lemma LoadedIs(s: Store, cfg: Config)
    requires s.loaded
    ensures Loaded(s, cfg) == s
  {
  }

  // ---- runs with restarts, over any file ----

  /** Every job in memory is in the file as it is in memory. */
  ghost predicate Covered(s: Store) {
    && Keyed(s.jobs) && Readable(s.file)
    && (!s.loaded ==> s.jobs == NO_JOBS)
    && forall id | id in s.jobs.items && id != "" ::
         id in Fold(s.file).items && Fold(s.file).items[id] == s.jobs.items[id]
  }

  lemma LoadedCovered(s: Store, cfg: Config)
    requires Covered(s)
    ensures Covered(Loaded(s, cfg)) && Loaded(s, cfg).loaded
  {
    hide Newest, Index, Fold, Truncated, Id;
    if !s.loaded {
      LoadedItems(s, cfg);
      FoldKeyed(s.file);
      IndexOfNewest(Fold(s.file), cfg.maxJobs);
      CompactedReadsBack(Fold(s.file), cfg.maxJobs);
    }
  }

  lemma AddCovered(s: Store, id: string, command: seq<string>, actor: string, now: string, cfg: Config)
    requires Covered(s)
    ensures Covered(Add(s, id, command, actor, now, cfg))
  {
    hide NewJob, Fold, Id, Loaded;
    LoadedCovered(s, cfg);
    var job := NewJob(id, command, actor, now);
    FoldSnoc(Loaded(s, cfg).file, Record(job));
  }

  lemma RewriteCovered(jobs: Jobs)
    requires Keyed(jobs)
    ensures Covered(Store(true, jobs, Records(jobs.Values())))
  {
    hide Fold, Id, Drop;
    RewriteReadsBack(jobs);
  }

  lemma UpdateCovered(s: Store, id: string, changes: Changes, now: string, cfg: Config)
    requires Covered(s)
    ensures Covered(Update(s, id, changes, now, cfg))
  {
    hide Fold, Id, Changed, Drop, Loaded, Records;
    LoadedCovered(s, cfg);
    var l := Loaded(s, cfg);
    if id in l.jobs.items {
      var jobs: Jobs := l.jobs.Put(id, Changed(l.jobs.items[id], changes, now));
      assert Keyed(jobs);
      RewriteCovered(jobs);
    }
  }

  lemma StepCovered(s: Store, op: Op, cfg: Config)
    requires Covered(s)
    ensures Covered(Step(s, op, cfg))
  {
    hide Add, Update, Fold;
    match op
    case AddOp(id, command, actor, now) => AddCovered(s, id, command, actor, now, cfg);
    case UpdateOp(id, changes, now) => UpdateCovered(s, id, changes, now, cfg);
    case ReadOp => LoadedCovered(s, cfg);
    case RestartOp =>
  }

  /** In every run of adds, updates, reads and restarts over any readable file, what a client can read from memory
      is what the file would give back. */
  lemma {:induction false} RunsStayCovered(s: Store, ops: seq<Op>, cfg: Config)
    requires Covered(s)
    ensures Covered(Run(s, ops, cfg))
    decreases |ops|
  {
    hide Covered, Step;
    if ops != [] {
      StepCovered(s, ops[0], cfg);
      RunsStayCovered(Step(s, ops[0], cfg), ops[1..], cfg);
    }
  }

  lemma OnlyJob(id: string, first: Job, second: Job)
    ensures var d: Jobs := NO_JOBS.Put(id, first).Put(id, second); d.Values() == [second]
  {
    var one: Jobs := NO_JOBS.Put(id, first);
    assert one.keys == [id];
    var d: Jobs := one.Put(id, second);
    assert d.keys == [id] && d.items[id] == second;
  }

  /** A file with one JSON line that is no object starts the store fresh, and the next update erases the rest. */
  lemma ScalarLineStartsFresh(file: seq<Line>, id: string, command: seq<string>, actor: string, now: string,
                              changes: Changes, cfg: Config)
    requires !Readable(file)
    ensures var s := Store(false, NO_JOBS, file);
            && Loaded(s, cfg).jobs == NO_JOBS
            && Update(Add(s, id, command, actor, now, cfg), id, changes, now, cfg).file
               == [Record(Changed(NewJob(id, command, actor, now), changes, now))]
  {
    hide Changed, NewJob, Fold, Newest, Index, Truncated, StableSort, Id, Created, Drop, TextOf, NewerOrTied;
    var job := NewJob(id, command, actor, now);
    OnlyJob(id, job, Changed(job, changes, now));
  }
}
