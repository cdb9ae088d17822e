/** When a restart of the job store can be noticed in a listing: exactly, for every run over every readable file. */
module JobStoreRestarts {
  import opened Collections
  import opened Sorting
  import opened JobStoreModel
  import opened JobStoreRuns

  // ---- the place of one job in a listing ----

  /** Where a key stands in a dict. */
  function KeyIndex(keys: seq<string>, id: string): (i: nat)
    requires id in keys
    ensures i < |keys| && keys[i] == id
  {
    if keys[0] == id then 0 else 1 + KeyIndex(keys[1..], id)
  }

  /** Where a job stands among all jobs, newest first. */
  function PlaceOf(jobs: Jobs, id: string): nat
    requires id in jobs.items
  {
    Place(jobs.Values(), KeyIndex(jobs.keys, id), NewerOrTied)
  }

  function IsOther(id: string): Job -> bool { job => Id(job) != id }

  function Look(keys: seq<string>, items: map<string, Job>): (jobs: seq<Job>)
    requires forall k | k in keys :: k in items
    ensures |jobs| == |keys| && forall i | 0 <= i < |keys| :: jobs[i] == items[keys[i]]
  {
    seq(|keys|, i requires 0 <= i < |keys| => items[keys[i]])
  }

  lemma LookCons(k: string, keys: seq<string>, items: map<string, Job>)
    requires k in items && forall x | x in keys :: x in items
    ensures forall x | x in [k] + keys :: x in items
    ensures Look([k] + keys, items) == [items[k]] + Look(keys, items)
  {
  }

  lemma DropCons(k: string, keys: seq<string>, id: string)
    ensures Drop([k] + keys, id) == if k == id then keys else [k] + Drop(keys, id)
  {
    assert ([k] + keys)[1..] == keys;
  }

  lemma {:induction false} LookDrop(keys: seq<string>, items: map<string, Job>, id: string)
    requires Distinct(keys) && forall k | k in keys :: k in items && Id(items[k]) == k
    ensures forall k | k in Drop(keys, id) :: k in items
    ensures Look(Drop(keys, id), items) == Filter(Look(keys, items), IsOther(id))
  {
    hide Id, Drop, Look, Filter;
    Without(keys, id);
    if keys == [] {
      NothingToLook(items, id);
    } else {
      var k, rest := keys[0], keys[1..];
      assert keys == [k] + rest;
      LookDrop(rest, items, id);
      LookCons(k, rest, items);
      DropCons(k, rest, id);
      FilterCons(items[k], Look(rest, items), IsOther(id));
      if k == id {
        DropAbsent(rest, id);
      } else {
        Without(rest, id);
        LookCons(k, Drop(rest, id), items);
      }
    }
  }

  lemma NothingToLook(items: map<string, Job>, id: string)
    ensures Drop([], id) == [] && Look([], items) == [] && Filter([], IsOther(id)) == []
  {
  }

  lemma PopValues(jobs: Jobs, id: string)
    requires Keyed(jobs)
    ensures jobs.Pop(id).Values() == Filter(jobs.Values(), IsOther(id))
  {
    hide Id, Filter;
    LookDrop(jobs.keys, jobs.items, id);
    assert jobs.Values() == Look(jobs.keys, jobs.items);
    assert jobs.Pop(id).Values() == Look(Drop(jobs.keys, id), jobs.items);
  }

  function Sorted(jobs: Jobs): seq<Job> { StableSort(jobs.Values(), NewerOrTied) }

  lemma SortedIds(jobs: Jobs)
    requires Keyed(jobs)
    ensures |Sorted(jobs)| == |jobs.keys| && DistinctIds(Sorted(jobs))
    ensures forall j | j in Sorted(jobs) :: Id(j) in jobs.items && jobs.items[Id(j)] == j
  {
    hide StableSort, Id;
    SortElements(jobs.Values(), NewerOrTied);
    NewestDistinct(jobs, |jobs.keys|);
    assert Newest(jobs, |jobs.keys|) == Sorted(jobs);
  }

  lemma SortedPop(jobs: Jobs, id: string)
    requires Keyed(jobs)
    ensures Sorted(jobs.Pop(id)) == Filter(Sorted(jobs), IsOther(id))
  {
    hide StableSort, Filter, Drop;
    NewerIsPreorder();
    PopValues(jobs, id);
    SortFilter(jobs.Values(), NewerOrTied, IsOther(id));
  }

  /** The listing is that of the other jobs, with this one at its place. */
  lemma Listed(jobs: Jobs, id: string)
    requires Keyed(jobs) && id in jobs.items
    ensures var t, q := Sorted(jobs.Pop(id)), PlaceOf(jobs, id);
            && q <= |t| && Sorted(jobs) == t[..q] + ([jobs.items[id]] + t[q..])
            && jobs.items[id] !in t
  {
    hide Sorted, Filter, Place, Drop, Id;
    var s, q := Sorted(jobs), PlaceOf(jobs, id);
    SortedIds(jobs);
    SortedPop(jobs, id);
    StandsAtPlace(jobs, id);
    forall i | 0 <= i < |s| && i != q ensures IsOther(id)(s[i]) { assert Id(s[q]) == id; }
    FilterOut(s, q, IsOther(id));
    OthersOnly(s, id, jobs.items[id]);
  }

  lemma OthersOnly(s: seq<Job>, id: string, job: Job)
    requires Id(job) == id
    ensures job !in Filter(s, IsOther(id))
  {
    hide Id;
    FilterMembers(s, IsOther(id));
  }

  lemma StandsAtPlace(jobs: Jobs, id: string)
    requires Keyed(jobs) && id in jobs.items
    ensures PlaceOf(jobs, id) < |Sorted(jobs)| && Sorted(jobs)[PlaceOf(jobs, id)] == jobs.items[id]
  {
    hide StableSort, Place;
    NewerIsPreorder();
    SortPlaces(jobs.Values(), KeyIndex(jobs.keys, id), NewerOrTied);
  }

  // ---- the newest jobs but one ----

  lemma NewestOthers(jobs: Jobs, id: string, limit: nat)
    requires Keyed(jobs)
    ensures limit > 0 ==> Newest(jobs.Pop(id), limit - 1) == Take(Filter(Newest(jobs, limit), IsOther(id)), limit - 1)
    ensures (forall j | j in Newest(jobs, limit) :: Id(j) != id) ==> Newest(jobs.Pop(id), limit) == Newest(jobs, limit)
  {
    hide StableSort, Filter, Drop, Id;
    var s := Sorted(jobs);
    SortedIds(jobs);
    SortedPop(jobs, id);
    TakeFiltered(s, IsOther(id), limit);
  }

  /** Dicts with the same newest jobs, less one id, still have the same newest but for the last. */
  lemma SameNewestOthers(a: Jobs, b: Jobs, id: string, limit: nat)
    requires Keyed(a) && Keyed(b) && Newest(a, limit) == Newest(b, limit)
    ensures limit > 0 ==> Newest(a.Pop(id), limit - 1) == Newest(b.Pop(id), limit - 1)
    ensures (forall j | j in Newest(a, limit) :: Id(j) != id) ==> Newest(a.Pop(id), limit) == Newest(b.Pop(id), limit)
  {
    hide Newest, Filter, Drop, Id;
    NewestOthers(a, id, limit);
    NewestOthers(b, id, limit);
  }

  lemma PutPopped(jobs: Jobs, id: string, job: Job)
    ensures jobs.Put(id, job).Pop(id) == jobs.Pop(id)
  {
    DropSnoc(jobs.keys, id, id);
    if id !in jobs.items { DropAbsent(jobs.keys, id); }
    assert jobs.items[id := job] - {id} == jobs.items - {id};
  }

  lemma NewestTakes(jobs: Jobs, limit: nat)
    ensures Newest(jobs, limit) == Take(Sorted(jobs), limit)
  {
  }

  lemma NewestPlaced(jobs: Jobs, id: string, t: seq<Job>, limit: nat)
    requires Keyed(jobs) && id in jobs.items && t == Sorted(jobs.Pop(id))
    ensures var q := PlaceOf(jobs, id);
            && q <= |t| && jobs.items[id] !in t
            && Newest(jobs, limit) == Take(t[..q] + ([jobs.items[id]] + t[q..]), limit)
  {
    hide Newest, Sorted, PlaceOf, Id, Drop;
    Listed(jobs, id);
    NewestTakes(jobs, limit);
  }

  lemma PlacedAgreeIff(a: Jobs, b: Jobs, id: string, limit: nat)
    requires Keyed(a) && Keyed(b) && id in a.items && id in b.items && a.items[id] == b.items[id]
    requires limit > 0 ==> Newest(a.Pop(id), limit - 1) == Newest(b.Pop(id), limit - 1)
    ensures var q, r := PlaceOf(a, id), PlaceOf(b, id);
            Newest(a, limit) == Newest(b, limit)
            <==> if q < limit || r < limit then q == r else Newest(a.Pop(id), limit) == Newest(b.Pop(id), limit)
  {
    hide Newest, Sorted, Drop, Id, PlaceOf, Take, Keyed;
    var x, y := Sorted(a.Pop(id)), Sorted(b.Pop(id));
    NewestPlaced(a, id, x, limit);
    NewestPlaced(b, id, y, limit);
    NewestTakes(a.Pop(id), limit);
    NewestTakes(b.Pop(id), limit);
    if limit > 0 {
      NewestTakes(a.Pop(id), limit - 1);
      NewestTakes(b.Pop(id), limit - 1);
    }
    TakesAgreeIff(x, y, a.items[id], PlaceOf(a, id), PlaceOf(b, id), limit);
  }

  lemma PutStores(jobs: Jobs, job: Job)
    requires Keyed(jobs)
    ensures var d := jobs.Put(Id(job), job); Keyed(d) && Id(job) in d.items && d.items[Id(job)] == job
  {
  }

  /** One job stored in two dicts: both still have the same newest exactly when it takes the same place among them, or
      none in either and the others alone have the same newest. */
  lemma PutKeepsNewestIff(a: Jobs, b: Jobs, job: Job, limit: nat)
    requires Keyed(a) && Keyed(b) && Newest(a, limit) == Newest(b, limit)
    ensures var id := Id(job);
            var q, r := PlaceOf(a.Put(id, job), id), PlaceOf(b.Put(id, job), id);
            Newest(a.Put(id, job), limit) == Newest(b.Put(id, job), limit)
            <==> if q < limit || r < limit then q == r else Newest(a.Pop(id), limit) == Newest(b.Pop(id), limit)
  {
    hide Newest, Drop, Id, PlaceOf, Keyed;
    var id := Id(job);
    PutStores(a, job);
    PutStores(b, job);
    SameNewestOthers(a, b, id, limit);
    PutPopped(a, id, job);
    PutPopped(b, id, job);
    PlacedAgreeIff(a.Put(id, job), b.Put(id, job), id, limit);
  }

  /** Leaving out one job changes the newest exactly when it is among them. */
  lemma PopKeepsNewestIff(jobs: Jobs, id: string, limit: nat)
    requires Keyed(jobs) && id in jobs.items
    ensures Newest(jobs.Pop(id), limit) == Newest(jobs, limit) <==> PlaceOf(jobs, id) >= limit
  {
    hide StableSort, Drop, Id, PlaceOf, Place;
    Listed(jobs, id);
    var t, q := Sorted(jobs.Pop(id)), PlaceOf(jobs, id);
    if q < limit {
      assert Newest(jobs, limit)[q] == jobs.items[id];
      if q < |Newest(jobs.Pop(id), limit)| { assert Newest(jobs.Pop(id), limit)[q] == t[q]; }
    } else {
      assert Newest(jobs, limit) == Take(t, limit);
    }
  }

  // ---- what one call does to a restart ----

  /** Storing `job` keeps a restart unseen: it takes the same place among the newest of the file as of memory, or in
      both it is too old to be listed and without its id they list the same. A job without an id must be too old, for
      the file has no such job. */
  ghost predicate AddHides(s: Store, job: Job, maxJobs: nat) {
    var id := Id(job);
    var r := PlaceOf(s.jobs.Put(id, job), id);
    if id == "" then r >= maxJobs
    else
      var q := PlaceOf(Fold(s.file).Put(id, job), id);
      if q < maxJobs || r < maxJobs then q == r
      else Newest(Fold(s.file).Pop(id), maxJobs) == Newest(s.jobs.Pop(id), maxJobs)
  }

  /** An update writes what is in memory, but for a job without an id. */
  ghost predicate UpdateHides(s: Store, id: string, changes: Changes, now: string, maxJobs: nat) {
    id in s.jobs.items ==>
      var jobs: Jobs := s.jobs.Put(id, Changed(s.jobs.items[id], changes, now));
      "" in jobs.items ==> PlaceOf(jobs, "") >= maxJobs
  }

  ghost predicate Hides(s: Store, op: Op, cfg: Config) {
    var l := Loaded(s, cfg);
    match op
    case AddOp(id, command, actor, now) => AddHides(l, NewJob(id, command, actor, now), cfg.maxJobs)
    case UpdateOp(id, changes, now) => UpdateHides(l, id, changes, now, cfg.maxJobs)
    case ReadOp => true
    case RestartOp => true
  }

  /** The states that runs go through. */
  ghost predicate Proper(s: Store) {
    Keyed(s.jobs) && Readable(s.file) && (!s.loaded ==> s.jobs == NO_JOBS)
  }

  lemma NamelessHidesIff(s: Store, job: Job, cfg: Config)
    requires s.loaded && SameNewest(s, cfg) && Id(job) == ""
    ensures Newest(Fold(s.file), cfg.maxJobs) == Newest(s.jobs.Put("", job), cfg.maxJobs)
       <==> AddHides(s, job, cfg.maxJobs)
  {
    hide Newest, Fold, PlaceOf, Id, Drop;
    var f := Fold(s.file);
    FoldKeyed(s.file);
    NewestDistinct(f, cfg.maxJobs);
    SameNewestOthers(f, s.jobs, "", cfg.maxJobs);
    PopAbsent(f);
    PutPopped(s.jobs, "", job);
    PopKeepsNewestIff(s.jobs.Put("", job), "", cfg.maxJobs);
  }

  lemma AddHidesIff(s: Store, job: Job, cfg: Config)
    requires s.loaded && SameNewest(s, cfg)
    ensures SameNewest(Store(true, s.jobs.Put(Id(job), job), s.file + [Record(job)]), cfg)
       <==> AddHides(s, job, cfg.maxJobs)
  {
    hide Newest, Fold, PlaceOf, Id, Drop;
    FoldSnoc(s.file, Record(job));
    FoldKeyed(s.file);
    if Id(job) == "" {
      NamelessHidesIff(s, job, cfg);
    } else {
      PutKeepsNewestIff(Fold(s.file), s.jobs, job, cfg.maxJobs);
    }
  }

  lemma UpdateHidesIff(s: Store, id: string, changes: Changes, now: string, cfg: Config)
    requires s.loaded && SameNewest(s, cfg)
    ensures Proper(Update(s, id, changes, now, cfg))
    ensures SameNewest(Update(s, id, changes, now, cfg), cfg) <==> UpdateHides(s, id, changes, now, cfg.maxJobs)
  {
    hide Fold, Id, Changed, Drop, Newest, Records, PlaceOf;
    if id in s.jobs.items {
      var jobs: Jobs := s.jobs.Put(id, Changed(s.jobs.items[id], changes, now));
      assert Keyed(jobs);
      RewriteReadsBack(jobs);
      if "" in jobs.items { PopKeepsNewestIff(jobs, "", cfg.maxJobs); } else { PopAbsent(jobs); }
    }
  }

  lemma LoadingAgain(s: Store, cfg: Config)
    ensures Loaded(Loaded(s, cfg), cfg) == Loaded(s, cfg)
  {
  }

  lemma StepLoads(s: Store, op: Op, cfg: Config)
    requires !op.RestartOp?
    ensures Step(s, op, cfg) == Step(Loaded(s, cfg), op, cfg)
  {
    hide Loaded;
    LoadingAgain(s, cfg);
  }

  lemma NewestIsProper(s: Store, cfg: Config)
    requires SameNewest(s, cfg)
    ensures Proper(s)
  {
  }

  lemma AddStepHidesIff(s: Store, id: string, command: seq<string>, actor: string, now: string, cfg: Config)
    requires s.loaded && SameNewest(s, cfg)
    ensures Proper(Add(s, id, command, actor, now, cfg))
    ensures SameNewest(Add(s, id, command, actor, now, cfg), cfg)
       <==> AddHides(s, NewJob(id, command, actor, now), cfg.maxJobs)
  {
    hide Newest, Fold, AddHides, NewJob, Id, Created;
    AddHidesIff(s, NewJob(id, command, actor, now), cfg);
  }

  lemma RestartHides(s: Store, cfg: Config)
    requires SameNewest(s, cfg)
    ensures SameNewest(Restart(s), cfg) && Proper(Restart(s))
  {
    hide Newest, Fold;
    RestartNewest(s, cfg);
  }

  /** From a store whose restart cannot be seen, one call leads to another such exactly when it hides the restart. */
  lemma StepHidesIff(s: Store, op: Op, cfg: Config)
    requires SameNewest(s, cfg)
    ensures Proper(Step(s, op, cfg))
    ensures SameNewest(Step(s, op, cfg), cfg) <==> Hides(s, op, cfg)
  {
    hide Loaded, Fold, Add, Update, AddHides, UpdateHides, SameNewest, Proper, NewJob, Restart;
    LoadedNewest(s, cfg);
    LoadingAgain(s, cfg);
    NewestIsProper(Loaded(s, cfg), cfg);
    match op
    case AddOp(id, command, actor, now) =>
      StepLoads(s, op, cfg);
      AddStepHidesIff(Loaded(s, cfg), id, command, actor, now, cfg);
    case UpdateOp(id, changes, now) =>
      StepLoads(s, op, cfg);
      UpdateHidesIff(Loaded(s, cfg), id, changes, now, cfg);
    case ReadOp =>
    case RestartOp => RestartHides(s, cfg);
  }

  // ---- what a client can see ----

  /** A listing of the newest `maxJobs` jobs is the same after a restart. */
  ghost predicate Unseen(s: Store, cfg: Config) {
    ListRecent(Restart(s), cfg.maxJobs, cfg) == ListRecent(s, cfg.maxJobs, cfg)
  }

  lemma UnseenIff(s: Store, cfg: Config)
    requires Proper(s)
    ensures Unseen(s, cfg) <==> SameNewest(s, cfg)
  {
    hide Newest, Fold, Loaded;
    if s.loaded {
      LoadedIs(s, cfg);
      LoadedNewest(Restart(s), cfg);
    } else {
      assert Restart(s) == s;
    }
  }

  /** Every call of a run hides restarts. */
  ghost predicate QuietRun(s: Store, ops: seq<Op>, cfg: Config)
    decreases |ops|
  {
    ops != [] ==> Hides(s, ops[0], cfg) && QuietRun(Step(s, ops[0], cfg), ops[1..], cfg)
  }

  lemma RunAfterStep(s: Store, ops: seq<Op>, k: nat, cfg: Config)
    requires 0 < k <= |ops|
    ensures Run(s, ops[..k], cfg) == Run(Step(s, ops[0], cfg), ops[1..][..k - 1], cfg)
  {
    hide Step;
    assert ops[..k][0] == ops[0] && ops[..k][1..] == ops[1..][..k - 1];
  }

  lemma RunNothing(s: Store, ops: seq<Op>, cfg: Config)
    ensures Run(s, ops[..0], cfg) == s
  {
  }

  lemma {:induction false} QuietIff(s: Store, ops: seq<Op>, cfg: Config)
    requires SameNewest(s, cfg)
    ensures (forall k | 0 <= k <= |ops| :: Unseen(Run(s, ops[..k], cfg), cfg)) <==> QuietRun(s, ops, cfg)
    decreases |ops|
  {
    hide Step, Run, SameNewest, Unseen, Hides, Proper;
    NewestIsProper(s, cfg);
    UnseenIff(s, cfg);
    RunNothing(s, ops, cfg);
    if ops != [] {
      var s', rest := Step(s, ops[0], cfg), ops[1..];
      StepHidesIff(s, ops[0], cfg);
      UnseenIff(s', cfg);
      RunNothing(s', rest, cfg);
      forall k | 0 < k <= |ops| ensures Run(s, ops[..k], cfg) == Run(s', rest[..k - 1], cfg) {
        RunAfterStep(s, ops, k, cfg);
      }
      if Hides(s, ops[0], cfg) {
        QuietIff(s', rest, cfg);
        if forall k | 0 <= k <= |ops| :: Unseen(Run(s, ops[..k], cfg), cfg) {
          forall k | 0 <= k <= |rest| ensures Unseen(Run(s', rest[..k], cfg), cfg) {
            assert Run(s, ops[..k + 1], cfg) == Run(s', rest[..k], cfg);
          }
        }
      } else {
        assert !Unseen(Run(s, ops[..1], cfg), cfg);
      }
    }
  }

  /** Exactly when: over any readable file, in any run with any restarts, a restart can be seen at no moment if and
      only if every call hides it. */
  lemma NoRestartShowsIff(file: seq<Line>, ops: seq<Op>, cfg: Config)
    requires Readable(file)
    ensures var s := Store(false, NO_JOBS, file);
            (forall k | 0 <= k <= |ops| :: Unseen(Run(s, ops[..k], cfg), cfg)) <==> QuietRun(s, ops, cfg)
  {
    hide Run, Unseen, QuietRun, SameNewest;
    ProcessStarts(file, cfg);
    QuietIff(Store(false, NO_JOBS, file), ops, cfg);
  }

  lemma ProcessStarts(file: seq<Line>, cfg: Config)
    requires Readable(file)
    ensures SameNewest(Store(false, NO_JOBS, file), cfg)
  {
  }

  // ---- new ids hide it ----

  lemma PutFresh(jobs: Jobs, job: Job, limit: nat)
    requires Keyed(jobs) && Id(job) !in jobs.items
    ensures Newest(jobs.Put(Id(job), job), limit)
         == Take(StableSort(Newest(jobs, limit) + [job], NewerOrTied), limit)
  {
    hide StableSort, Id;
    PutNew(jobs, job);
    NewerIsPreorder();
    TakeAppend(jobs.Values(), limit, job, NewerOrTied);
  }

  lemma NewIdHides(s: Store, job: Job, cfg: Config)
    requires s.loaded && SameNewest(s, cfg)
    requires Id(job) != "" && Id(job) !in Fold(s.file).items && Id(job) !in s.jobs.items
    ensures AddHides(s, job, cfg.maxJobs)
  {
    hide Fold, Id, Newest, StableSort, PlaceOf, Drop;
    FoldKeyed(s.file);
    PutFresh(Fold(s.file), job, cfg.maxJobs);
    PutFresh(s.jobs, job, cfg.maxJobs);
    PutKeepsNewestIff(Fold(s.file), s.jobs, job, cfg.maxJobs);
  }

  /** New jobs get ids that neither memory nor file has. */
  ghost predicate AddsFresh(s: Store, op: Op, cfg: Config) {
    var l := Loaded(s, cfg);
    op.AddOp? ==> op.id != "" && op.id !in l.jobs.items && op.id !in Fold(l.file).items
  }

  ghost predicate FreshRun(s: Store, ops: seq<Op>, cfg: Config)
    decreases |ops|
  {
    ops != [] ==> AddsFresh(s, ops[0], cfg) && FreshRun(Step(s, ops[0], cfg), ops[1..], cfg)
  }

  lemma LoadedNames(s: Store, cfg: Config)
    requires SameNewest(s, cfg) && "" !in s.jobs.items
    ensures "" !in Loaded(s, cfg).jobs.items
  {
    hide Newest, Index, Fold;
    if !s.loaded {
      LoadedItems(s, cfg);
      FoldKeyed(s.file);
      IndexOfNewest(Fold(s.file), cfg.maxJobs);
    }
  }

  lemma FreshStepHides(s: Store, op: Op, cfg: Config)
    requires SameNewest(s, cfg) && AddsFresh(s, op, cfg) && "" !in s.jobs.items
    ensures Hides(s, op, cfg) && "" !in Step(s, op, cfg).jobs.items
  {
    hide Loaded, Fold, AddHides, SameNewest, Changed, NewJob, Id, PlaceOf, Records;
    LoadedNewest(s, cfg);
    LoadedNames(s, cfg);
    match op
    case AddOp(id, command, actor, now) => NewIdHides(Loaded(s, cfg), NewJob(id, command, actor, now), cfg);
    case UpdateOp(id, changes, now) =>
    case ReadOp =>
    case RestartOp =>
  }

  /** New ids are enough. */
  lemma {:induction false} FreshIsQuiet(s: Store, ops: seq<Op>, cfg: Config)
    requires SameNewest(s, cfg) && FreshRun(s, ops, cfg) && "" !in s.jobs.items
    ensures QuietRun(s, ops, cfg)
    decreases |ops|
  {
    hide SameNewest, AddsFresh, Step, Hides;
    if ops != [] {
      FreshStepHides(s, ops[0], cfg);
      StepHidesIff(s, ops[0], cfg);
      FreshIsQuiet(Step(s, ops[0], cfg), ops[1..], cfg);
    }
  }

  /** In every run whose calls hide restarts memory and file have the same newest jobs. */
  lemma {:induction false} RunKeepsNewest(s: Store, ops: seq<Op>, cfg: Config)
    requires SameNewest(s, cfg) && QuietRun(s, ops, cfg)
    ensures SameNewest(Run(s, ops, cfg), cfg)
    decreases |ops|
  {
    hide SameNewest, Hides, Step;
    if ops != [] {
      StepHidesIff(s, ops[0], cfg);
      RunKeepsNewest(Step(s, ops[0], cfg), ops[1..], cfg);
    }
  }

  /** Where new jobs get new ids a restart can be seen at no moment, in no listing of at most `maxJobs` jobs. */
  lemma NoRestartShows(file: seq<Line>, ops: seq<Op>, limit: nat, cfg: Config)
    requires Readable(file) && limit <= cfg.maxJobs
    requires FreshRun(Store(false, NO_JOBS, file), ops, cfg)
    ensures var s := Run(Store(false, NO_JOBS, file), ops, cfg);
            ListRecent(Restart(s), limit, cfg) == ListRecent(s, limit, cfg)
  {
    hide Run, FreshRun, ListRecent, SameNewest, QuietRun;
    ProcessStarts(file, cfg);
    FreshIsQuiet(Store(false, NO_JOBS, file), ops, cfg);
    RunKeepsNewest(Store(false, NO_JOBS, file), ops, cfg);
    ListingSurvivesRestart(Run(Store(false, NO_JOBS, file), ops, cfg), limit, cfg);
  }

  // ---- ids that are used again ----

  lemma PutInPlace(jobs: Jobs, id: string, job: Job)
    requires id in jobs.items
    ensures var i := KeyIndex(jobs.keys, id); jobs.Put(id, job).Values() == jobs.Values()[i := job]
  {
  }

  /** A listed job that is replaced by one that is no older stays listed. */
  lemma NewerStaysListed(jobs: Jobs, job: Job, limit: nat)
    requires Keyed(jobs) && Id(job) in jobs.items && NewerOrTied(job, jobs.items[Id(job)])
    requires jobs.items[Id(job)] in Newest(jobs, limit)
    ensures PlaceOf(jobs.Put(Id(job), job), Id(job)) < limit
  {
    hide Newest, Place, NewerOrTied, Id;
    var i := KeyIndex(jobs.keys, Id(job));
    NewerIsPreorder();
    NewestByPlace(jobs, limit, i);
    PutInPlace(jobs, Id(job), job);
    PlaceOfSmaller(jobs.Values(), i, job, NewerOrTied);
  }

  /** An id that was truncated away, or one that memory still has, is used again, and not for an older job: the restart
      stays hidden exactly when the job takes the same place in both, or is too old to be listed in either. */
  lemma ReusedIdHidesIff(s: Store, job: Job, cfg: Config)
    requires s.loaded && SameNewest(s, cfg) && Id(job) != ""
    requires Id(job) in s.jobs.items ==> NewerOrTied(job, s.jobs.items[Id(job)])
    ensures var q := PlaceOf(Fold(s.file).Put(Id(job), job), Id(job));
            var r := PlaceOf(s.jobs.Put(Id(job), job), Id(job));
            AddHides(s, job, cfg.maxJobs) <==> q == r || (q >= cfg.maxJobs && r >= cfg.maxJobs)
  {
    hide Newest, PlaceOf, Fold, Id, NewerOrTied, Drop;
    var id := Id(job);
    FoldKeyed(s.file);
    NewestDistinct(s.jobs, cfg.maxJobs);
    SameNewestOthers(Fold(s.file), s.jobs, id, cfg.maxJobs);
    if j :| j in Newest(s.jobs, cfg.maxJobs) && Id(j) == id { NewerStaysListed(s.jobs, job, cfg.maxJobs); }
  }

  // ---- two runs in which a restart shows ----

  lemma SortTwo(x: Job, y: Job)
    ensures StableSort([x, y], NewerOrTied) == if NewerOrTied(x, y) then [x, y] else [y, x]
  {
    hide NewerOrTied;
    assert [x, y][1..] == [y] && [y][1..] == [];
    assert StableSort([], NewerOrTied) == [];
    assert StableSort([y], NewerOrTied) == [y];
    assert Insert(x, [], NewerOrTied) == [x];
  }

  lemma SortThree(w: Job, x: Job, y: Job)
    requires !NewerOrTied(w, x) && !NewerOrTied(w, y)
    ensures StableSort([w, x, y], NewerOrTied) == (if NewerOrTied(x, y) then [x, y] else [y, x]) + [w]
  {
    hide NewerOrTied;
    SortTwo(x, y);
    assert [w, x, y][1..] == [x, y];
    LastOfTwo(w, x, y);
    LastOfTwo(w, y, x);
  }

  lemma LastOfTwo(w: Job, x: Job, y: Job)
    requires !NewerOrTied(w, x) && !NewerOrTied(w, y)
    ensures Insert(w, [x, y], NewerOrTied) == [x, y] + [w]
  {
    hide NewerOrTied;
    assert [x, y][1..] == [y] && [y][1..] == [];
    assert Insert(w, [], NewerOrTied) == [w];
    assert Insert(w, [y], NewerOrTied) == [y, w];
  }

  lemma IndexNames(jobs: seq<Job>)
    requires DistinctIds(jobs)
    ensures "" in Index(jobs).items ==> exists j :: j in jobs && Id(j) == ""
  {
    hide Index, Id;
    IndexOf(jobs);
    if "" in Index(jobs).items { assert jobs[KeyIndex(Index(jobs).keys, "")] in jobs; }
  }

  /** What is newest of two, and of three of which the first is the oldest. */
  lemma NewestOfTwo(d: Jobs, x: Job, y: Job)
    requires d.Values() == [x, y] && NewerOrTied(x, y)
    ensures Newest(d, 1) == [x] && Newest(d, 2) == [x, y]
  {
    hide NewerOrTied, StableSort;
    SortTwo(x, y);
  }

  lemma NewestOfThree(d: Jobs, w: Job, x: Job, y: Job)
    requires d.Values() == [w, x, y] && !NewerOrTied(w, x) && !NewerOrTied(w, y) && NewerOrTied(x, y)
    ensures Newest(d, 2) == [x, y]
  {
    hide NewerOrTied, StableSort;
    SortThree(w, x, y);
    assert ([x, y] + [w])[..2] == [x, y];
  }

  /** A process starts on a written file of no more than `MAX_FILE_SIZE` and loads its newest jobs. */
  lemma StartsOn(jobs: seq<Job>, kept: seq<Job>, cfg: Config)
    requires kept == Take(StableSort(jobs, NewerOrTied), cfg.maxJobs)
    requires DistinctIds(jobs) && (forall j | j in jobs :: Id(j) != "")
    requires |jobs| > cfg.maxJobs && cfg.fileSize(Records(jobs)) <= MAX_FILE_SIZE
    ensures Fold(Records(jobs)) == Index(jobs)
    ensures Loaded(Store(false, NO_JOBS, Records(jobs)), cfg)
         == Store(true, Index(kept), Records(jobs))
  {
    hide Index, Fold, Id, StableSort, Records;
    IndexOf(jobs);
    IndexNames(jobs);
    FoldRecords(jobs);
    PopAbsent(Index(jobs));
  }

  lemma ListedAfterAdd(s: Store, job: Job, cfg: Config)
    requires s.loaded && Proper(s) && Id(job) != ""
    ensures var after := Store(true, s.jobs.Put(Id(job), job), s.file + [Record(job)]);
            && ListRecent(after, cfg.maxJobs, cfg) == Newest(s.jobs.Put(Id(job), job), cfg.maxJobs)
            && ListRecent(Restart(after), cfg.maxJobs, cfg) == Newest(Fold(s.file).Put(Id(job), job), cfg.maxJobs)
  {
    hide Fold, Id, Newest, Loaded;
    var after := Store(true, s.jobs.Put(Id(job), job), s.file + [Record(job)]);
    FoldSnoc(s.file, Record(job));
    LoadedIs(after, cfg);
    ProcessStarts(after.file, cfg);
    LoadedNewest(Restart(after), cfg);
  }

  /** Storing a job in a dict of others, under a known id and under a new one. */
  lemma PutAmong(jobs: seq<Job>, i: nat, job: Job)
    requires DistinctIds(jobs) && i < |jobs| && Id(jobs[i]) == Id(job)
    ensures Index(jobs).Put(Id(job), job).Values() == jobs[i := job]
  {
    hide Index, Id;
    IndexOf(jobs);
    var d := Index(jobs);
    assert d.keys[i] == Id(job);
    PutInPlace(d, Id(job), job);
  }

  lemma PutBehind(jobs: seq<Job>, job: Job)
    requires DistinctIds(jobs) && forall j | j in jobs :: Id(j) != Id(job)
    ensures Index(jobs).Put(Id(job), job).Values() == jobs + [job]
  {
    hide Index, Id;
    IndexOf(jobs);
    FreshId(jobs, job);
    PutNew(Index(jobs), job);
  }

  lemma AddIs(s: Store, id: string, command: seq<string>, actor: string, now: string, cfg: Config)
    ensures var l, job := Loaded(s, cfg), NewJob(id, command, actor, now);
            Add(s, id, command, actor, now, cfg) == Store(true, l.jobs.Put(id, job), l.file + [Record(job)])
  {
    hide Loaded, NewJob;
  }

  lemma TiedNewer(b: Job, c: Job)
    requires Created(b) == Created(c)
    ensures NewerOrTied(b, c) && NewerOrTied(c, b)
  {
    TextOrder.Total(Created(b), Created(b));
  }

  lemma OlderThanTied(a: Job, b: Job, c: Job)
    requires Created(b) == Created(c) && !NewerOrTied(a, b)
    ensures !NewerOrTied(a, c)
  {
  }

  lemma AfterTruncation(a: Job, b: Job, c: Job)
    requires Id(c) == Id(a) && Id(a) != Id(b) && Created(c) == Created(b)
    ensures Newest(Index([b]).Put(Id(c), c), 1) == [b] && Newest(Index([a, b]).Put(Id(c), c), 1) == [c]
  {
    hide Id, Created, Index, NewerOrTied, Newest;
    assert [a, b][0 := c] == [c, b] && [b] + [c] == [b, c];
    PutBehind([b], c);
    PutAmong([a, b], 0, c);
    TiedNewer(b, c);
    NewestOfTwo(Index([b]).Put(Id(c), c), b, c);
    NewestOfTwo(Index([a, b]).Put(Id(c), c), c, b);
  }

  /** An id that was truncated away: the job comes last in memory and stays first in the file, so a tie with another job
      breaks differently after a restart. */
  lemma ReaddedIdShows(a: Job, b: Job, command: seq<string>, actor: string, cfg: Config)
    requires Id(a) != "" && Id(b) != "" && Id(a) != Id(b) && !NewerOrTied(a, b)
    requires cfg.maxJobs == 1 && cfg.fileSize(Records([a, b])) <= MAX_FILE_SIZE
    ensures var s := Add(Store(false, NO_JOBS, Records([a, b])), Id(a), command, actor, Created(b), cfg);
            var c := NewJob(Id(a), command, actor, Created(b));
            ListRecent(s, 1, cfg) == [b] && ListRecent(Restart(s), 1, cfg) == [c]
  {
    hide Id, Created, Fold, NewJob, StableSort, Index, Loaded, NewerOrTied, Records, Newest, Add, Restart, ListRecent;
    var c := NewJob(Id(a), command, actor, Created(b));
    var s := Store(true, Index([b]), Records([a, b]));
    SortTwo(a, b);
    StartsOn([a, b], [b], cfg);
    AddIs(Store(false, NO_JOBS, Records([a, b])), Id(a), command, actor, Created(b), cfg);
    IndexOf([b]);
    ListedAfterAdd(s, c, cfg);
    AfterTruncation(a, b, c);
  }

  lemma AfterReload(w: Job, x: Job, y: Job, c: Job)
    requires DistinctIds([w, x, y]) && DistinctIds([y, x]) && Id(c) == Id(x) && Created(c) == Created(y)
    requires !NewerOrTied(w, y)
    ensures Newest(Index([y, x]).Put(Id(c), c), 2) == [y, c] && Newest(Index([w, x, y]).Put(Id(c), c), 2) == [c, y]
  {
    hide Id, Created, Index, NewerOrTied, Newest, DistinctIds;
    assert [y, x][1 := c] == [y, c] && [w, x, y][1 := c] == [w, c, y];
    PutAmong([y, x], 1, c);
    PutAmong([w, x, y], 1, c);
    TiedNewer(y, c);
    OlderThanTied(w, y, c);
    NewestOfTwo(Index([y, x]).Put(Id(c), c), y, c);
    NewestOfThree(Index([w, x, y]).Put(Id(c), c), w, c, y);
  }

  /** An id that memory still has: loading put the newer of two jobs first, the file has it last, and a job submitted
      under the other's id at its moment stands behind it in memory and before it in the file. */
  lemma KeptIdShows(w: Job, x: Job, y: Job, command: seq<string>, actor: string, cfg: Config)
    requires DistinctIds([w, x, y]) && (forall j | j in [w, x, y] :: Id(j) != "")
    requires !NewerOrTied(w, x) && !NewerOrTied(x, y) && !NewerOrTied(w, y)
    requires cfg.maxJobs == 2 && cfg.fileSize(Records([w, x, y])) <= MAX_FILE_SIZE
    ensures var s := Add(Store(false, NO_JOBS, Records([w, x, y])), Id(x), command, actor, Created(y), cfg);
            var c := NewJob(Id(x), command, actor, Created(y));
            ListRecent(s, 2, cfg) == [y, c] && ListRecent(Restart(s), 2, cfg) == [c, y]
  {
    hide Id, Created, Fold, NewJob, StableSort, Index, Loaded, NewerOrTied, Records, Newest, Add, Restart, ListRecent;
    var c := NewJob(Id(x), command, actor, Created(y));
    var s := Store(true, Index([y, x]), Records([w, x, y]));
    SortThree(w, x, y);
    assert ([y, x] + [w])[..2] == [y, x];
    StartsOn([w, x, y], [y, x], cfg);
    AddIs(Store(false, NO_JOBS, Records([w, x, y])), Id(x), command, actor, Created(y), cfg);
    assert Id([w, x, y][1]) != Id([w, x, y][2]);
    IndexOf([y, x]);
    ListedAfterAdd(s, c, cfg);
    AfterReload(w, x, y, c);
  }
}
