/** `PersistentScanJobStore`: the dict in memory and the lines on disk, changed step by step. */
module JobStores {
  import opened Collections
  import opened Sorting
  import opened JobStoreModel
  import opened JobStoreRuns
  import TextOrder

  class PersistentScanJobStore {
    const config: Config
    var loaded: bool
    var jobs: Jobs
    var file: seq<Line>

    ghost function Contents(): Store
      reads this
    {
      Store(loaded, jobs, file)
    }

    ghost predicate Valid()
      reads this
    {
      !loaded ==> jobs == NO_JOBS
    }

    constructor (config: Config, file: seq<Line>)
      ensures Valid() && this.config == config && Contents() == Store(false, NO_JOBS, file)
    {
      this.config := config;
      this.loaded := false;
      this.jobs := NO_JOBS;
      this.file := file;
    }

    /** The reading loop that `_load_from_disk` and `_compact` share. `job.get` raises on a scalar. */
    method ReadJobs() returns (read: Option<Jobs>)
      ensures read == if Readable(file) then Some(Fold(file)) else None
    {
      hide Fold, ReadLine;
      var found: Jobs := NO_JOBS;
      FoldNothing();
      assert file[..0] == [];
      for i := 0 to |file|
        invariant found == Fold(file[..i])
        invariant Scalar !in file[..i]
      {
        assert file[..i + 1] == file[..i] + [file[i]];
        if file[i].Scalar? { return None; }
        FoldSnoc(file[..i], file[i]);
        found := ReadLine(found, file[i]);
      }
      assert file[..|file|] == file;
      return Some(found);
    }

    method BuildIndex(recent: seq<Job>) returns (index: Jobs)
      ensures index == Index(recent)
    {
      hide Index, Id;
      index := NO_JOBS;
      IndexNothing();
      for i := 0 to |recent|
        invariant index == Index(recent[..i])
      {
        assert recent[..i + 1] == recent[..i] + [recent[i]];
        IndexSnoc(recent[..i], recent[i]);
        index := index.Put(Id(recent[i]), recent[i]);
      }
      assert recent[..|recent|] == recent;
    }

    method WriteJobs(written: seq<Job>) returns (lines: seq<Line>)
      ensures lines == Records(written)
    {
      lines := [];
      for i := 0 to |written|
        invariant |lines| == i && forall k | 0 <= k < i :: lines[k] == Record(written[k])
      {
        lines := lines + [Record(written[i])];
      }
    }

    method EnsureLoaded()
      requires Valid()
      modifies this
      ensures Valid() && loaded && Contents() == Loaded(old(Contents()), config)
      ensures old(loaded) ==> jobs == old(jobs) && file == old(file)
      ensures !old(loaded) && Scalar in old(file) ==> jobs.keys == [] && file == old(file)
      ensures !old(loaded) && Scalar !in old(file) ==>
                var read := Fold(old(file));
                && |jobs.keys| == (if |read.keys| <= config.maxJobs then |read.keys| else config.maxJobs)
                && (forall id | id in jobs.items :: id in read.items && jobs.items[id] == read.items[id])
                && (config.fileSize(old(file)) <= 10485760 ==> file == old(file))
    {
      hide Fold, Newest, Index;
      if !loaded { LoadIs(Contents(), config); }
      if loaded { return; }
      if config.fileSize(file) > MAX_FILE_SIZE {
        Compact();
      } else {
        var read := ReadJobs();
        if read.Some? {
          jobs := read.value;
          if |jobs.keys| > config.maxJobs {
            jobs := BuildIndex(Newest(jobs, config.maxJobs));
          }
        }
      }
      loaded := true;
    }

    method Compact()
      requires Valid() && !loaded
      modifies this`jobs, this`file
      ensures !Readable(old(file)) ==> jobs == old(jobs) && file == old(file)
      ensures Readable(old(file)) ==>
                var kept := Newest(Fold(old(file)), config.maxJobs);
                jobs == Index(kept) && file == Records(kept)
    {
      hide Fold, Newest, Index;
      var read := ReadJobs();
      if read.None? { return; }
      var recent := Newest(read.value, config.maxJobs);
      file := WriteJobs(recent);
      jobs := BuildIndex(recent);
    }

    method AddJob(id: string, command: seq<string>, actor: string, now: string) returns (job: Job)
      requires Valid()
      modifies this
      ensures Valid() && Contents() == Add(old(Contents()), id, command, actor, now, config)
      ensures job.Keys == {JobId, Command, Actor, Status, CreatedAt, CompletedAt, Result, Error, SchemaVersion}
      ensures job[JobId] == Text(id) && job[Command] == Words(command) && job[Actor] == Text(actor)
      ensures job[CreatedAt] == Text(now) && job[Status] == Text("pending") && job[SchemaVersion] == Number(2)
      ensures job[CompletedAt] == Null && job[Result] == Null && job[Error] == Null
      ensures var was := Loaded(old(Contents()), config);
              && jobs.items == was.jobs.items[id := job] && file == was.file + [Record(job)]
    {
      hide Loaded, Id, Created;
      EnsureLoaded();
      job := NewJob(id, command, actor, now);
      jobs := jobs.Put(id, job);
      file := file + [Record(job)];
    }

    method UpdateJob(id: string, changes: Job, now: string) returns (updated: Option<Job>)
      requires Valid() && JobId !in changes
      modifies this
      ensures Valid() && Contents() == Update(old(Contents()), id, changes, now, config)
      ensures updated == if id in jobs.items then Some(jobs.items[id]) else None
      ensures var was := Loaded(old(Contents()), config);
              if id !in was.jobs.items then jobs == was.jobs && file == was.file
              else
                && updated.Some? && IsUpdated(was.jobs.items[id], changes, now, updated.value)
                && jobs.items == was.jobs.items[id := updated.value] && jobs.keys == was.jobs.keys
                && |file| == |jobs.keys| && forall i | 0 <= i < |file| :: file[i] == Record(jobs.items[jobs.keys[i]])
    {
      hide Loaded, Changed, IsUpdated, Finishes;
      EnsureLoaded();
      if id !in jobs.items { return None; }
      var job := Changed(jobs.items[id], changes, now);
      ChangedIs(jobs.items[id], changes, now);
      jobs := jobs.Put(id, job);
      file := WriteJobs(jobs.Values());
      return Some(job);
    }

    method Get(id: string) returns (job: Option<Job>)
      requires Valid()
      modifies this
      ensures Valid() && Contents() == Loaded(old(Contents()), config)
      ensures job == if id in jobs.items then Some(jobs.items[id]) else None
    {
      EnsureLoaded();
      if id in jobs.items { return Some(jobs.items[id]); }
      return None;
    }

    method ListRecentJobs(limit: nat) returns (recent: seq<Job>)
      requires Valid()
      modifies this
      ensures Valid() && Contents() == Loaded(old(Contents()), config)
      ensures recent == ListRecent(old(Contents()), limit, config)
      ensures |recent| == (if |jobs.keys| <= limit then |jobs.keys| else limit)
      ensures forall i, j | 0 <= i < j < |recent| && Stamped(recent[i]) && Stamped(recent[j]) ::
                !TextOrder.ComesBefore(recent[i][CreatedAt].text, recent[j][CreatedAt].text)
      ensures forall i, job: Job | 0 <= i < |recent| && job in jobs.Values() && job !in recent
                              && Stamped(recent[i]) && Stamped(job) ::
                !TextOrder.ComesBefore(recent[i][CreatedAt].text, job[CreatedAt].text)
    {
      hide Newest;
      EnsureLoaded();
      recent := Newest(jobs, limit);
      ListingIs(jobs, limit);
    }
  }

  /** The given fields are set and no others, except the completion time when the status becomes a final one. */
  ghost predicate IsUpdated(was: Job, changes: Job, now: string, job: Job) {
    var ends := Status in changes && changes[Status] in {Text("completed"), Text("failed")};
    && (ends ==> CompletedAt in job && job[CompletedAt] == Text(now))
    && forall f | !(f == CompletedAt && ends) ::
         && (f in changes ==> f in job && job[f] == changes[f])
         && (f !in changes ==> (f in job <==> f in was) && (f in job ==> job[f] == was[f]))
  }

  lemma ChangedIs(was: Job, changes: Job, now: string)
    requires JobId !in changes
    ensures IsUpdated(was, changes, now, Changed(was, changes, now))
  {
    hide Changed;
  }

  ghost predicate Stamped(job: Job) { CreatedAt in job && job[CreatedAt].Text? }

  lemma ListingIs(jobs: Jobs, limit: nat)
    ensures var recent := Newest(jobs, limit);
            && |recent| == (if |jobs.keys| <= limit then |jobs.keys| else limit)
            && (forall i, j | 0 <= i < j < |recent| && Stamped(recent[i]) && Stamped(recent[j]) ::
                  !TextOrder.ComesBefore(recent[i][CreatedAt].text, recent[j][CreatedAt].text))
            && forall i, job: Job | 0 <= i < |recent| && job in jobs.Values() && job !in recent
                               && Stamped(recent[i]) && Stamped(job) ::
                 !TextOrder.ComesBefore(recent[i][CreatedAt].text, job[CreatedAt].text)
  {
    hide Newest;
    var recent := Newest(jobs, limit);
    NewestLength(jobs, limit);
    forall i, j | 0 <= i < j < |recent| && Stamped(recent[i]) && Stamped(recent[j])
      ensures !TextOrder.ComesBefore(recent[i][CreatedAt].text, recent[j][CreatedAt].text)
    {
      NewestFirst(jobs, limit, i, j, recent[i][CreatedAt].text, recent[j][CreatedAt].text);
    }
    forall i, job: Job | 0 <= i < |recent| && job in jobs.Values() && job !in recent
                         && Stamped(recent[i]) && Stamped(job)
      ensures !TextOrder.ComesBefore(recent[i][CreatedAt].text, job[CreatedAt].text)
    {
      NoneNewerIsLeftOut(jobs, limit, recent[i], job, recent[i][CreatedAt].text, job[CreatedAt].text);
    }
  }

  lemma NewestLength(jobs: Jobs, limit: nat)
    ensures |Newest(jobs, limit)| == if |jobs.keys| <= limit then |jobs.keys| else limit
  {
    hide StableSort;
    SortElements(jobs.Values(), NewerOrTied);
  }

  lemma FoldNothing()
    ensures Fold([]) == NO_JOBS
  {
  }
}
