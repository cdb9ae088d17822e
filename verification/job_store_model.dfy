/** The persistent job store as values: an insertion-ordered dict of jobs and the lines of a JSON Lines file.
    JSON itself is a bijection on jobs, so a line holds the job that it encodes. */
module JobStoreModel {
  import opened Collections
  import opened Sorting
  import TextOrder

  const MAX_FILE_SIZE := 10 * 1024 * 1024

  datatype Value = Null | Text(text: string) | Words(items: seq<string>) | Number(n: int)

  datatype Field =
    JobId | Command | Actor | Status | CreatedAt | CompletedAt | Result | Error | SchemaVersion | Other(name: string)

  type Job = map<Field, Value>
  type Jobs = Dict<string, Job>

  const NO_JOBS: Jobs := DictRep([], map[])

  function TextOf(job: Job, f: Field): string {
    if f in job && job[f].Text? then job[f].text else ""
  }

  function Id(job: Job): string { TextOf(job, JobId) }

  function Created(job: Job): string { TextOf(job, CreatedAt) }

  // ---- the file ----

  /** `Garbage` is no JSON at all; `Scalar` is JSON that is no object, on which `job.get` raises. */
  datatype Line = Blank | Garbage | Scalar | Record(job: Job)

  predicate Readable(file: seq<Line>) { Scalar !in file }

  function ReadLine(jobs: Jobs, line: Line): Jobs {
    match line
    case Record(job) => if Id(job) != "" then jobs.Put(Id(job), job) else jobs
    case _ => jobs
  }

  /** Both reading loops: the last line of a job wins, and a job without an id is dropped. */
  function Fold(file: seq<Line>): Jobs
    decreases |file|
  {
    if file == [] then NO_JOBS else ReadLine(Fold(file[..|file| - 1]), file[|file| - 1])
  }

  function Records(jobs: seq<Job>): (file: seq<Line>)
    ensures |file| == |jobs| && Readable(file)
  {
    seq(|jobs|, i requires 0 <= i < |jobs| => Record(jobs[i]))
  }

  // ---- keeping the newest ----

  /** `sorted(..., key=created_at, reverse=True)`: newest first, ties in dict order. */
  predicate NewerOrTied(a: Job, b: Job) { TextOrder.Le(Created(b), Created(a)) }

  function Newest(jobs: Jobs, limit: nat): seq<Job> {
    Take(StableSort(jobs.Values(), NewerOrTied), limit)
  }

  /** `{j["job_id"]: j for j in jobs}`. */
  function Index(jobs: seq<Job>): Jobs
    decreases |jobs|
  {
    if jobs == [] then NO_JOBS
    else
      var last := jobs[|jobs| - 1];
      Index(jobs[..|jobs| - 1]).Put(Id(last), last)
  }

  // ---- the store ----

  datatype Config = Config(maxJobs: nat, fileSize: seq<Line> -> nat)

  /** One process over one file: it loads on first use, so a restarted process starts unloaded. */
  datatype Store = Store(loaded: bool, jobs: Jobs, file: seq<Line>)

  function Truncated(jobs: Jobs, maxJobs: nat): Jobs {
    if |jobs.keys| > maxJobs then Index(Newest(jobs, maxJobs)) else jobs
  }

  function Loaded(s: Store, cfg: Config): Store {
    if s.loaded then s
    else if !Readable(s.file) then s.(loaded := true)
    else if cfg.fileSize(s.file) > MAX_FILE_SIZE then
      var kept := Newest(Fold(s.file), cfg.maxJobs);
      Store(true, Index(kept), Records(kept))
    else Store(true, Truncated(Fold(s.file), cfg.maxJobs), s.file)
  }

  function NewJob(id: string, command: seq<string>, actor: string, now: string): (job: Job)
    ensures Id(job) == id && Created(job) == now && TextOf(job, Status) == "pending"
  {
    map[JobId := Text(id), Command := Words(command), Actor := Text(actor), Status := Text("pending"),
        CreatedAt := Text(now), CompletedAt := Null, Result := Null, Error := Null, SchemaVersion := Number(2)]
  }

  function Add(s: Store, id: string, command: seq<string>, actor: string, now: string, cfg: Config): Store {
    var s := Loaded(s, cfg);
    var job := NewJob(id, command, actor, now);
    Store(true, s.jobs.Put(id, job), s.file + [Record(job)])
  }

  predicate Finishes(changes: Job) {
    Status in changes && changes[Status] in {Text("completed"), Text("failed")}
  }

  /** A finishing update stamps the completion time, over whatever the caller passed; nothing else is touched. */
  function Changed(job: Job, changes: Job, now: string): (changed: Job)
    requires JobId !in changes
    ensures Id(changed) == Id(job)
    ensures changed.Keys == job.Keys + changes.Keys + if Finishes(changes) then {CompletedAt} else {}
    ensures Finishes(changes) ==> changed[CompletedAt] == Text(now)
    ensures forall f | f in changed && !(f == CompletedAt && Finishes(changes)) ::
              if f in changes then changed[f] == changes[f] else f in job && changed[f] == job[f]
  {
    (job + changes) + if Finishes(changes) then map[CompletedAt := Text(now)] else map[]
  }

  function Update(s: Store, id: string, changes: Job, now: string, cfg: Config): Store
    requires JobId !in changes
  {
    var s := Loaded(s, cfg);
    if id !in s.jobs.items then s
    else
      var jobs: Jobs := s.jobs.Put(id, Changed(s.jobs.items[id], changes, now));
      Store(true, jobs, Records(jobs.Values()))
  }

  function ListRecent(s: Store, limit: nat, cfg: Config): seq<Job> {
    Newest(Loaded(s, cfg).jobs, limit)
  }

  function Restart(s: Store): Store { Store(false, NO_JOBS, s.file) }

  // ---- dicts ----

  ghost predicate Keyed(jobs: Jobs) { forall id | id in jobs.items :: Id(jobs.items[id]) == id }

  lemma {:induction false} DropSnoc(keys: seq<string>, k: string, x: string)
    ensures Drop(keys + [k], x) == if x in keys then Drop(keys, x) + [k] else if k == x then keys else keys + [k]
  {
    if keys != [] {
      assert (keys + [k])[1..] == keys[1..] + [k];
      DropSnoc(keys[1..], k, x);
      assert keys == [keys[0]] + keys[1..];
    }
  }

  lemma {:induction false} DropAbsent(keys: seq<string>, x: string)
    requires x !in keys
    ensures Drop(keys, x) == keys
  {
    if keys != [] { DropAbsent(keys[1..], x); }
  }

  lemma PopKeys(d: Jobs, k: string, v: Job)
    ensures d.Put(k, v).Pop("").keys == if k == "" || k in d.items then d.Pop("").keys else d.Pop("").keys + [k]
  {
    DropSnoc(d.keys, k, "");
    if "" !in d.keys { DropAbsent(d.keys, ""); }
  }

  lemma PopItems(d: Jobs, k: string, v: Job)
    ensures k != "" ==> d.Put(k, v).Pop("").items == d.Pop("").items[k := v]
    ensures k == "" ==> d.Put(k, v).Pop("").items == d.Pop("").items
  {
    assert k == "" ==> d.items[k := v] - {""} == d.items - {""};
    assert k != "" ==> d.items[k := v] - {""} == (d.items - {""})[k := v];
  }

  lemma PutPop(d: Jobs, k: string, v: Job)
    ensures d.Put(k, v).Pop("") == if k == "" then d.Pop("") else d.Pop("").Put(k, v)
  {
    hide *;
    PopKeys(d, k, v);
    PopItems(d, k, v);
  }

  /** Reading one more record is the same as putting it in the dict, except for a job without an id. */
  lemma PutThenPop(jobs: Jobs, job: Job)
    ensures jobs.Put(Id(job), job).Pop("") == ReadLine(jobs.Pop(""), Record(job))
  {
    hide Id, Drop;
    PutPop(jobs, Id(job), job);
  }

  lemma IndexSnoc(jobs: seq<Job>, job: Job)
    ensures Index(jobs + [job]) == Index(jobs).Put(Id(job), job)
  {
    assert (jobs + [job])[..|jobs|] == jobs;
  }

  lemma FoldSnoc(file: seq<Line>, line: Line)
    ensures Fold(file + [line]) == ReadLine(Fold(file), line)
  {
    assert (file + [line])[..|file|] == file;
  }

  lemma {:induction false} FoldKeyed(file: seq<Line>)
    ensures Keyed(Fold(file)) && "" !in Fold(file).items
    decreases |file|
  {
    if file != [] { FoldKeyed(file[..|file| - 1]); }
  }

  /** A job is read from the last line that holds its id, whatever blank or broken lines lie about. */
  lemma {:induction false} LastLineCounts(file: seq<Line>, k: nat, id: string)
    requires k < |file| && file[k].Record? && JobId in file[k].job && file[k].job[JobId] == Text(id) && id != ""
    requires forall line | line in file[k + 1..] && line.Record? && JobId in line.job :: line.job[JobId] != Text(id)
    ensures id in Fold(file).items && Fold(file).items[id] == file[k].job
    decreases |file|
  {
    var n := |file| - 1;
    assert file == file[..n] + [file[n]];
    FoldSnoc(file[..n], file[n]);
    if k < n {
      assert file[k + 1..] == file[..n][k + 1..] + [file[n]];
      assert file[n] in file[k + 1..];
      LastLineCounts(file[..n], k, id);
    }
  }

  /** Nothing else is read. */
  lemma {:induction false} ReadFromALine(file: seq<Line>, id: string)
    requires id in Fold(file).items
    ensures id != "" && exists k | 0 <= k < |file| :: file[k] == Record(Fold(file).items[id])
    ensures JobId in Fold(file).items[id] && Fold(file).items[id][JobId] == Text(id)
    decreases |file|
  {
    var n := |file| - 1;
    assert file == file[..n] + [file[n]];
    FoldSnoc(file[..n], file[n]);
    if !file[n].Record? || Id(file[n].job) != id || id == "" { ReadFromALine(file[..n], id); }
  }

  lemma NoJobsPop()
    ensures Fold([]) == Index([]).Pop("")
  {
  }

  /** What a written file reads back as. */
  lemma {:induction false} FoldRecords(jobs: seq<Job>)
    ensures Fold(Records(jobs)) == Index(jobs).Pop("")
    decreases |jobs|
  {
    hide Fold, Index, ReadLine, Id, Drop;
    if jobs == [] {
      NoJobsPop();
    } else {
      var init, last := jobs[..|jobs| - 1], jobs[|jobs| - 1];
      FoldRecords(init);
      assert jobs == init + [last] && Records(jobs) == Records(init) + [Record(last)];
      FoldSnoc(Records(init), Record(last));
      IndexSnoc(init, last);
      PutThenPop(Index(init), last);
    }
  }

  ghost predicate DistinctIds(jobs: seq<Job>) {
    forall i, j | 0 <= i < j < |jobs| :: Id(jobs[i]) != Id(jobs[j])
  }

  lemma PutNew(d: Jobs, job: Job)
    requires Keyed(d) && Id(job) !in d.items
    ensures Keyed(d.Put(Id(job), job))
    ensures d.Put(Id(job), job).keys == d.keys + [Id(job)]
    ensures d.Put(Id(job), job).Values() == d.Values() + [job]
  {
    hide Id;
    var e: Jobs := d.Put(Id(job), job);
    assert forall k | k in d.keys :: k in d.items && e.items[k] == d.items[k];
    forall i | 0 <= i < |e.keys| ensures e.Values()[i] == (d.Values() + [job])[i] {
      if i < |d.keys| { assert e.keys[i] == d.keys[i]; }
    }
  }

  lemma IndexNothing()
    ensures Index([]) == NO_JOBS && NO_JOBS.Values() == []
  {
  }

  lemma FreshId(jobs: seq<Job>, job: Job)
    requires forall i | 0 <= i < |jobs| :: Id(jobs[i]) != Id(job)
    requires |Index(jobs).keys| == |jobs| && forall i | 0 <= i < |jobs| :: Index(jobs).keys[i] == Id(jobs[i])
    ensures Id(job) !in Index(jobs).items
  {
    hide Index, Id;
    assert forall k | k in Index(jobs).items :: k in Index(jobs).keys;
  }

  lemma {:induction false} IndexOf(jobs: seq<Job>)
    requires DistinctIds(jobs)
    ensures Keyed(Index(jobs)) && Index(jobs).Values() == jobs
    ensures |Index(jobs).keys| == |jobs|
    ensures forall i | 0 <= i < |jobs| :: Index(jobs).keys[i] == Id(jobs[i])
    decreases |jobs|
  {
    hide Id, Index;
    if jobs == [] {
      IndexNothing();
    } else {
      var init, last := jobs[..|jobs| - 1], jobs[|jobs| - 1];
      IndexOf(init);
      FreshId(init, last);
      PutNew(Index(init), last);
      IndexSnoc(init, last);
      assert jobs == init + [last];
    }
  }

  lemma ValuesDistinct(jobs: Jobs)
    requires Keyed(jobs)
    ensures DistinctIds(jobs.Values()) && Distinct(jobs.Values())
  {
  }

  lemma IndexValues(jobs: Jobs)
    requires Keyed(jobs)
    ensures Index(jobs.Values()) == jobs
  {
    hide Index;
    ValuesDistinct(jobs);
    IndexOf(jobs.Values());
    var d := Index(jobs.Values());
    assert d.keys == jobs.keys;
    assert d.items.Keys == jobs.items.Keys by {
      assert forall k | k in d.items :: k in d.keys;
      assert forall k | k in jobs.items :: k in jobs.keys;
    }
    forall k | k in d.items ensures d.items[k] == jobs.items[k] {
      assert k in d.keys;
      var i :| 0 <= i < |d.keys| && d.keys[i] == k;
      assert d.Values()[i] == jobs.Values()[i];
    }
  }

  lemma RewriteReadsBack(jobs: Jobs)
    requires Keyed(jobs)
    ensures Fold(Records(jobs.Values())) == jobs.Pop("")
  {
    IndexValues(jobs);
    FoldRecords(jobs.Values());
  }

  // ---- the newest jobs ----

  lemma NewerIsPreorder()
    ensures TotalPreorder(NewerOrTied)
  {
    forall a, b ensures NewerOrTied(a, b) || NewerOrTied(b, a) {
      TextOrder.Total(Created(a), Created(b));
    }
    forall a, b, c | NewerOrTied(a, b) && NewerOrTied(b, c) ensures NewerOrTied(a, c) {
      TextOrder.Transitive(Created(c), Created(b), Created(a));
    }
  }

  /** The kept jobs are jobs of the store, each at most once. */
  lemma NewestDistinct(jobs: Jobs, limit: nat)
    requires Keyed(jobs)
    ensures |Newest(jobs, limit)| == if |jobs.keys| <= limit then |jobs.keys| else limit
    ensures DistinctIds(Newest(jobs, limit))
    ensures forall j | j in Newest(jobs, limit) :: Id(j) in jobs.items && jobs.items[Id(j)] == j
  {
    hide StableSort;
    ValuesDistinct(jobs);
    var vs := jobs.Values();
    var t := StableSort(vs, NewerOrTied);
    SortElements(vs, NewerOrTied);
    SortMembers(vs, NewerOrTied);
    SortDistinct(vs, NewerOrTied);
    forall j | j in t ensures Id(j) in jobs.items && jobs.items[Id(j)] == j {
      assert j in vs;
    }
    forall i, k | 0 <= i < k < |t| ensures Id(t[i]) != Id(t[k]) {
      assert t[i] in t && t[k] in t;
    }
  }

  /** Which jobs survive: those with fewer than `limit` jobs before them, counting newer jobs and,
      among jobs created at the same time, the ones added earlier. */
  lemma NewestByPlace(jobs: Jobs, limit: nat, i: nat)
    requires Keyed(jobs) && i < |jobs.keys|
    ensures jobs.Values()[i] in Newest(jobs, limit) <==> Place(jobs.Values(), i, NewerOrTied) < limit
  {
    hide StableSort, Place;
    NewerIsPreorder();
    ValuesDistinct(jobs);
    SortElements(jobs.Values(), NewerOrTied);
    SortMembers(jobs.Values(), NewerOrTied);
    SortPlaces(jobs.Values(), i, NewerOrTied);
    if limit <= |jobs.keys| { FirstHaveLowestPlace(jobs.Values(), i, limit, NewerOrTied); }
  }

  /** A job counts as created at `""` when it has no stamp; the listing runs from the newest stamp to the oldest. */
  lemma NewestFirst(jobs: Jobs, limit: nat, i: nat, j: nat, a: string, b: string)
    requires i < j < |Newest(jobs, limit)|
    requires var kept := Newest(jobs, limit)[i]; if CreatedAt in kept then kept[CreatedAt] == Text(a) else a == ""
    requires var kept := Newest(jobs, limit)[j]; if CreatedAt in kept then kept[CreatedAt] == Text(b) else b == ""
    ensures !TextOrder.ComesBefore(a, b)
  {
    hide StableSort, TextOrder.Le;
    var t := StableSort(jobs.Values(), NewerOrTied);
    NewerIsPreorder();
    SortSorted(jobs.Values(), NewerOrTied);
    assert NewerOrTied(t[i], t[j]);
    TextOrder.LtIff(b, a);
  }

  /** No job that is left out has a later stamp than one that is kept. */
  lemma NoneNewerIsLeftOut(jobs: Jobs, limit: nat, kept: Job, out: Job, a: string, b: string)
    requires kept in Newest(jobs, limit) && out in jobs.Values() && out !in Newest(jobs, limit)
    requires if CreatedAt in kept then kept[CreatedAt] == Text(a) else a == ""
    requires if CreatedAt in out then out[CreatedAt] == Text(b) else b == ""
    ensures !TextOrder.ComesBefore(a, b)
  {
    hide StableSort, TextOrder.Le;
    var t := StableSort(jobs.Values(), NewerOrTied);
    NewerIsPreorder();
    SortElements(jobs.Values(), NewerOrTied);
    SortMembers(jobs.Values(), NewerOrTied);
    SortSorted(jobs.Values(), NewerOrTied);
    var q :| 0 <= q < |t| && t[q] == out;
    var p :| 0 <= p < |t| && p < limit && t[p] == kept;
    assert forall x | 0 <= x < |t| && x < limit :: t[x] in Newest(jobs, limit);
    assert NewerOrTied(t[p], t[q]);
    TextOrder.LtIff(b, a);
  }
}
