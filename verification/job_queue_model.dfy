/** The bounded priority queue of `ratelimit/queue.py`: what each operation does to the waiting jobs, the job records
    and the counters, and what every run conserves. The layout of the heap is abstracted to a multiset of tickets. */
module JobQueueModel {
  import opened BinaryHeap
  import opened Sorting

  datatype Status = Queued | Processing | Completed | Failed | Expired | Dropped

  datatype Job = Job(ticket: Ticket, command: seq<string>, actor: string, metadata: map<string, string>, status: Status)

  type Jobs = map<string, Job>

  datatype Stats = Stats(enqueued: nat, dequeued: nat, completed: nat, dropped: nat, expired: nat)

  datatype Queue = Queue(pending: multiset<Ticket>, jobs: Jobs, stats: Stats)

  const EMPTY: Queue := Queue(multiset{}, map[], Stats(0, 0, 0, 0, 0))

  // ---- operations ----

  function SetStatus(jobs: Jobs, id: string, status: Status): Jobs
    requires id in jobs
  {
    jobs[id := jobs[id].(status := status)]
  }

  function Accept(q: Queue, job: Job): Queue {
    Queue(q.pending + multiset{job.ticket}, q.jobs[job.ticket.id := job], q.stats.(enqueued := q.stats.enqueued + 1))
  }

  function Refuse(q: Queue): Queue {
    q.(stats := q.stats.(dropped := q.stats.dropped + 1))
  }

  function Evict(q: Queue, victim: Ticket): Queue
    requires victim.id in q.jobs
  {
    Queue(q.pending - multiset{victim}, SetStatus(q.jobs, victim.id, Dropped), q.stats.(dropped := q.stats.dropped + 1))
  }

  function HandOut(q: Queue, t: Ticket): Queue
    requires t.id in q.jobs
  {
    Queue(q.pending - multiset{t}, SetStatus(q.jobs, t.id, Processing), q.stats.(dequeued := q.stats.dequeued + 1))
  }

  /** `complete` and `fail`: any known job, whatever its status. */
  function Finish(q: Queue, id: string, status: Status): Queue {
    if id in q.jobs
    then q.(jobs := SetStatus(q.jobs, id, status), stats := q.stats.(completed := q.stats.completed + 1))
    else q
  }

  function Late(q: Queue, cutoff: real): set<string> {
    set t | t in q.pending && t.createdAt < cutoff :: t.id
  }

  function MarkExpired(jobs: Jobs, ids: set<string>): Jobs {
    map id | id in jobs :: if id in ids then jobs[id].(status := Expired) else jobs[id]
  }

  ghost predicate Purged(q: Queue, cutoff: real, q': Queue) {
    && (forall t :: q'.pending[t] == if t.createdAt < cutoff then 0 else q.pending[t])
    && q'.jobs == MarkExpired(q.jobs, Late(q, cutoff))
    && q'.stats == q.stats.(expired := q.stats.expired + |Late(q, cutoff)|)
  }

  /** Full: LOW jobs are refused; otherwise the last choice is evicted, if there is one. */
  lemma EvictsMoreUrgentIff(m: multiset<Ticket>, victim: Ticket, incoming: Ticket)
    requires IsLast(m, victim)
    ensures Lt(victim, incoming) <==> forall u | u in m :: Lt(u, incoming)
  {
  }

  // ---- soundness ----

  ghost function Having(jobs: Jobs, s: Status): set<string> {
    set id | id in jobs && jobs[id].status == s
  }

  ghost function Tally(jobs: Jobs, s: Status): nat { |Having(jobs, s)| }

  /** Waiting tickets are distinct by id, and a job waits exactly when its record says so. */
  ghost predicate Agrees(pending: multiset<Ticket>, jobs: Jobs) {
    && (forall t | t in pending :: pending[t] == 1)
    && (forall t | t in pending :: t.id in jobs && jobs[t.id].ticket == t)
    && (forall id | id in jobs :: jobs[id].ticket.id == id)
    && (forall id | id in jobs :: jobs[id].status.Queued? <==> jobs[id].ticket in pending)
  }

  /** The counters count the records: every accepted job is still on record, under exactly one status. */
  ghost predicate Balanced(jobs: Jobs, stats: Stats) {
    && stats.enqueued == |jobs|
    && stats.dequeued == Tally(jobs, Processing) + Tally(jobs, Completed) + Tally(jobs, Failed)
    && stats.expired == Tally(jobs, Expired)
    && stats.dropped >= Tally(jobs, Dropped)
  }

  ghost predicate Sound(q: Queue, maxSize: int) {
    Agrees(q.pending, q.jobs) && Balanced(q.jobs, q.stats) && (|q.pending| <= maxSize || |q.pending| == 0)
  }

  lemma ToggledCard(before: set<string>, after: set<string>, id: string)
    requires after - {id} == before - {id}
    ensures |after| == |before| + (if id in after then 1 else 0) - (if id in before then 1 else 0)
  {
    assert |after - {id}| == |after| - (if id in after then 1 else 0);
    assert |before - {id}| == |before| - (if id in before then 1 else 0);
  }

  lemma DisjointCard(a: set<string>, b: set<string>)
    requires a !! b
    ensures |a + b| == |a| + |b|
  {
  }

  lemma TallyUpdate(jobs: Jobs, id: string, job: Job, s: Status)
    ensures Tally(jobs[id := job], s) == Tally(jobs, s) + (if job.status == s then 1 else 0)
                                                        - (if id in jobs && jobs[id].status == s then 1 else 0)
  {
    var before, after := Having(jobs, s), Having(jobs[id := job], s);
    assert after - {id} == before - {id};
    assert (id in after <==> job.status == s) && (id in before <==> id in jobs && jobs[id].status == s);
    hide Having;
    ToggledCard(before, after, id);
  }

  ghost function Ids(m: multiset<Ticket>): set<string> { set t | t in m :: t.id }

  ghost predicate OneEach(m: multiset<Ticket>) {
    && (forall t | t in m :: m[t] == 1)
    && (forall t, u | t in m && u in m && t.id == u.id :: t == u)
  }

  lemma WithoutOne(m: multiset<Ticket>, t: Ticket)
    requires OneEach(m) && t in m
    ensures OneEach(m - multiset{t})
    ensures Ids(m) == Ids(m - multiset{t}) + {t.id} && t.id !in Ids(m - multiset{t})
    ensures |m| == |m - multiset{t}| + 1
  {
    var rest := m - multiset{t};
    forall id | id in Ids(m) ensures id in Ids(rest) + {t.id} {
      var u :| u in m && u.id == id;
      if u != t { assert u in rest; }
    }
  }

  lemma {:induction false} TicketsAreIds(m: multiset<Ticket>)
    requires OneEach(m)
    ensures |m| == |Ids(m)|
    decreases |m|
  {
    if m == multiset{} {
      assert Ids(m) == {};
      return;
    }
    hide OneEach, Ids;
    var t :| t in m;
    WithoutOne(m, t);
    TicketsAreIds(m - multiset{t});
  }

  lemma PendingIsQueued(q: Queue)
    requires Agrees(q.pending, q.jobs)
    ensures |q.pending| == Tally(q.jobs, Queued)
  {
    assert OneEach(q.pending);
    TicketsAreIds(q.pending);
    assert Ids(q.pending) == Having(q.jobs, Queued) by {
      forall id | id in Having(q.jobs, Queued) ensures id in Ids(q.pending) {
        assert q.jobs[id].ticket in q.pending;
      }
    }
  }

  function Rank(s: Status): nat {
    match s
    case Queued => 0
    case Processing => 1
    case Completed => 2
    case Failed => 3
    case Expired => 4
    case Dropped => 5
  }

  ghost function RankedBelow(jobs: Jobs, k: nat): set<string> {
    set id | id in jobs && Rank(jobs[id].status) < k
  }

  lemma RankStep(jobs: Jobs, s: Status)
    ensures |RankedBelow(jobs, Rank(s) + 1)| == |RankedBelow(jobs, Rank(s))| + Tally(jobs, s)
  {
    assert RankedBelow(jobs, Rank(s) + 1) == RankedBelow(jobs, Rank(s)) + Having(jobs, s);
    DisjointCard(RankedBelow(jobs, Rank(s)), Having(jobs, s));
  }

  lemma StatusesPartition(jobs: Jobs)
    ensures |jobs| == Tally(jobs, Queued) + Tally(jobs, Processing) + Tally(jobs, Completed)
                    + Tally(jobs, Failed) + Tally(jobs, Expired) + Tally(jobs, Dropped)
  {
    assert RankedBelow(jobs, 6) == jobs.Keys && RankedBelow(jobs, 0) == {};
    hide RankedBelow, Tally;
    RankStep(jobs, Queued);
    RankStep(jobs, Processing);
    RankStep(jobs, Completed);
    RankStep(jobs, Failed);
    RankStep(jobs, Expired);
    RankStep(jobs, Dropped);
  }

  /** Conservation: every job ever accepted is waiting, was handed out, expired or was evicted; and the queue
      never holds more than its capacity. */
  lemma Conservation(q: Queue, maxSize: int)
    requires Sound(q, maxSize)
    ensures q.stats.enqueued == q.stats.dequeued + q.stats.expired + Tally(q.jobs, Dropped) + |q.pending|
    ensures |q.pending| <= if maxSize < 0 then 0 else maxSize
  {
    PendingIsQueued(q);
    StatusesPartition(q.jobs);
  }

  // ---- every operation keeps soundness ----

  lemma AcceptAgrees(q: Queue, job: Job)
    requires Agrees(q.pending, q.jobs) && job.ticket.id !in q.jobs && job.status.Queued?
    ensures Agrees(Accept(q, job).pending, Accept(q, job).jobs)
  {
    assert job.ticket !in q.pending;
  }

  lemma AcceptIsSound(q: Queue, maxSize: int, job: Job)
    requires Sound(q, maxSize) && |q.pending| < maxSize
    requires job.ticket.id !in q.jobs && job.status.Queued?
    ensures Sound(Accept(q, job), maxSize)
    ensures Tally(Accept(q, job).jobs, Dropped) == Tally(q.jobs, Dropped)
  {
    hide Agrees, Tally;
    AcceptAgrees(q, job);
    forall s ensures Tally(Accept(q, job).jobs, s) == Tally(q.jobs, s) + (if s == Queued then 1 else 0) {
      TallyUpdate(q.jobs, job.ticket.id, job, s);
    }
  }

  /** Accepting keeps the books exactly when the id is new: a colliding id would replace a record that is still
      counted. */
  lemma AcceptIsSoundIff(q: Queue, maxSize: int, job: Job)
    requires Sound(q, maxSize) && |q.pending| < maxSize && job.status.Queued?
    ensures Sound(Accept(q, job), maxSize) <==> job.ticket.id !in q.jobs
  {
    hide Agrees, Tally;
    if job.ticket.id !in q.jobs {
      AcceptIsSound(q, maxSize, job);
    } else {
      assert Accept(q, job).jobs.Keys == q.jobs.Keys;
      assert |Accept(q, job).jobs| == |Accept(q, job).jobs.Keys| && |q.jobs| == |q.jobs.Keys|;
    }
  }

  lemma StatusTallies(jobs: Jobs, id: string, status: Status)
    requires id in jobs
    ensures |SetStatus(jobs, id, status)| == |jobs|
    ensures forall s :: Tally(SetStatus(jobs, id, status), s)
                     == Tally(jobs, s) + (if s == status then 1 else 0) - (if s == jobs[id].status then 1 else 0)
  {
    hide Tally;
    var jobs' := SetStatus(jobs, id, status);
    assert jobs'.Keys == jobs.Keys;
    forall s
      ensures Tally(jobs', s)
           == Tally(jobs, s) + (if s == status then 1 else 0) - (if s == jobs[id].status then 1 else 0)
    {
      TallyUpdate(jobs, id, jobs'[id], s);
    }
  }

  lemma LeaveAgrees(q: Queue, t: Ticket, status: Status)
    requires Agrees(q.pending, q.jobs) && t in q.pending && !status.Queued?
    ensures Agrees(q.pending - multiset{t}, SetStatus(q.jobs, t.id, status))
    ensures |q.pending - multiset{t}| == |q.pending| - 1
    ensures t.id in q.jobs && q.jobs[t.id].status.Queued?
  {
  }

  lemma RefuseIsSound(q: Queue, maxSize: int)
    requires Sound(q, maxSize)
    ensures Sound(Refuse(q), maxSize)
  {
  }

  lemma EvictIsSound(q: Queue, maxSize: int, victim: Ticket)
    requires Sound(q, maxSize) && victim in q.pending
    ensures Sound(Evict(q, victim), maxSize)
    ensures Tally(Evict(q, victim).jobs, Dropped) == Tally(q.jobs, Dropped) + 1
    ensures |Evict(q, victim).pending| == |q.pending| - 1
  {
    hide Agrees, Tally;
    LeaveAgrees(q, victim, Dropped);
    EvictBalances(q.jobs, q.stats, victim.id);
  }

  lemma EvictBalances(jobs: Jobs, stats: Stats, id: string)
    requires Balanced(jobs, stats) && id in jobs && jobs[id].status.Queued?
    ensures Balanced(SetStatus(jobs, id, Dropped), stats.(dropped := stats.dropped + 1))
    ensures Tally(SetStatus(jobs, id, Dropped), Dropped) == Tally(jobs, Dropped) + 1
  {
    hide Tally;
    StatusTallies(jobs, id, Dropped);
  }

  lemma HandOutIsSound(q: Queue, maxSize: int, t: Ticket)
    requires Sound(q, maxSize) && t in q.pending
    ensures Sound(HandOut(q, t), maxSize)
    ensures Tally(HandOut(q, t).jobs, Dropped) == Tally(q.jobs, Dropped)
  {
    hide Agrees, Tally;
    LeaveAgrees(q, t, Processing);
    HandOutBalances(q.jobs, q.stats, t.id);
  }

  lemma HandOutBalances(jobs: Jobs, stats: Stats, id: string)
    requires Balanced(jobs, stats) && id in jobs && jobs[id].status.Queued?
    ensures Balanced(SetStatus(jobs, id, Processing), stats.(dequeued := stats.dequeued + 1))
    ensures Tally(SetStatus(jobs, id, Processing), Dropped) == Tally(jobs, Dropped)
  {
    hide Tally;
    StatusTallies(jobs, id, Processing);
  }

  /** `complete` and `fail` check nothing. They keep the books exactly for jobs that were handed out. */
  lemma FinishIsSoundIff(q: Queue, maxSize: int, id: string, status: Status)
    requires Sound(q, maxSize) && id in q.jobs && (status.Completed? || status.Failed?)
    ensures Sound(Finish(q, id, status), maxSize) <==>
            var was := q.jobs[id].status; was.Processing? || was.Completed? || was.Failed?
    ensures q.jobs[id].status.Processing? || q.jobs[id].status.Completed? || q.jobs[id].status.Failed? ==>
            Tally(Finish(q, id, status).jobs, Dropped) == Tally(q.jobs, Dropped)
  {
    FinishAgreesIff(q, id, status);
    hide Agrees, Tally;
    StatusTallies(q.jobs, id, status);
  }

  lemma FinishAgreesIff(q: Queue, id: string, status: Status)
    requires Agrees(q.pending, q.jobs) && id in q.jobs && !status.Queued?
    ensures Agrees(q.pending, Finish(q, id, status).jobs) <==> !q.jobs[id].status.Queued?
  {
    var q' := Finish(q, id, status);
    if q.jobs[id].status.Queued? { assert q'.jobs[id].ticket in q'.pending; }
  }

  lemma LateAreQueued(q: Queue, cutoff: real)
    requires Agrees(q.pending, q.jobs)
    ensures Late(q, cutoff) <= Having(q.jobs, Queued)
  {
    forall id | id in Late(q, cutoff) ensures id in q.jobs && q.jobs[id].status.Queued? {
      var t :| t in q.pending && t.createdAt < cutoff && t.id == id;
    }
  }

  lemma PurgeTallies(jobs: Jobs, late: set<string>)
    requires late <= Having(jobs, Queued)
    ensures |MarkExpired(jobs, late)| == |jobs|
    ensures Tally(MarkExpired(jobs, late), Expired) == Tally(jobs, Expired) + |late|
    ensures forall s: Status | !s.Queued? && !s.Expired? :: Tally(MarkExpired(jobs, late), s) == Tally(jobs, s)
  {
    var jobs' := MarkExpired(jobs, late);
    assert jobs'.Keys == jobs.Keys;
    forall s: Status | !s.Queued? && !s.Expired? ensures Having(jobs', s) == Having(jobs, s) {}
    assert Having(jobs', Expired) == Having(jobs, Expired) + late && Having(jobs, Expired) !! late;
    DisjointCard(Having(jobs, Expired), late);
  }

  lemma PurgeShrinks(q: Queue, cutoff: real, q': Queue)
    requires Purged(q, cutoff, q')
    ensures |q'.pending| <= |q.pending|
  {
    assert q'.pending <= q.pending;
    assert q.pending == q'.pending + (q.pending - q'.pending);
  }

  lemma PurgeIsSound(q: Queue, maxSize: int, cutoff: real, q': Queue)
    requires Sound(q, maxSize) && Purged(q, cutoff, q')
    ensures Sound(q', maxSize)
    ensures Tally(q'.jobs, Dropped) == Tally(q.jobs, Dropped)
  {
    hide Agrees, Tally, Late, MarkExpired, Having;
    PurgeShrinks(q, cutoff, q');
    LateAreQueued(q, cutoff);
    PurgeTallies(q.jobs, Late(q, cutoff));
    PurgeAgrees(q, cutoff, q');
  }

  lemma PurgeAgrees(q: Queue, cutoff: real, q': Queue)
    requires Agrees(q.pending, q.jobs) && Purged(q, cutoff, q')
    ensures Agrees(q'.pending, q'.jobs)
  {
    forall id | id in q'.jobs ensures q'.jobs[id].status.Queued? <==> q'.jobs[id].ticket in q'.pending {
      var t := q.jobs[id].ticket;
      if t in q.pending && t.createdAt < cutoff { assert id in Late(q, cutoff); }
      if id in Late(q, cutoff) {
        var u :| u in q.pending && u.createdAt < cutoff && u.id == id;
        assert u == t;
      }
    }
  }

  // ---- runs ----

  /** An operation with the choices that were made in it. */
  datatype Op =
    | AcceptJob(job: Job)
    | AcceptEvicting(job: Job, victim: Ticket)
    | RefuseJob(priority: Priority)
    | Dequeue(ticket: Ticket)
    | FinishJob(id: string, status: Status)
    | PurgeBefore(cutoff: real)

  /** The effect of an operation, for any ids. */
  ghost predicate Effect(q: Queue, maxSize: int, op: Op, q': Queue) {
    match op
    case AcceptJob(job) => |q.pending| < maxSize && job.status.Queued? && q' == Accept(q, job)
    case AcceptEvicting(job, victim) =>
      && |q.pending| >= maxSize && job.ticket.priority < LOW && IsLast(q.pending, victim)
      && job.status.Queued? && victim.id in q.jobs && |q.pending| - 1 < maxSize && q' == Accept(Evict(q, victim), job)
    case RefuseJob(priority) =>
      |q.pending| >= maxSize && (priority >= LOW || |q.pending| == 0) && q' == Refuse(q)
    case Dequeue(t) => IsFirst(q.pending, t) && t.id in q.jobs && q' == HandOut(q, t)
    case FinishJob(id, status) => (status.Completed? || status.Failed?) && q' == Finish(q, id, status)
    case PurgeBefore(cutoff) => Purged(q, cutoff, q')
  }

  /** New jobs have new ids, and only a job that was handed out is finished. */
  ghost predicate Proper(q: Queue, op: Op) {
    match op
    case AcceptJob(job) => job.ticket.id !in q.jobs
    case AcceptEvicting(job, _) => job.ticket.id !in q.jobs
    case FinishJob(id, _) =>
      id in q.jobs ==> q.jobs[id].status.Processing? || q.jobs[id].status.Completed? || q.jobs[id].status.Failed?
    case _ => true
  }

  ghost predicate Next(q: Queue, maxSize: int, op: Op, q': Queue) {
    Effect(q, maxSize, op, q') && Proper(q, op)
  }

  lemma NextIsSound(q: Queue, maxSize: int, op: Op, q': Queue)
    requires Sound(q, maxSize) && Next(q, maxSize, op, q')
    ensures Sound(q', maxSize)
    ensures q'.stats.dropped - Tally(q'.jobs, Dropped)
         == q.stats.dropped - Tally(q.jobs, Dropped) + (if op.RefuseJob? then 1 else 0)
  {
    match op
    case AcceptJob(job) => AcceptIsSound(q, maxSize, job);
    case AcceptEvicting(job, victim) =>
      EvictIsSound(q, maxSize, victim);
      AcceptIsSound(Evict(q, victim), maxSize, job);
    case RefuseJob(_) =>
    case Dequeue(t) => HandOutIsSound(q, maxSize, t);
    case FinishJob(id, status) => if id in q.jobs { FinishIsSoundIff(q, maxSize, id, status); }
    case PurgeBefore(cutoff) => PurgeIsSound(q, maxSize, cutoff, q');
  }

  ghost predicate Run(qs: seq<Queue>, maxSize: int, ops: seq<Op>) {
    && |qs| == |ops| + 1
    && forall k | 0 <= k < |ops| :: Next(qs[k], maxSize, ops[k], qs[k + 1])
  }

  function Refusals(ops: seq<Op>): nat {
    if ops == [] then 0 else Refusals(ops[..|ops| - 1]) + if ops[|ops| - 1].RefuseJob? then 1 else 0
  }

  lemma RefusalsSnoc(ops: seq<Op>, op: Op)
    ensures Refusals(ops + [op]) == Refusals(ops) + if op.RefuseJob? then 1 else 0
  {
    assert (ops + [op])[..|ops|] == ops;
  }

  lemma EmptyIsSound(maxSize: int)
    ensures Sound(EMPTY, maxSize) && Tally(EMPTY.jobs, Dropped) == 0 && Refusals([]) == 0
  {
    assert forall s :: Having(EMPTY.jobs, s) == {};
  }

  /** In every run from the empty queue, at every moment: a job waits exactly when its record says "queued", the queue
      is within bounds, enqueued = dequeued + expired + evicted + waiting, and dropped = evicted + refused. */
  lemma {:induction false} RunsConserve(qs: seq<Queue>, maxSize: int, ops: seq<Op>, k: nat)
    requires Run(qs, maxSize, ops) && qs[0] == EMPTY && k <= |ops|
    ensures Sound(qs[k], maxSize)
    ensures qs[k].stats.enqueued
         == qs[k].stats.dequeued + qs[k].stats.expired + Tally(qs[k].jobs, Dropped) + |qs[k].pending|
    ensures qs[k].stats.dropped == Tally(qs[k].jobs, Dropped) + Refusals(ops[..k])
    decreases k
  {
    hide Next, Sound, Tally, Refusals;
    if k == 0 {
      EmptyIsSound(maxSize);
    } else {
      RunsConserve(qs, maxSize, ops, k - 1);
      NextIsSound(qs[k - 1], maxSize, ops[k - 1], qs[k]);
      RefusalsSnoc(ops[..k - 1], ops[k - 1]);
      assert ops[..k] == ops[..k - 1] + [ops[k - 1]];
    }
    Conservation(qs[k], maxSize);
  }

  // ---- draining ----

  /** `ts` comes out of `m` by taking a first choice again and again. */
  ghost predicate Drains(m: multiset<Ticket>, ts: seq<Ticket>)
    decreases |ts|
  {
    ts != [] ==> IsFirst(m, ts[0]) && Drains(m - multiset{ts[0]}, ts[1..])
  }

  lemma {:induction false} DrainedComeFrom(m: multiset<Ticket>, ts: seq<Ticket>)
    requires Drains(m, ts)
    ensures multiset(ts) <= m
    decreases |ts|
  {
    if ts != [] {
      DrainedComeFrom(m - multiset{ts[0]}, ts[1..]);
      assert ts == [ts[0]] + ts[1..];
    }
  }

  /** Draining yields a sorted sequence. */
  lemma {:induction false} DrainIsSorted(m: multiset<Ticket>, ts: seq<Ticket>)
    requires Drains(m, ts)
    ensures SortedBy(ts, Le)
    decreases |ts|
  {
    if ts != [] {
      var rest := m - multiset{ts[0]};
      DrainIsSorted(rest, ts[1..]);
      DrainedComeFrom(rest, ts[1..]);
      forall j | 0 < j < |ts| ensures Le(ts[0], ts[j]) {
        assert ts[j] == ts[1..][j - 1] && ts[1..][j - 1] in multiset(ts[1..]);
      }
    }
  }

  /** ... first come, first served within a priority, when no two stamps are equal. */
  lemma DrainIsFifo(m: multiset<Ticket>, ts: seq<Ticket>, i: nat, j: nat)
    requires Drains(m, ts) && i < j < |ts| && ts[i].priority == ts[j].priority && ts[i].createdAt != ts[j].createdAt
    ensures ts[i].createdAt < ts[j].createdAt
  {
    DrainIsSorted(m, ts);
  }

  function TicketOf(op: Op): Ticket
    requires op.Dequeue?
  {
    op.ticket
  }

  function TicketsOf(ops: seq<Op>): (ts: seq<Ticket>)
    requires forall op | op in ops :: op.Dequeue?
    ensures |ts| == |ops| && forall k | 0 <= k < |ops| :: ts[k] == ops[k].ticket
  {
    seq(|ops|, k requires 0 <= k < |ops| => assert ops[k] in ops; TicketOf(ops[k]))
  }

  lemma RestIsRun(qs: seq<Queue>, maxSize: int, ops: seq<Op>)
    requires Run(qs, maxSize, ops) && ops != []
    ensures Run(qs[1..], maxSize, ops[1..]) && Next(qs[0], maxSize, ops[0], qs[1])
  {
    hide Next;
    forall k | 0 <= k < |ops| - 1 ensures Next(qs[1..][k], maxSize, ops[1..][k], qs[1..][k + 1]) {
      assert Next(qs[k + 1], maxSize, ops[k + 1], qs[k + 2]);
    }
  }

  lemma DequeueTurn(q: Queue, maxSize: int, op: Op, q': Queue)
    requires Next(q, maxSize, op, q') && op.Dequeue?
    ensures IsFirst(q.pending, op.ticket) && q'.pending == q.pending - multiset{op.ticket}
  {
  }

  lemma TicketsOfRest(ops: seq<Op>)
    requires ops != [] && forall op | op in ops :: op.Dequeue?
    ensures ops[0] in ops && forall op | op in ops[1..] :: op.Dequeue?
    ensures TicketsOf(ops)[0] == ops[0].ticket && TicketsOf(ops)[1..] == TicketsOf(ops[1..])
  {
  }

  /** A run of dequeues drains the waiting jobs. */
  lemma {:induction false} DequeuesDrain(qs: seq<Queue>, maxSize: int, ops: seq<Op>)
    requires Run(qs, maxSize, ops) && forall op | op in ops :: op.Dequeue?
    ensures Drains(qs[0].pending, TicketsOf(ops))
    decreases |ops|
  {
    hide IsFirst, Next, TicketsOf;
    if ops != [] {
      TicketsOfRest(ops);
      RestIsRun(qs, maxSize, ops);
      DequeueTurn(qs[0], maxSize, ops[0], qs[1]);
      DequeuesDrain(qs[1..], maxSize, ops[1..]);
    }
  }

  /** What the workers get, one dequeue after another, is sorted by (priority, created_at), first come first served
      within a priority. */
  lemma DequeuesAreSorted(qs: seq<Queue>, maxSize: int, ops: seq<Op>)
    requires Run(qs, maxSize, ops) && forall op | op in ops :: op.Dequeue?
    ensures SortedBy(TicketsOf(ops), Le) && multiset(TicketsOf(ops)) <= qs[0].pending
    ensures forall i, j | 0 <= i < j < |ops| && ops[i].ticket.priority == ops[j].ticket.priority ::
              ops[i].ticket.createdAt <= ops[j].ticket.createdAt
  {
    hide Next, Drains;
    DequeuesDrain(qs, maxSize, ops);
    DrainIsSorted(qs[0].pending, TicketsOf(ops));
    DrainedComeFrom(qs[0].pending, TicketsOf(ops));
    forall i, j | 0 <= i < j < |ops| && ops[i].ticket.priority == ops[j].ticket.priority
      ensures ops[i].ticket.createdAt <= ops[j].ticket.createdAt
    {
      assert Le(TicketsOf(ops)[i], TicketsOf(ops)[j]);
    }
  }

  lemma WithoutFirst(s: seq<Ticket>)
    requires s != []
    ensures multiset(s[1..]) == multiset(s) - multiset{s[0]}
  {
    assert s == [s[0]] + s[1..];
  }

  /** No two of these tickets tie. */
  ghost predicate KeysDiffer(m: multiset<Ticket>) {
    forall a, b | a in m && b in m && Le(a, b) && Le(b, a) :: a == b
  }

  lemma SortedTail(s: seq<Ticket>)
    requires s != [] && SortedBy(s, Le) && KeysDiffer(multiset(s))
    ensures SortedBy(s[1..], Le) && KeysDiffer(multiset(s[1..]))
    ensures multiset(s[1..]) == multiset(s) - multiset{s[0]}
  {
    WithoutFirst(s);
  }

  lemma FirstsTie(s: seq<Ticket>, t: seq<Ticket>)
    requires s != [] && t != [] && SortedBy(s, Le) && SortedBy(t, Le)
    requires multiset(s) == multiset(t) && KeysDiffer(multiset(s))
    ensures s[0] == t[0]
  {
    assert t[0] in multiset(t) && s[0] in multiset(s);
    assert t[0] in s && s[0] in t;
  }

  lemma SameSizes(s: seq<Ticket>, t: seq<Ticket>)
    requires multiset(s) == multiset(t)
    ensures |s| == |t|
  {
    assert |s| == |multiset(s)| && |t| == |multiset(t)|;
  }

  lemma {:induction false} SortedSame(s: seq<Ticket>, t: seq<Ticket>)
    requires SortedBy(s, Le) && SortedBy(t, Le) && multiset(s) == multiset(t) && KeysDiffer(multiset(s))
    ensures s == t
    decreases |s|
  {
    hide *;
    SameSizes(s, t);
    if s != [] {
      FirstsTie(s, t);
      SortedTail(s);
      SortedTail(t);
      SortedSame(s[1..], t[1..]);
      assert s == [s[0]] + s[1..] && t == [t[0]] + t[1..];
    }
  }

  lemma LeIsTotalPreorder()
    ensures TotalPreorder(Le)
  {
  }

  lemma DifferentKeys(listed: seq<Ticket>)
    requires forall a, b | a in listed && b in listed && a.priority == b.priority && a.createdAt == b.createdAt ::
               a == b
    ensures KeysDiffer(multiset(listed))
  {
    assert forall a | a in multiset(listed) :: a in listed;
  }

  /** `list_pending` foretells the drain: with distinct (priority, created_at) keys, sorting the waiting jobs gives
      exactly the order in which a full drain hands them out. */
  lemma ListingIsDrainOrder(listed: seq<Ticket>, ts: seq<Ticket>)
    requires Drains(multiset(listed), ts) && |ts| == |listed|
    requires forall a, b | a in listed && b in listed && a.priority == b.priority && a.createdAt == b.createdAt ::
               a == b
    ensures StableSort(listed, Le) == ts
  {
    DifferentKeys(listed);
    DrainIsSorted(multiset(listed), ts);
    DrainedComeFrom(multiset(listed), ts);
    assert |multiset(ts)| == |ts| && |multiset(listed)| == |listed|;
    assert multiset(listed) == multiset(ts) + (multiset(listed) - multiset(ts));
    assert multiset(ts) == multiset(listed);
    SortElements(listed, Le);
    LeIsTotalPreorder();
    SortSorted(listed, Le);
    SortedSame(StableSort(listed, Le), ts);
  }
}
