/** `JobQueue`: the heap list, the job records and the counters, changed in place. */
module JobQueues {
  import opened Collections
  import opened BinaryHeap
  import opened JobQueueModel
  import opened Sorting

  class JobQueue {
    const maxSize: int
    var heap: Heap
    var jobs: Jobs
    var stats: Stats
    var results: map<string, string>

    ghost function State(): Queue
      reads this
    {
      Queue(Contents(heap), jobs, stats)
    }

    ghost predicate Valid()
      reads this
    {
      IsHeap(heap) && Sound(State(), maxSize)
    }

    constructor (maxSize: int)
      ensures Valid() && State() == EMPTY && this.maxSize == maxSize
    {
      this.maxSize := maxSize;
      heap, jobs, results := [], map[], map[];
      stats := Stats(0, 0, 0, 0, 0);
      EmptyIsSound(maxSize);
    }

    /** `jobId` is the random id and `now` the clock reading of this call. The books survive unless the id collides. */
    method Enqueue(command: seq<string>, actor: string, priority: Priority, metadata: map<string, string>,
                   jobId: string, now: real)
      returns (accepted: Option<Job>, ghost op: Op)
      requires Valid()
      modifies this
      ensures IsHeap(heap) && Effect(old(State()), maxSize, op, State())
      ensures Valid() <==> accepted.None? || jobId !in old(jobs)
      ensures jobId !in old(jobs) ==> Next(old(State()), maxSize, op, State())
      ensures accepted.None? <==> |old(heap)| >= maxSize && (priority == 3 || old(heap) == [])
      ensures accepted.None? ==> heap == old(heap) && jobs == old(jobs)
                                 && stats == old(stats).(dropped := old(stats).dropped + 1)
      ensures accepted.Some? ==> jobId in jobs && jobs[jobId] == accepted.value
                                 && stats.enqueued == old(stats).enqueued + 1
      ensures accepted.Some? && |old(heap)| < maxSize ==>
                && jobs == old(jobs)[jobId := accepted.value]
                && stats == old(stats).(enqueued := old(stats).enqueued + 1)
                && multiset(heap) == multiset(old(heap)) + multiset{accepted.value.ticket}
      ensures results == old(results)
      ensures match accepted
              case None => op == RefuseJob(priority)
              case Some(job) => && job == Job(Ticket(jobId, priority, now), command, actor, metadata, Queued)
                                && (op == AcceptJob(job) || (op.AcceptEvicting? && op.job == job))
    {
      hide Sound, IsHeap, HeapFrom, Agrees, Balanced, Tally, Having, IsFirst, IsLast, Le, Lt, Parent, Contents, Evict,
           Accept;
      WithinBounds(State(), maxSize, heap);
      ghost var victim: Option<Ticket> := None;
      if |heap| >= maxSize {
        if priority >= LOW {
          RefuseIsSound(State(), maxSize);
          stats := stats.(dropped := stats.dropped + 1);
          return None, RefuseJob(priority);
        }
        RefuseIsSound(State(), maxSize);
        victim := EvictLowest();
        WithinBounds(State(), maxSize, heap);
        if |heap| >= maxSize {
          stats := stats.(dropped := stats.dropped + 1);
          return None, RefuseJob(priority);
        }
      }
      var job := Job(Ticket(jobId, priority, now), command, actor, metadata, Queued);
      Store(job);
      accepted := Some(job);
      op := if victim.Some? then AcceptEvicting(job, victim.value) else AcceptJob(job);
    }

    /** The accepting half: push, record and count. */
    method Store(job: Job)
      requires Valid() && |Contents(heap)| < maxSize && job.status.Queued?
      modifies `heap, `jobs, `stats
      ensures IsHeap(heap) && State() == Accept(old(State()), job)
      ensures Valid() <==> job.ticket.id !in old(jobs)
      ensures jobs == old(jobs)[job.ticket.id := job]
      ensures stats == old(stats).(enqueued := old(stats).enqueued + 1)
      ensures multiset(heap) == multiset(old(heap)) + multiset{job.ticket}
    {
      hide Sound, IsHeap, HeapFrom, Agrees, Balanced, Tally, Having, IsFirst, IsLast, Le, Lt, Parent, Contents;
      AcceptIsSoundIff(State(), maxSize, job);
      heap := HeapPush(heap, job.ticket);
      jobs := jobs[job.ticket.id := job];
      stats := stats.(enqueued := stats.enqueued + 1);
      ContentsIs(old(heap));
      ContentsIs(heap);
    }

    /** The eviction scan: highest priority number, then newest; the first such job in the list. */
    method WorstIndex() returns (worstIdx: int)
      requires heap != []
      ensures 0 <= worstIdx < |heap|
      ensures forall k | 0 <= k < |heap| :: Le(heap[k], heap[worstIdx])
      ensures forall k | 0 <= k < worstIdx :: Lt(heap[k], heap[worstIdx])
    {
      worstIdx := -1;
      var worstPriority: int, worstTime: real := -1, -1.0;
      for i := 0 to |heap|
        invariant -1 <= worstIdx < i
        invariant worstIdx == -1 <==> i == 0
        invariant worstIdx == -1 ==> worstPriority == -1
        invariant worstIdx >= 0 ==> worstPriority == heap[worstIdx].priority && worstTime == heap[worstIdx].createdAt
        invariant worstIdx >= 0 ==> forall k | 0 <= k < i :: Le(heap[k], heap[worstIdx])
        invariant forall k | 0 <= k < worstIdx :: Lt(heap[k], heap[worstIdx])
      {
        var job := heap[i];
        if job.priority > worstPriority || (job.priority == worstPriority && job.createdAt > worstTime) {
          worstIdx := i;
          worstPriority := job.priority;
          worstTime := job.createdAt;
        }
      }
    }

    /** Drop the last choice. */
    method EvictLowest() returns (ghost victim: Option<Ticket>)
      requires Valid()
      modifies `heap, `jobs, `stats
      ensures Valid()
      ensures victim.None? ==> heap == [] && State() == old(State())
      ensures victim.Some? ==> LastDropped(old(State()), State(), victim.value) && |heap| == |old(heap)| - 1
                               && jobs.Keys == old(jobs).Keys
      ensures victim.None? ==> heap == old(heap) && jobs == old(jobs) && stats == old(stats)
      ensures victim.Some? ==>
                && (forall u | u in old(heap) :: u.priority < victim.value.priority
                      || (u.priority == victim.value.priority && u.createdAt <= victim.value.createdAt))
                && victim.value.id in old(jobs)
                && jobs == old(jobs)[victim.value.id := old(jobs)[victim.value.id].(status := Dropped)]
                && stats == old(stats).(dropped := old(stats).dropped + 1)
                && multiset(heap) == multiset(old(heap)) - multiset{victim.value}
    {
      hide Sound, IsHeap, HeapFrom, Agrees, Balanced, Tally, Having, IsFirst, IsLast, Le, Lt, Parent, Contents;
      if heap == [] { return None; }
      ghost var before := State();
      var worstIdx := WorstIndex();
      var evicted := heap[worstIdx];
      LastOf(State(), maxSize, heap, worstIdx);
      EvictIsSound(State(), maxSize, evicted);
      RemoveAt(heap, worstIdx);
      var rest := heap[..worstIdx] + heap[worstIdx + 1..];
      jobs := SetStatus(jobs, evicted.id, Dropped);
      stats := stats.(dropped := stats.dropped + 1);
      heap := Heapify(rest);
      assert State() == Evict(before, evicted);
      FirstOrLast(before.pending, old(heap), evicted);
      ContentsIs(old(heap));
      ContentsIs(heap);
      victim := Some(evicted);
    }

    /** One attempt: `None` stands for an expired wait. */
    method Dequeue() returns (job: Option<Job>)
      requires Valid()
      modifies `heap, `jobs, `stats
      ensures Valid()
      ensures job.None? <==> old(heap) == []
      ensures job.None? ==> State() == old(State())
      ensures job.Some? ==> HandedOut(old(State()), State(), job.value)
                            && Next(old(State()), maxSize, JobQueueModel.Dequeue(job.value.ticket), State())
      ensures job.Some? ==>
                var t := job.value.ticket;
                && (forall u | u in old(heap) ::
                      t.priority < u.priority || (t.priority == u.priority && t.createdAt <= u.createdAt))
                && t.id in old(jobs) && job.value == old(jobs)[t.id].(status := Processing)
                && jobs == old(jobs)[t.id := job.value]
                && stats == old(stats).(dequeued := old(stats).dequeued + 1)
                && multiset(heap) == multiset(old(heap)) - multiset{t}
    {
      hide Sound, IsHeap, HeapFrom, Agrees, Balanced, Tally, Having, IsFirst, IsLast, Le, Lt, Parent, Contents;
      if heap == [] { return None; }
      ghost var before := State();
      var t, rest := HeapPop(heap);
      TakenFrom(before, maxSize, t);
      HandOutIsSound(before, maxSize, t);
      heap := rest;
      jobs := SetStatus(jobs, t.id, Processing);
      stats := stats.(dequeued := stats.dequeued + 1);
      assert State() == HandOut(before, t);
      FirstOrLast(before.pending, old(heap), t);
      ContentsIs(old(heap));
      ContentsIs(heap);
      job := Some(jobs[t.id]);
    }

    method Complete(jobId: string, result: Option<string>)
      requires Valid()
      modifies `jobs, `stats, `results
      ensures State() == Finish(old(State()), jobId, Completed)
      ensures Valid() ==> Next(old(State()), maxSize, FinishJob(jobId, Completed), State())
      ensures jobId in old(jobs) ==>
                && jobs == old(jobs)[jobId := old(jobs)[jobId].(status := Completed)]
                && stats == old(stats).(completed := old(stats).completed + 1)
      ensures jobId !in old(jobs) ==> jobs == old(jobs) && stats == old(stats)
      ensures results ==
              if jobId in old(jobs) && result.Some? then old(results)[jobId := result.value] else old(results)
      ensures Valid() <==> (jobId in old(jobs) ==>
                var was := old(jobs)[jobId].status; was.Processing? || was.Completed? || was.Failed?)
    {
      hide Sound, IsHeap, HeapFrom, Agrees, Balanced, Tally, Having, IsFirst, IsLast, Le, Lt, Parent, Contents;
      if jobId in jobs {
        FinishIsSoundIff(State(), maxSize, jobId, Completed);
        jobs := SetStatus(jobs, jobId, Completed);
        if result.Some? {
          results := results[jobId := result.value];
        }
        stats := stats.(completed := stats.completed + 1);
      }
    }

    method Fail(jobId: string)
      requires Valid()
      modifies `jobs, `stats
      ensures State() == Finish(old(State()), jobId, Failed)
      ensures Valid() ==> Next(old(State()), maxSize, FinishJob(jobId, Failed), State())
      ensures jobId in old(jobs) ==>
                && jobs == old(jobs)[jobId := old(jobs)[jobId].(status := Failed)]
                && stats == old(stats).(completed := old(stats).completed + 1)
      ensures jobId !in old(jobs) ==> jobs == old(jobs) && stats == old(stats)
      ensures Valid() <==> (jobId in old(jobs) ==>
                var was := old(jobs)[jobId].status; was.Processing? || was.Completed? || was.Failed?)
    {
      hide Sound, IsHeap, HeapFrom, Agrees, Balanced, Tally, Having, IsFirst, IsLast, Le, Lt, Parent, Contents;
      if jobId in jobs {
        FinishIsSoundIff(State(), maxSize, jobId, Failed);
        jobs := SetStatus(jobs, jobId, Failed);
        stats := stats.(completed := stats.completed + 1);
      }
    }

    method PurgeExpired(maxAge: real, now: real) returns (count: nat)
      requires Valid()
      modifies `heap, `jobs, `stats
      ensures Valid()
      ensures Purged(old(State()), now - maxAge, State())
      ensures Next(old(State()), maxSize, PurgeBefore(now - maxAge), State())
      ensures count == |Late(old(State()), now - maxAge)|
      ensures jobs.Keys == old(jobs).Keys && forall id | id in jobs ::
                var was := old(jobs)[id];
                jobs[id] == if was.status.Queued? && was.ticket.createdAt < now - maxAge
                            then was.(status := Expired) else was
      ensures forall t :: t in heap <==> t in old(heap) && t.createdAt >= now - maxAge
      ensures stats == old(stats).(expired := old(stats).expired + count)
    {
      hide Sound, IsHeap, HeapFrom, Agrees, Balanced, Tally, Having, IsFirst, IsLast, Le, Lt, Parent, Contents, Late,
           Purged, Filter, IdsOf, MarkExpired, Waiting, Outside;
      var cutoff := now - maxAge;
      ghost var before := State();
      var waiting := jobs;
      var late := Filter(heap, Waiting(waiting, cutoff));
      LateTickets(before, maxSize, heap, cutoff, late);
      var gone := ExpireAll(late);
      var rest := Filter(heap, Outside(gone));
      RestAfterPurge(before, maxSize, heap, cutoff, rest, gone);
      heap := Heapify(rest);
      PurgeIs(before, maxSize, cutoff, old(heap), heap, jobs, stats);
      count := |late|;
    }

    /** Marks the records of the listed tickets. */
    method ExpireAll(late: seq<Ticket>) returns (gone: set<string>)
      requires forall t | t in late :: t.id in jobs
      modifies `jobs, `stats
      ensures gone == IdsOf(late)
      ensures jobs == MarkExpired(old(jobs), gone)
      ensures stats == old(stats).(expired := old(stats).expired + |late|)
    {
      gone := {};
      for k := 0 to |late|
        invariant gone <= jobs.Keys == old(jobs).Keys
        invariant gone == IdsOf(late[..k])
        invariant jobs == MarkExpired(old(jobs), gone)
        invariant stats == old(stats).(expired := old(stats).expired + k)
      {
        assert late[k] in late;
        jobs := SetStatus(jobs, late[k].id, Expired);
        stats := stats.(expired := stats.expired + 1);
        gone := gone + {late[k].id};
      }
      assert late[..|late|] == late;
    }
  }

  function Waiting(jobs: Jobs, cutoff: real): Ticket -> bool {
    (t: Ticket) => t.createdAt < cutoff && t.id in jobs && jobs[t.id].status == Queued
  }

  function Outside(gone: set<string>): Ticket -> bool { (t: Ticket) => t.id !in gone }

  ghost function IdsOf(ts: seq<Ticket>): set<string> { set t | t in ts :: t.id }

  lemma LateTickets(q: Queue, maxSize: int, heap: Heap, cutoff: real, late: seq<Ticket>)
    requires Sound(q, maxSize) && q.pending == Contents(heap)
    requires late == Filter(heap, Waiting(q.jobs, cutoff))
    ensures IdsOf(late) == Late(q, cutoff) && |late| == |Late(q, cutoff)|
    ensures forall t | t in late :: t.id in q.jobs
  {
    forall t ensures multiset(late)[t] == if t.createdAt < cutoff then q.pending[t] else 0 {
      FilterCount(heap, Waiting(q.jobs, cutoff), t);
    }
    LateByCount(q, cutoff, late);
  }

  lemma LateByCount(q: Queue, cutoff: real, late: seq<Ticket>)
    requires Agrees(q.pending, q.jobs)
    requires forall t :: multiset(late)[t] == if t.createdAt < cutoff then q.pending[t] else 0
    ensures IdsOf(late) == Late(q, cutoff) && |late| == |Late(q, cutoff)|
    ensures forall t | t in late :: t.id in q.jobs
  {
    var m := multiset(late);
    forall t ensures t in late <==> t in q.pending && t.createdAt < cutoff { assert t in late <==> t in m; }
    assert OneEach(m);
    assert Ids(m) == IdsOf(late) == Late(q, cutoff);
    hide OneEach, Ids, IdsOf, Late, Agrees;
    TicketsAreIds(m);
  }

  lemma PurgedBy(q: Queue, cutoff: real, q': Queue)
    requires forall t :: q'.pending[t] == if t.createdAt < cutoff then 0 else q.pending[t]
    requires q'.jobs == MarkExpired(q.jobs, Late(q, cutoff))
    requires q'.stats == q.stats.(expired := q.stats.expired + |Late(q, cutoff)|)
    ensures Purged(q, cutoff, q')
  {
  }

  lemma ContentsIs(heap: Heap)
    ensures Contents(heap) == multiset(heap)
  {
  }

  lemma FirstOrLast(m: multiset<Ticket>, heap: Heap, t: Ticket)
    requires m == Contents(heap)
    ensures IsFirst(m, t) ==> forall u | u in heap ::
              t.priority < u.priority || (t.priority == u.priority && t.createdAt <= u.createdAt)
    ensures IsLast(m, t) ==> forall u | u in heap ::
              u.priority < t.priority || (u.priority == t.priority && u.createdAt <= t.createdAt)
  {
    hide IsFirst, IsLast;
    ChoicesIff(m, t);
    assert forall u | u in heap :: u in m;
  }

  lemma PurgeIs(q: Queue, maxSize: int, cutoff: real, before: Heap, after: Heap, jobs: Jobs, stats: Stats)
    requires Sound(q, maxSize) && q.pending == Contents(before)
    requires forall t :: Contents(after)[t] == if t.createdAt < cutoff then 0 else q.pending[t]
    requires jobs == MarkExpired(q.jobs, Late(q, cutoff))
    requires stats == q.stats.(expired := q.stats.expired + |Late(q, cutoff)|)
    ensures var q' := Queue(Contents(after), jobs, stats); Purged(q, cutoff, q') && Sound(q', maxSize)
    ensures jobs.Keys == q.jobs.Keys && forall id | id in jobs ::
              jobs[id] == if q.jobs[id].status.Queued? && q.jobs[id].ticket.createdAt < cutoff
                          then q.jobs[id].(status := Expired) else q.jobs[id]
    ensures forall t :: t in after <==> t in before && t.createdAt >= cutoff
  {
    hide Sound, Contents, Late, Purged, MarkExpired;
    var q' := Queue(Contents(after), jobs, stats);
    PurgedBy(q, cutoff, q');
    PurgeIsSound(q, maxSize, cutoff, q');
    PurgedRecords(q, maxSize, cutoff, q');
    PurgedTickets(q, cutoff, q', before, after);
  }

  lemma PurgedRecords(q: Queue, maxSize: int, cutoff: real, q': Queue)
    requires Sound(q, maxSize) && Purged(q, cutoff, q')
    ensures q'.jobs.Keys == q.jobs.Keys && forall id | id in q.jobs ::
              q'.jobs[id] == if q.jobs[id].status.Queued? && q.jobs[id].ticket.createdAt < cutoff
                             then q.jobs[id].(status := Expired) else q.jobs[id]
  {
    forall id | id in q.jobs
      ensures id in Late(q, cutoff) <==> q.jobs[id].status.Queued? && q.jobs[id].ticket.createdAt < cutoff
    {
      if q.jobs[id].status.Queued? && q.jobs[id].ticket.createdAt < cutoff { assert q.jobs[id].ticket in q.pending; }
    }
  }

  lemma PurgedTickets(q: Queue, cutoff: real, q': Queue, before: Heap, after: Heap)
    requires Purged(q, cutoff, q') && q.pending == Contents(before) && q'.pending == Contents(after)
    ensures forall t :: t in after <==> t in before && t.createdAt >= cutoff
  {
    forall t ensures t in after <==> t in before && t.createdAt >= cutoff {
      assert (t in after <==> t in q'.pending) && (t in before <==> t in q.pending);
    }
  }

  lemma RestAfterPurge(q: Queue, maxSize: int, heap: Heap, cutoff: real, rest: Heap, gone: set<string>)
    requires Sound(q, maxSize) && q.pending == Contents(heap)
    requires gone == Late(q, cutoff) && rest == Filter(heap, Outside(gone))
    ensures forall t :: Contents(rest)[t] == if t.createdAt < cutoff then 0 else q.pending[t]
  {
    forall t ensures multiset(rest)[t] == if t.createdAt < cutoff then 0 else q.pending[t] {
      FilterCount(heap, Outside(gone), t);
      if t in q.pending && t.id in gone {
        var u :| u in q.pending && u.createdAt < cutoff && u.id == t.id;
      }
    }
  }

  lemma WithinBounds(q: Queue, maxSize: int, heap: Heap)
    requires Sound(q, maxSize) && q.pending == Contents(heap)
    ensures |q.pending| == |heap| && (|heap| <= maxSize || |heap| == 0)
  {
  }

  /** `job` was a first choice and is handed out, marked "processing". */
  ghost predicate HandedOut(q: Queue, q': Queue, job: Job) {
    && IsFirst(q.pending, job.ticket)
    && job.ticket.id in q.jobs && job == q.jobs[job.ticket.id].(status := Processing)
    && q' == HandOut(q, job.ticket)
  }

  /** `victim` was a last choice and is evicted. */
  ghost predicate LastDropped(q: Queue, q': Queue, victim: Ticket) {
    && IsLast(q.pending, victim)
    && victim.id in q.jobs
    && q' == Evict(q, victim)
  }

  lemma TakenFrom(q: Queue, maxSize: int, t: Ticket)
    requires Sound(q, maxSize) && IsFirst(q.pending, t)
    ensures t.id in q.jobs && t in q.pending && q.jobs[t.id].ticket == t
  {
  }

  lemma LastOf(q: Queue, maxSize: int, heap: Heap, i: nat)
    requires Sound(q, maxSize) && q.pending == Contents(heap)
    requires i < |heap| && forall k | 0 <= k < |heap| :: Le(heap[k], heap[i])
    ensures IsLast(q.pending, heap[i]) && heap[i].id in q.jobs && heap[i] in q.pending
  {
    assert heap[i] in heap;
    forall u | u in multiset(heap) ensures Le(u, heap[i]) { assert u in heap; }
  }

  lemma RemoveAt(heap: Heap, i: nat)
    requires i < |heap|
    ensures Contents(heap[..i] + heap[i + 1..]) == Contents(heap) - multiset{heap[i]}
  {
    assert heap == heap[..i] + [heap[i]] + heap[i + 1..];
  }
}
