/** Least-loaded assignment as a round robin: who gets the j-th scan, and how far apart loads can drift. */
module ClusterBalance {
  import opened Collections
  import opened TextOrder
  import opened ClusterRegistry
  import opened ClusterFailover

  /** What one assignment does to the nodes. */
  ghost function Bump(nodes: Nodes): Nodes {
    match Target(nodes)
    case None => nodes
    case Some(t) => SetLoad(nodes, t, nodes[t].load + 1)
  }

  ghost function BumpN(nodes: Nodes, j: nat): Nodes {
    if j == 0 then nodes else Bump(BumpN(nodes, j - 1))
  }

  lemma {:induction false} BumpNKeeps(nodes: Nodes, j: nat)
    ensures SameButLoads(nodes, BumpN(nodes, j))
  {
    if j > 0 { BumpNKeeps(nodes, j - 1); }
  }

  lemma {:induction false} BumpFirst(nodes: Nodes, j: nat)
    ensures BumpN(nodes, j + 1) == BumpN(Bump(nodes), j)
  {
    if j > 0 { BumpFirst(nodes, j - 1); }
  }

  // ---- the spread of loads ----

  ghost predicate SpreadAtMost(nodes: Nodes, d: int) {
    forall a, b | IsOnline(nodes, a) && IsOnline(nodes, b) :: nodes[a].load - nodes[b].load <= d
  }

  /** From any start, the loads of online nodes never differ by more than one or the initial difference, if larger. */
  lemma {:induction false} SpreadBounded(nodes: Nodes, d: int, j: nat)
    requires SpreadAtMost(nodes, d)
    ensures SpreadAtMost(BumpN(nodes, j), if d < 1 then 1 else d)
  {
    if j > 0 {
      SpreadBounded(nodes, d, j - 1);
      var m := BumpN(nodes, j - 1);
      if Target(m).Some? {
        var t := Target(m).value;
        forall a, b | IsOnline(Bump(m), a) && IsOnline(Bump(m), b)
          ensures Bump(m)[a].load - Bump(m)[b].load <= if d < 1 then 1 else d
        {
          assert IsOnline(m, a) && IsOnline(m, b) && LoadLe(m[t], m[b]);
        }
      }
    }
  }

  // ---- round robin ----

  /** `ids` is the online nodes in `node_id` order. */
  ghost predicate Roster(nodes: Nodes, ids: seq<string>) {
    && ids != []
    && (forall i, j | 0 <= i < j < |ids| :: Lt(ids[i], ids[j]))
    && (forall m :: m in ids <==> IsOnline(nodes, m))
  }

  /** Loads `base`, with the first `extra` nodes of the roster one ahead. */
  ghost predicate Level(nodes: Nodes, ids: seq<string>, base: int, extra: nat) {
    && extra < |ids|
    && forall r | 0 <= r < |ids| :: ids[r] in nodes && nodes[ids[r]].load == base + (if r < extra then 1 else 0)
  }

  lemma LevelTarget(nodes: Nodes, ids: seq<string>, base: int, extra: nat)
    requires KeyedNodes(nodes) && Roster(nodes, ids) && Level(nodes, ids, base, extra)
    ensures Target(nodes) == Some(ids[extra])
  {
    var t := ids[extra];
    assert t in ids;
    forall m | IsOnline(nodes, m) ensures LoadLe(nodes[t], nodes[m]) {
      assert m in ids;
      var r :| 0 <= r < |ids| && ids[r] == m;
      if extra < r { assert Lt(ids[extra], ids[r]); }
      Total(m, m);
    }
    TargetIs(nodes, t);
  }

  lemma LevelBump(nodes: Nodes, ids: seq<string>, base: int, extra: nat)
    requires KeyedNodes(nodes) && Roster(nodes, ids) && Level(nodes, ids, base, extra)
    ensures if extra + 1 < |ids| then Level(Bump(nodes), ids, base, extra + 1) else Level(Bump(nodes), ids, base + 1, 0)
  {
    LevelTarget(nodes, ids, base, extra);
    var t := ids[extra];
    assert t in ids;
    forall r | 0 <= r < |ids|
      ensures ids[r] in Bump(nodes) && Bump(nodes)[ids[r]].load == base + (if r < extra + 1 then 1 else 0)
    {
      if r < extra { assert Lt(ids[r], ids[extra]); } else if extra < r { assert Lt(ids[extra], ids[r]); }
    }
  }

  lemma RosterKept(nodes: Nodes, after: Nodes, ids: seq<string>)
    requires KeyedNodes(nodes) && Roster(nodes, ids) && SameButLoads(nodes, after)
    ensures KeyedNodes(after) && Roster(after, ids)
  {
    SameOnline(nodes, after);
  }

  lemma NextTurn(j: nat, k: nat)
    requires k > 0
    ensures if j % k + 1 < k then (j + 1) % k == j % k + 1 && (j + 1) / k == j / k
            else (j + 1) % k == 0 && (j + 1) / k == j / k + 1
  {
    var q, r := j / k, j % k;
    assert j == q * k + r;
    if r + 1 < k {
      assert j + 1 == q * k + (r + 1);
      DivModIs(j + 1, k, q, r + 1);
    } else {
      assert j + 1 == (q + 1) * k + 0;
      DivModIs(j + 1, k, q + 1, 0);
    }
  }

  lemma MulMonotone(a: int, b: int, k: int)
    requires a <= b && k >= 0
    ensures a * k <= b * k
  {
  }

  lemma EuclidUnique(a: int, b: int, q: int, r: int, k: int)
    requires 0 <= b < k && 0 <= r < k && a * k + b == q * k + r
    ensures a == q && b == r
  {
    if a < q { MulMonotone(a + 1, q, k); }
    if q < a { MulMonotone(q + 1, a, k); }
  }

  lemma DivModIs(x: int, k: int, q: int, r: int)
    requires 0 <= r < k && x == q * k + r
    ensures x / k == q && x % k == r
  {
    EuclidUnique(x / k, x % k, q, r, k);
  }

  /** After j assignments: every node has had j div k scans, the first j mod k of them one more. */
  ghost predicate LevelAfter(nodes: Nodes, ids: seq<string>, base: int, j: nat)
    requires ids != []
  {
    Level(nodes, ids, base + j / |ids|, j % |ids|)
  }

  lemma LevelTurn(nodes: Nodes, ids: seq<string>, base: int, j: nat)
    requires KeyedNodes(nodes) && Roster(nodes, ids) && LevelAfter(nodes, ids, base, j)
    ensures LevelAfter(Bump(nodes), ids, base, j + 1)
  {
    LevelBump(nodes, ids, base + j / |ids|, j % |ids|);
    NextTurn(j, |ids|);
  }

  lemma {:induction false} RoundRobinLevels(nodes: Nodes, ids: seq<string>, base: int, j: nat)
    requires KeyedNodes(nodes) && Roster(nodes, ids) && Level(nodes, ids, base, 0)
    ensures LevelAfter(BumpN(nodes, j), ids, base, j)
    decreases j
  {
    if j == 0 {
      DivModIs(0, |ids|, 0, 0);
    } else {
      assert ids != [];
      hide LevelAfter, Level, Roster, KeyedNodes, Bump, SameButLoads;
      RoundRobinLevels(nodes, ids, base, j - 1);
      BumpNKeeps(nodes, j - 1);
      RosterKept(nodes, BumpN(nodes, j - 1), ids);
      LevelTurn(BumpN(nodes, j - 1), ids, base, j - 1);
    }
  }

  /** From k online nodes with equal loads, assignment j goes to the node of rank j mod k by node id. */
  lemma RoundRobin(nodes: Nodes, ids: seq<string>, base: int, j: nat)
    requires ids != [] && (forall i, j | 0 <= i < j < |ids| :: Lt(ids[i], ids[j]))
    requires forall m :: m in ids <==> IsOnline(nodes, m)
    requires KeyedNodes(nodes) && Level(nodes, ids, base, 0)
    ensures Target(BumpN(nodes, j)) == Some(ids[j % |ids|])
    ensures LevelAfter(BumpN(nodes, j), ids, base, j)
  {
    RoundRobinLevels(nodes, ids, base, j);
    BumpNKeeps(nodes, j);
    RosterKept(nodes, BumpN(nodes, j), ids);
    LevelTarget(BumpN(nodes, j), ids, base + j / |ids|, j % |ids|);
  }

  // ---- assigning a batch of pending scans ----

  ghost function AssignAll(s: State, jobs: seq<string>): State
    decreases |jobs|
  {
    if jobs == [] then s else AssignAll(Assign(s, jobs[0]), jobs[1..])
  }

  ghost predicate AllUnowned(scans: Scans, jobs: seq<string>) {
    Distinct(jobs) && forall i | i in jobs :: i in scans && scans[i].owner.None?
  }

  lemma {:induction false} AssignAllKeeps(s: State, jobs: seq<string>)
    requires AllUnowned(s.scans, jobs)
    ensures AssignAll(s, jobs).nodes == BumpN(s.nodes, |jobs|)
    ensures AssignAll(s, jobs).scans.Keys == s.scans.Keys
    ensures forall i | i in s.scans && i !in jobs :: AssignAll(s, jobs).scans[i] == s.scans[i]
    decreases |jobs|
  {
    if jobs != [] {
      var rest := jobs[1..];
      assert jobs == [jobs[0]] + rest;
      assert AllUnowned(Assign(s, jobs[0]).scans, rest);
      AssignAllKeeps(Assign(s, jobs[0]), rest);
      BumpFirst(s.nodes, |rest|);
    }
  }

  lemma BatchTurn(s: State, jobs: seq<string>)
    requires AllUnowned(s.scans, jobs) && jobs != []
    ensures var a := Assign(s, jobs[0]);
            && AllUnowned(a.scans, jobs[1..]) && jobs[0] !in jobs[1..]
            && jobs[0] in a.scans && a.scans[jobs[0]].owner == Target(s.nodes)
            && a.nodes == Bump(s.nodes)
  {
    assert jobs == [jobs[0]] + jobs[1..];
  }

  /** The owner of each scan of a batch is the target at its turn. */
  lemma {:induction false} AssignAllTargets(s: State, jobs: seq<string>, j: nat)
    requires AllUnowned(s.scans, jobs) && j < |jobs|
    ensures jobs[j] in AssignAll(s, jobs).scans
    ensures AssignAll(s, jobs).scans[jobs[j]].owner == Target(BumpN(s.nodes, j))
    decreases |jobs|
  {
    hide Assign, Bump, AllUnowned;
    BatchTurn(s, jobs);
    var a, rest := Assign(s, jobs[0]), jobs[1..];
    if j == 0 {
      AssignAllKeeps(a, rest);
    } else {
      AssignAllTargets(a, rest, j - 1);
      BumpFirst(s.nodes, j - 1);
    }
  }

  /** The documented round robin, on the registry itself: the j-th scan of a batch is owned by roster node j mod k. */
  lemma BatchRoundRobin(s: State, ids: seq<string>, base: int, jobs: seq<string>)
    requires ids != [] && (forall i, j | 0 <= i < j < |ids| :: Lt(ids[i], ids[j]))
    requires forall m :: m in ids <==> IsOnline(s.nodes, m)
    requires Keyed(s) && Level(s.nodes, ids, base, 0) && AllUnowned(s.scans, jobs)
    ensures forall j | 0 <= j < |jobs| ::
              jobs[j] in AssignAll(s, jobs).scans && AssignAll(s, jobs).scans[jobs[j]].owner == Some(ids[j % |ids|])
  {
    forall j | 0 <= j < |jobs|
      ensures jobs[j] in AssignAll(s, jobs).scans && AssignAll(s, jobs).scans[jobs[j]].owner == Some(ids[j % |ids|])
    {
      AssignAllTargets(s, jobs, j);
      RoundRobin(s.nodes, ids, base, j);
    }
  }

  // ---- failover as a batch ----

  ghost predicate AgreeBut(a: Nodes, b: Nodes, n: string) {
    a.Keys == b.Keys && forall m | m in a && m != n :: a[m] == b[m]
  }

  lemma BumpAgrees(a: Nodes, b: Nodes, n: string)
    requires KeyedNodes(a) && KeyedNodes(b) && AgreeBut(a, b, n) && !IsOnline(a, n) && !IsOnline(b, n)
    ensures Target(a) == Target(b)
    ensures AgreeBut(Bump(a), Bump(b), n) && !IsOnline(Bump(a), n) && !IsOnline(Bump(b), n)
  {
    forall m ensures IsOnline(a, m) <==> IsOnline(b, m) {}
    if Target(a).Some? {
      assert LeastLoaded(b, Target(a).value);
      TargetIs(b, Target(a).value);
    }
  }

  lemma BumpNKeyed(nodes: Nodes, j: nat)
    requires KeyedNodes(nodes)
    ensures KeyedNodes(BumpN(nodes, j))
  {
    hide BumpN;
    BumpNKeeps(nodes, j);
  }

  lemma {:induction false} BumpNAgreesBut(a: Nodes, b: Nodes, n: string, j: nat)
    requires KeyedNodes(a) && KeyedNodes(b) && AgreeBut(a, b, n) && !IsOnline(a, n) && !IsOnline(b, n)
    ensures AgreeBut(BumpN(a, j), BumpN(b, j), n) && !IsOnline(BumpN(a, j), n) && !IsOnline(BumpN(b, j), n)
    decreases j
  {
    if j > 0 {
      hide AgreeBut, KeyedNodes, Bump, IsOnline;
      BumpNAgreesBut(a, b, n, j - 1);
      BumpNKeyed(a, j - 1);
      BumpNKeyed(b, j - 1);
      BumpAgrees(BumpN(a, j - 1), BumpN(b, j - 1), n);
    }
  }

  lemma BumpNAgrees(a: Nodes, b: Nodes, n: string, j: nat)
    requires KeyedNodes(a) && KeyedNodes(b) && AgreeBut(a, b, n) && !IsOnline(a, n) && !IsOnline(b, n)
    ensures Target(BumpN(a, j)) == Target(BumpN(b, j))
    ensures AgreeBut(BumpN(a, j), BumpN(b, j), n)
  {
    hide AgreeBut, KeyedNodes, Bump, BumpN, IsOnline;
    BumpNAgreesBut(a, b, n, j);
    BumpNKeyed(a, j);
    BumpNKeyed(b, j);
    BumpAgrees(BumpN(a, j), BumpN(b, j), n);
  }

  lemma TurnAgrees(s: State, n: string, i: string)
    requires Keyed(s) && i in s.scans && s.scans[i].owner == Some(n) && !IsOnline(s.nodes, n)
    ensures var a := Assign(Fail(s, i), i);
            && AgreeBut(a.nodes, Bump(s.nodes), n)
            && a.scans[i].owner == Target(s.nodes)
  {
    BumpAgrees(Fail(s, i).nodes, s.nodes, n);
  }

  /** After one turn, the survivors see what one plain assignment would have left. */
  lemma TurnThenBumps(s: State, n: string, ids: seq<string>, j: nat)
    requires Sweeping(s, n, ids) && ids != []
    ensures var a := Assign(Fail(s, ids[0]), ids[0]);
            && Target(BumpN(a.nodes, j)) == Target(BumpN(s.nodes, j + 1))
            && AgreeBut(BumpN(a.nodes, j), BumpN(s.nodes, j + 1), n)
  {
    var i := ids[0];
    assert i in ids;
    var a := Assign(Fail(s, i), i);
    TurnAgrees(s, n, i);
    assert BumpN(s.nodes, 1) == Bump(BumpN(s.nodes, 0));
    BumpNKeyed(s.nodes, 1);
    BumpNAgrees(a.nodes, Bump(s.nodes), n, j);
    BumpFirst(s.nodes, j);
  }

  /** Redistribution leaves every survivor where that many plain assignments would: the failed node's
      shrinking load is invisible to them. */
  lemma {:induction false} RedistributeLoads(s: State, n: string, ids: seq<string>)
    requires Sweeping(s, n, ids)
    ensures AgreeBut(Redistribute(s, ids).nodes, BumpN(s.nodes, |ids|), n)
    decreases |ids|
  {
    hide Fail, Assign, Sweeping, AgreeBut;
    if ids == [] {
      AgreesWithSelf(s.nodes, n);
    } else {
      TurnSweeps(s, n, ids);
      RedistributeLoads(Assign(Fail(s, ids[0]), ids[0]), n, ids[1..]);
      TurnThenBumps(s, n, ids, |ids| - 1);
      var moved := Assign(Fail(s, ids[0]), ids[0]);
      AgreeTransitive(Redistribute(s, ids).nodes, BumpN(moved.nodes, |ids| - 1), BumpN(s.nodes, |ids|), n);
    }
  }

  lemma AgreesWithSelf(nodes: Nodes, n: string)
    ensures AgreeBut(nodes, nodes, n)
  {
  }

  lemma AgreeTransitive(a: Nodes, b: Nodes, c: Nodes, n: string)
    requires AgreeBut(a, b, n) && AgreeBut(b, c, n)
    ensures AgreeBut(a, c, n)
  {
  }

  lemma FirstTarget(s: State, n: string, ids: seq<string>)
    requires Sweeping(s, n, ids) && ids != []
    ensures ids[0] in Redistribute(s, ids).scans
    ensures Redistribute(s, ids).scans[ids[0]].owner == Target(BumpN(s.nodes, 0))
  {
    hide Fail, Assign, Redistribute, Rehomed, SameButLoads, AgreeBut, Bump;
    var i, rest := ids[0], ids[1..];
    assert i in ids && i !in rest;
    TurnSweeps(s, n, ids);
    TurnAgrees(s, n, i);
    TurnMoves(s, i);
    RedistributeMoves(Assign(Fail(s, i), i), n, rest);
  }

  /** The j-th swept scan goes to the node that is least loaded after j assignments. */
  lemma {:induction false} RedistributeTargets(s: State, n: string, ids: seq<string>, j: nat)
    requires Sweeping(s, n, ids) && j < |ids|
    ensures ids[j] in Redistribute(s, ids).scans
    ensures Redistribute(s, ids).scans[ids[j]].owner == Target(BumpN(s.nodes, j))
    decreases |ids|
  {
    hide Fail, Assign, AgreeBut, Sweeping, Redistribute, Target, Keyed, BumpN, IsOnline;
    if j == 0 {
      FirstTarget(s, n, ids);
    } else {
      TurnSweeps(s, n, ids);
      RedistributeTargets(Assign(Fail(s, ids[0]), ids[0]), n, ids[1..], j - 1);
      TurnThenBumps(s, n, ids, j - 1);
    }
  }

  lemma SameNodes(a: Nodes, b: Nodes, n: string)
    requires AgreeBut(a, b, n) && n in a && n in b && a[n] == b[n]
    ensures a == b
  {
  }

  lemma SweptNode(s: State, n: string, ids: seq<string>)
    requires Sweeping(s, n, ids)
    ensures n in s.nodes && n in Redistribute(s, ids).nodes
    ensures Redistribute(s, ids).nodes[n] == s.nodes[n].(load := Drained(n, s.nodes[n].load, |ids|))
  {
    hide Redistribute;
    RedistributeMoves(s, n, ids);
  }

  lemma AgreeBackwards(a: Nodes, b: Nodes, n: string)
    requires AgreeBut(a, b, n)
    ensures AgreeBut(b, a, n)
  {
  }

  /** Failover is deterministic up to the backend's enumeration order: whichever order lists the scans,
      the nodes end up the same, on any registry. */
  lemma FailoverNodesOrderFree(s: State, n: string, ids: seq<string>, jds: seq<string>)
    requires Keyed(s) && n in s.nodes && Lists(ids, s.scans, n) && Lists(jds, s.scans, n)
    ensures Failover(s, n, ids).nodes == Failover(s, n, jds).nodes
  {
    hide Redistribute, BumpN, AgreeBut, Sweeping, Keyed, Drained, IsOnline;
    var m := MarkOffline(s, n);
    SameListing(s.scans, n, ids, jds);
    SweepStarts(s, n, ids);
    SweepStarts(s, n, jds);
    RedistributeLoads(m, n, ids);
    RedistributeLoads(m, n, jds);
    AgreeBackwards(Redistribute(m, jds).nodes, BumpN(m.nodes, |ids|), n);
    AgreeTransitive(Redistribute(m, ids).nodes, BumpN(m.nodes, |ids|), Redistribute(m, jds).nodes, n);
    SweptNode(m, n, ids);
    SweptNode(m, n, jds);
    SameNodes(Redistribute(m, ids).nodes, Redistribute(m, jds).nodes, n);
  }

  lemma SameListing(scans: Scans, n: string, ids: seq<string>, jds: seq<string>)
    requires Lists(ids, scans, n) && Lists(jds, scans, n)
    ensures |ids| == |jds|
  {
    SameLength(ids, jds);
  }

  lemma SameLength(ids: seq<string>, jds: seq<string>)
    requires Distinct(ids) && Distinct(jds) && forall i :: i in ids <==> i in jds
    ensures |ids| == |jds|
  {
    var among := set i | i in ids;
    DistinctIsSet(ids);
    DistinctIsSet(jds);
    assert among == set i | i in jds;
  }

  lemma {:induction false} DistinctIsSet(ids: seq<string>)
    requires Distinct(ids)
    ensures |set i | i in ids| == |ids|
    decreases |ids|
  {
    if ids == [] {
      assert (set i | i in ids) == {};
    } else {
      var rest := ids[1..];
      assert ids == [ids[0]] + rest && ids[0] !in rest;
      DistinctIsSet(rest);
      assert (set i | i in ids) == {ids[0]} + (set i | i in rest);
    }
  }

  /** ... and from equally loaded survivors, the j-th swept scan goes to survivor j mod k by node id. */
  lemma FailoverRoundRobin(s: State, n: string, ids: seq<string>, roster: seq<string>, base: int)
    requires Keyed(s) && n in s.nodes && Lists(ids, s.scans, n)
    requires roster != [] && (forall i, j | 0 <= i < j < |roster| :: Lt(roster[i], roster[j]))
    requires forall m :: m in roster <==> IsOnline(MarkOffline(s, n).nodes, m)
    requires Level(MarkOffline(s, n).nodes, roster, base, 0)
    ensures forall j | 0 <= j < |ids| ::
              && ids[j] in Failover(s, n, ids).scans
              && Failover(s, n, ids).scans[ids[j]].owner == Some(roster[j % |roster|])
  {
    hide Redistribute, BumpN, Sweeping;
    var m := MarkOffline(s, n);
    SweepStarts(s, n, ids);
    forall j | 0 <= j < |ids|
      ensures ids[j] in Failover(s, n, ids).scans
      ensures Failover(s, n, ids).scans[ids[j]].owner == Some(roster[j % |roster|])
    {
      RedistributeTargets(m, n, ids, j);
      RoundRobin(m.nodes, roster, base, j);
    }
  }
}
