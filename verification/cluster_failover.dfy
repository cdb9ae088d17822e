/** Node failure: the scans of a failed node go back to pending one by one and are reassigned. */
module ClusterFailover {
  import opened Collections
  import opened ClusterRegistry

  function MarkOffline(s: State, n: string): State
    requires n in s.nodes
  {
    s.(nodes := s.nodes[n := s.nodes[n].(status := Offline)])
  }

  /** The redistribution loop over scan ids. */
  ghost function Redistribute(s: State, ids: seq<string>): State
    decreases |ids|
  {
    if ids == [] then s else Redistribute(Assign(Fail(s, ids[0]), ids[0]), ids[1..])
  }

  ghost function Failover(s: State, n: string, ids: seq<string>): State {
    if n !in s.nodes then s else Redistribute(MarkOffline(s, n), ids)
  }

  /** `ids` lists the scans owned by `n`, once each, in whatever order the backend yields them.
      The owner alone decides: completed scans are listed too. */
  ghost predicate Lists(ids: seq<string>, scans: Scans, n: string) {
    && Distinct(ids)
    && forall i :: i in ids <==> i in scans && scans[i].owner == Some(n)
  }

  // ---- the loop, whatever the loads are ----

  /** What holds between two turns of the loop, on any registry: `rest` is what the failed node still owns. */
  ghost predicate Sweeping(s: State, n: string, rest: seq<string>) {
    && Keyed(s)
    && n in s.nodes && !IsOnline(s.nodes, n)
    && Lists(rest, s.scans, n)
  }

  /** The load that `k` decrements leave: none goes below zero, and the empty id is never charged. */
  function Drained(n: string, load: int, k: nat): int {
    if n == "" || load <= 0 then load else if load <= k then 0 else load - k
  }

  lemma SweepStarts(s: State, n: string, ids: seq<string>)
    requires Keyed(s) && n in s.nodes && Lists(ids, s.scans, n)
    ensures Sweeping(MarkOffline(s, n), n, ids)
  {
  }

  lemma RestLists(scans: Scans, after: Scans, n: string, rest: seq<string>)
    requires rest != [] && Lists(rest, scans, n)
    requires after.Keys == scans.Keys && after[rest[0]].owner.None?
    requires forall i | i in scans && i != rest[0] :: after[i] == scans[i]
    ensures Lists(rest[1..], after, n)
  {
    assert rest == [rest[0]] + rest[1..];
    forall j ensures j in rest[1..] <==> j in after && after[j].owner == Some(n) {
      assert j in rest <==> j == rest[0] || j in rest[1..];
    }
  }

  lemma FailSweeps(s: State, n: string, rest: seq<string>)
    requires Sweeping(s, n, rest) && rest != []
    ensures var f := Fail(s, rest[0]);
            && Sweeping(f, n, rest[1..])
            && rest[0] in s.scans && rest[0] in f.scans && f.scans[rest[0]].owner.None?
            && f.nodes[n] == s.nodes[n].(load := Drained(n, s.nodes[n].load, 1))
  {
    assert rest[0] in rest;
    RestLists(s.scans, Fail(s, rest[0]).scans, n, rest);
  }

  lemma AssignSweeps(s: State, n: string, rest: seq<string>, i: string)
    requires Sweeping(s, n, rest) && i in s.scans && s.scans[i].owner.None?
    ensures Sweeping(Assign(s, i), n, rest) && Assign(s, i).nodes[n] == s.nodes[n]
  {
    var a := Assign(s, i);
    if a != s {
      forall j ensures j in rest <==> j in a.scans && a.scans[j].owner == Some(n) {
        assert j in rest <==> j in s.scans && s.scans[j].owner == Some(n);
      }
    }
  }

  lemma RedistributeNothing(s: State)
    ensures Redistribute(s, []) == s
  {
  }

  lemma TurnSweeps(s: State, n: string, rest: seq<string>)
    requires Sweeping(s, n, rest) && rest != []
    ensures Keyed(s) && rest[0] in s.scans && s.scans[rest[0]].owner == Some(n)
    ensures var f := Fail(s, rest[0]); var a := Assign(f, rest[0]);
            && Keyed(f)
            && Sweeping(a, n, rest[1..])
            && a.nodes[n] == s.nodes[n].(load := Drained(n, s.nodes[n].load, 1))
            && Redistribute(s, rest) == Redistribute(a, rest[1..])
  {
    assert rest[0] in rest;
    FailSweeps(s, n, rest);
    AssignSweeps(Fail(s, rest[0]), n, rest[1..], rest[0]);
  }

  /** Where a scan of the failed node ends up. */
  ghost predicate Rehomed(nodes: Nodes, before: Scan, after: Scan) {
    && after == before.(owner := after.owner, status := after.status)
    && if exists m :: IsOnline(nodes, m)
       then after.status.Running? && after.owner.Some? && IsOnline(nodes, after.owner.value)
       else after.status.Pending? && after.owner.None?
  }

  /** Nodes keep everything but their load. */
  ghost predicate SameButLoads(before: Nodes, after: Nodes) {
    && after.Keys == before.Keys
    && forall m | m in before :: after[m] == before[m].(load := after[m].load)
  }

  /** `s'` is `s` with the scans in `ids` moved, node loads aside. */
  ghost predicate Moved(s: State, s': State, ids: seq<string>) {
    && SameButLoads(s.nodes, s'.nodes)
    && s'.scans.Keys == s.scans.Keys
    && s'.leader == s.leader
    && (forall i | i in s.scans && i !in ids :: s'.scans[i] == s.scans[i])
    && (forall i | i in ids :: i in s.scans && Rehomed(s.nodes, s.scans[i], s'.scans[i]))
  }

  lemma SameOnline(before: Nodes, after: Nodes)
    requires SameButLoads(before, after)
    ensures forall m :: IsOnline(after, m) <==> IsOnline(before, m)
  {
  }

  lemma FailMoves(s: State, i: string)
    requires Keyed(s) && i in s.scans
    ensures var f := Fail(s, i);
            && SameButLoads(s.nodes, f.nodes) && f.leader == s.leader
            && f.scans == s.scans[i := s.scans[i].(owner := None, status := Pending)]
  {
  }

  lemma AssignMoves(s: State, i: string)
    requires i in s.scans && s.scans[i].owner.None? && s.scans[i].status.Pending?
    ensures var a := Assign(s, i);
            && SameButLoads(s.nodes, a.nodes) && a.leader == s.leader
            && a.scans.Keys == s.scans.Keys && Rehomed(s.nodes, s.scans[i], a.scans[i])
            && forall j | j in s.scans && j != i :: a.scans[j] == s.scans[j]
  {
  }

  lemma TurnMoves(s: State, i: string)
    requires Keyed(s) && i in s.scans
    ensures Moved(s, Assign(Fail(s, i), i), [i])
  {
    hide Fail, Assign;
    FailMoves(s, i);
    AssignMoves(Fail(s, i), i);
    SameOnline(s.nodes, Fail(s, i).nodes);
  }

  lemma MovesCompose(s: State, a: State, s': State, i: string, rest: seq<string>)
    requires Moved(s, a, [i]) && Moved(a, s', rest) && i !in rest
    ensures Moved(s, s', [i] + rest)
  {
    SameOnline(s.nodes, a.nodes);
    forall j | j in [i] + rest ensures j in s.scans && Rehomed(s.nodes, s.scans[j], s'.scans[j]) {
      if j == i { assert i in [i] && a.scans[i] == s'.scans[i]; } else { assert j !in [i]; }
    }
  }

  lemma {:induction false} RedistributeMoves(s: State, n: string, ids: seq<string>)
    requires Sweeping(s, n, ids)
    ensures Sweeping(Redistribute(s, ids), n, [])
    ensures Moved(s, Redistribute(s, ids), ids)
    ensures Redistribute(s, ids).nodes[n].load == Drained(n, s.nodes[n].load, |ids|)
    decreases |ids|
  {
    hide Fail, Assign, Moved;
    if ids == [] {
      MovedNowhere(s);
    } else {
      var i, rest := ids[0], ids[1..];
      var a := Assign(Fail(s, i), i);
      assert ids == [i] + rest && i !in rest;
      TurnSweeps(s, n, ids);
      TurnMoves(s, i);
      RedistributeMoves(a, n, rest);
      MovesCompose(s, a, Redistribute(a, rest), i, rest);
    }
  }

  lemma MovedNowhere(s: State)
    ensures Moved(s, s, [])
  {
  }

  /** What failover does to any registry, whatever its loads say: nothing belongs to the failed node afterwards, no scan
      is lost or otherwise touched, and every scan it had, completed ones included, runs on an online node, or waits
      because there is none. The failed node's own load has fallen by the number of its scans, but not below zero. */
  lemma FailoverMoves(s: State, n: string, ids: seq<string>)
    requires Keyed(s) && n in s.nodes && Lists(ids, s.scans, n)
    ensures var s' := Failover(s, n, ids);
            && Keyed(s')
            && s'.scans.Keys == s.scans.Keys
            && s'.nodes.Keys == s.nodes.Keys
            && (forall m | m in s.nodes && m != n :: s'.nodes[m] == s.nodes[m].(load := s'.nodes[m].load))
            && s'.nodes[n] == s.nodes[n].(status := Offline, load := s'.nodes[n].load)
            && (n != "" && s.nodes[n].load >= |ids| ==> s'.nodes[n].load == s.nodes[n].load - |ids|)
            && (n != "" && 0 <= s.nodes[n].load < |ids| ==> s'.nodes[n].load == 0)
            && SameButLoads(MarkOffline(s, n).nodes, s'.nodes)
            && s'.nodes[n].load == Drained(n, s.nodes[n].load, |ids|)
            && s'.leader == s.leader
            && (forall i | i in s.scans && s.scans[i].owner != Some(n) :: s'.scans[i] == s.scans[i])
            && (forall i | i in s.scans && s.scans[i].owner == Some(n) :: Rehomed(s'.nodes, s.scans[i], s'.scans[i]))
            && (forall i | i in s.scans :: s'.scans[i].owner != Some(n))
  {
    hide Redistribute;
    var m := MarkOffline(s, n);
    SweepStarts(s, n, ids);
    RedistributeMoves(m, n, ids);
    var s' := Failover(s, n, ids);
    SameOnline(m.nodes, s'.nodes);
    var none: seq<string> := [];
    forall i | i in s'.scans ensures s'.scans[i].owner != Some(n) {
      assert i !in none;
    }
  }

  // ---- the accounting ----

  /** The accounting between two turns: every node but the failed one is accounted for. The failed node's load may
      have fallen below the number of scans still running on it, because completed scans are swept as well. */
  ghost predicate MidFailover(s: State, n: string, rest: seq<string>) {
    && Sweeping(s, n, rest)
    && WellFormed(s)
    && forall m | m in s.nodes && m != n :: s.nodes[m].load == RunCount(s.scans, m)
  }

  lemma DistinctCardinality(ids: seq<string>, among: set<string>)
    requires Distinct(ids) && forall i | i in among :: i in ids
    ensures |among| <= |ids|
    decreases |ids|
  {
    if ids != [] {
      assert ids == [ids[0]] + ids[1..];
      DistinctCardinality(ids[1..], among - {ids[0]});
      assert among <= (among - {ids[0]}) + {ids[0]};
      assert |among| <= |among - {ids[0]}| + 1 by {
        if ids[0] in among { assert among == (among - {ids[0]}) + {ids[0]}; } else { assert among == among - {ids[0]}; }
      }
    }
  }

  lemma FailoverStarts(s: State, n: string, ids: seq<string>)
    requires Inv(s) && n in s.nodes && Lists(ids, s.scans, n)
    ensures MidFailover(MarkOffline(s, n), n, ids)
  {
  }

  lemma FailKeepsCounts(s: State, n: string, i: string)
    requires WellFormed(s) && n in s.nodes && i in s.scans && s.scans[i].owner == Some(n)
    requires forall m | m in s.nodes && m != n :: s.nodes[m].load == RunCount(s.scans, m)
    ensures var f := Fail(s, i);
            WellFormed(f) && forall m | m in f.nodes && m != n :: f.nodes[m].load == RunCount(f.scans, m)
  {
    hide RunCount;
    var f := Fail(s, i);
    forall m | m in f.nodes && m != n ensures f.nodes[m].load == RunCount(f.scans, m) {
      RunCountUpdate(s.scans, i, f.scans[i], m);
    }
  }

  lemma AssignKeepsCounts(s: State, n: string, i: string)
    requires WellFormed(s) && i in s.scans && s.scans[i].owner.None?
    requires forall m | m in s.nodes && m != n :: s.nodes[m].load == RunCount(s.scans, m)
    ensures var a := Assign(s, i);
            WellFormed(a) && forall m | m in a.nodes && m != n :: a.nodes[m].load == RunCount(a.scans, m)
  {
    hide RunCount;
    var a := Assign(s, i);
    if a != s {
      forall m | m in a.nodes && m != n ensures a.nodes[m].load == RunCount(a.scans, m) {
        RunCountUpdate(s.scans, i, a.scans[i], m);
      }
    }
  }

  lemma TurnKeepsMidFailover(s: State, n: string, rest: seq<string>)
    requires MidFailover(s, n, rest) && rest != []
    ensures MidFailover(Assign(Fail(s, rest[0]), rest[0]), n, rest[1..])
  {
    hide Fail, Assign, WellFormed, RunCount;
    TurnSweeps(s, n, rest);
    FailSweeps(s, n, rest);
    FailKeepsCounts(s, n, rest[0]);
    AssignKeepsCounts(Fail(s, rest[0]), n, rest[0]);
  }

  lemma {:induction false} RedistributeKeepsMidFailover(s: State, n: string, ids: seq<string>)
    requires MidFailover(s, n, ids)
    ensures MidFailover(Redistribute(s, ids), n, [])
    decreases |ids|
  {
    hide Fail, Assign, MidFailover;
    if ids != [] {
      TurnKeepsMidFailover(s, n, ids);
      RedistributeKeepsMidFailover(Assign(Fail(s, ids[0]), ids[0]), n, ids[1..]);
    }
  }

  /** On an accounted registry failover restores the accounting, and the failed node ends idle. */
  lemma FailoverRestores(s: State, n: string, ids: seq<string>)
    requires Inv(s) && n in s.nodes && Lists(ids, s.scans, n)
    ensures var s' := Failover(s, n, ids); Inv(s') && n in s'.nodes && s'.nodes[n].load == 0
  {
    hide Redistribute, Fail, Assign;
    FailoverStarts(s, n, ids);
    RedistributeKeepsMidFailover(MarkOffline(s, n), n, ids);
    FailoverMoves(s, n, ids);
    DistinctCardinality(ids, RunSet(s.scans, n));
    var s' := Failover(s, n, ids);
    assert RunSet(s'.scans, n) == {};
  }
}
