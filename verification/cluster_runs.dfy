/** Whole runs of the cluster: every sequence of registry operations keeps the accounting and loses no scan. */
module ClusterRuns {
  import opened Collections
  import opened TextOrder
  import opened Sorting
  import opened ClusterRegistry
  import opened ClusterFailover

  // ---- leader election ----

  ghost predicate LowestOnline(nodes: Nodes, l: string) {
    IsOnline(nodes, l) && forall m | IsOnline(nodes, m) :: Le(l, m)
  }

  /** What `elect_leader` stores: the lowest online id. With nobody online it stores nothing,
      so a stale leader stays. */
  ghost predicate Elected(s: State, s': State) {
    && s' == s.(leader := s'.leader)
    && if exists m :: IsOnline(s.nodes, m)
       then s'.leader.Some? && LowestOnline(s.nodes, s'.leader.value)
       else s'.leader == s.leader
  }

  lemma ElectionIsDeterministic(s: State, a: State, b: State)
    requires Elected(s, a) && Elected(s, b)
    ensures a == b
  {
    if exists m :: IsOnline(s.nodes, m) { Antisymmetric(a.leader.value, b.leader.value); }
  }

  /** Nobody online has an id that comes before the elected leader's. */
  lemma LeaderComesFirst(s: State, s': State, m: string)
    requires Elected(s, s') && IsOnline(s.nodes, m)
    ensures s'.leader.Some? && IsOnline(s.nodes, s'.leader.value) && !ComesBefore(m, s'.leader.value)
    ensures s'.nodes == s.nodes && s'.scans == s.scans
  {
    LtIff(s'.leader.value, m);
  }

  /** The stored leader is online after an election exactly when some node is: with nobody online a stale one stays. */
  lemma LeaderOnlineIff(s: State, s': State)
    requires Elected(s, s')
    ensures (s'.leader.Some? && IsOnline(s'.nodes, s'.leader.value)) <==> exists m :: IsOnline(s.nodes, m)
  {
  }

  // ---- steps ----

  datatype Step =
    | AddNode(node: Node)
    | AddScan(scan: Scan)
    | AssignScan(scanId: string)
    | CompleteScan(scanId: string, nodeId: string)
    | FailScan(scanId: string)
    | HeartbeatFrom(nodeId: string, status: NodeStatus, load: int, stamp: string)
    | NodeFailure(nodeId: string, ids: seq<string>)
    | RemoveNode(nodeId: string)
    | ElectLeader

  /** The conditions under which callers may take a step: fresh registrations and submissions, completion by the
      owner, failure of a scan that is not completed, truthful heartbeats, removal of idle nodes. */
  ghost predicate Allowed(s: State, step: Step) {
    match step
    case AddNode(n) => n.id != "" && n.id !in s.nodes && n.load == 0
    case AddScan(x) => x.id !in s.scans && x.status.Pending? && x.owner.None?
    case AssignScan(_) => true
    case CompleteScan(i, n) => i in s.scans ==> RunsOn(s.scans[i], n)
    case FailScan(i) => i in s.scans ==> !s.scans[i].status.Completed?
    case HeartbeatFrom(n, _, load, _) => n in s.nodes ==> load == RunCount(s.scans, n)
    case NodeFailure(n, ids) => Lists(ids, s.scans, n)
    case RemoveNode(n) => n in s.nodes ==> RunCount(s.scans, n) == 0
    case ElectLeader => true
  }

  lemma AlwaysAllowed(s: State, i: string)
    ensures Allowed(s, AssignScan(i)) && Allowed(s, ElectLeader)
  {
  }

  ghost predicate Next(s: State, step: Step, s': State) {
    match step
    case AddNode(n) => s' == s.(nodes := s.nodes[n.id := n])
    case AddScan(x) => s' == s.(scans := s.scans[x.id := x])
    case AssignScan(i) => s' == Assign(s, i)
    case CompleteScan(i, n) => s' == Complete(s, i, n)
    case FailScan(i) => s' == Fail(s, i)
    case HeartbeatFrom(n, status, load, stamp) => s' == Heartbeat(s, n, status, load, stamp)
    case NodeFailure(n, ids) => s' == Failover(s, n, ids)
    case RemoveNode(n) => s' == s.(nodes := s.nodes - {n})
    case ElectLeader => Elected(s, s')
  }

  lemma AddNodeKeepsInv(s: State, n: Node)
    requires Inv(s) && Allowed(s, AddNode(n))
    ensures Inv(s.(nodes := s.nodes[n.id := n]))
  {
    assert RunSet(s.scans, n.id) == {};
  }

  lemma AddScanKeepsInv(s: State, x: Scan)
    requires Inv(s) && Allowed(s, AddScan(x))
    ensures Inv(s.(scans := s.scans[x.id := x]))
  {
    forall m ensures RunCount(s.scans[x.id := x], m) == RunCount(s.scans, m) {
      RunCountUpdate(s.scans, x.id, x, m);
    }
  }

  lemma StepKeepsInv(s: State, step: Step, s': State)
    requires Inv(s) && Allowed(s, step) && Next(s, step, s')
    ensures Inv(s') && s.scans.Keys <= s'.scans.Keys
  {
    match step
    case AddNode(n) => AddNodeKeepsInv(s, n);
    case AddScan(x) => AddScanKeepsInv(s, x);
    case AssignScan(i) => AssignKeepsInv(s, i);
    case CompleteScan(i, n) => if i in s.scans { CompleteByOwnerKeepsInv(s, i); }
    case FailScan(i) => if i in s.scans { FailKeepsInvIff(s, i); }
    case HeartbeatFrom(n, status, load, stamp) => if n in s.nodes { HeartbeatKeepsInvIff(s, n, status, load, stamp); }
    case NodeFailure(n, ids) => if n in s.nodes { FailoverRestores(s, n, ids); FailoverMoves(s, n, ids); }
    case RemoveNode(n) =>
      if n in s.nodes { RemoveKeepsInvIff(s, n); } else { assert s.nodes - {n} == s.nodes; }
    case ElectLeader =>
  }

  /** A run: one state more than steps, each step allowed where it is taken. */
  ghost predicate Run(states: seq<State>, steps: seq<Step>) {
    && |states| == |steps| + 1
    && forall k | 0 <= k < |steps| :: Allowed(states[k], steps[k]) && Next(states[k], steps[k], states[k + 1])
  }

  /** In every run from a safe registry, at every moment: each node's load is its number of running scans,
      a scan is pending exactly when nobody owns it, running scans are owned by registered nodes,
      and every scan that was ever known is still known. */
  lemma {:induction false} RunsAreSafe(states: seq<State>, steps: seq<Step>, k: nat)
    requires Run(states, steps) && k < |states|
    requires Inv(states[0])
    ensures Inv(states[k])
    ensures forall j | 0 <= j <= k :: states[j].scans.Keys <= states[k].scans.Keys
    decreases k
  {
    if k > 0 {
      RunsAreSafe(states, steps, k - 1);
      StepKeepsInv(states[k - 1], steps[k - 1], states[k]);
    }
  }

  /** A cluster starts from an empty registry, so every run of a cluster is safe. */
  lemma ClusterIsSafe(states: seq<State>, steps: seq<Step>, k: nat)
    requires Run(states, steps) && k < |states| && states[0] == State(map[], map[], None)
    ensures var nodes, scans := states[k].nodes, states[k].scans;
            && (forall n | n in nodes ::
                  nodes[n].load == |set i | i in scans && scans[i].status.Running? && scans[i].owner == Some(n)|)
            && (forall i | i in scans :: scans[i].status.Pending? <==> scans[i].owner.None?)
            && (forall i | i in scans && scans[i].status.Running? ::
                  scans[i].owner.Some? && scans[i].owner.value in nodes)
    ensures forall j | 0 <= j <= k :: states[j].scans.Keys <= states[k].scans.Keys
  {
    RunsAreSafe(states, steps, k);
    InvIs(states[k]);
  }

  lemma InvIs(s: State)
    requires Inv(s)
    ensures forall n | n in s.nodes ::
              s.nodes[n].load == |set i | i in s.scans && s.scans[i].status.Running? && s.scans[i].owner == Some(n)|
    ensures forall i | i in s.scans :: s.scans[i].status.Pending? <==> s.scans[i].owner.None?
    ensures forall i | i in s.scans && s.scans[i].status.Running? ::
              s.scans[i].owner.Some? && s.scans[i].owner.value in s.nodes
  {
    forall n | n in s.nodes
      ensures RunSet(s.scans, n) == set i | i in s.scans && s.scans[i].status.Running? && s.scans[i].owner == Some(n)
    {
    }
  }

  // ---- the periodic health check ----

  /** The scans a backend lists for a node: its keys in insertion order, filtered by owner. */
  function ScansOf(keys: seq<string>, scans: Scans, n: string): seq<string> {
    Filter(keys, (i: string) => i in scans && scans[i].owner == Some(n))
  }

  lemma ScansOfLists(keys: seq<string>, scans: Scans, n: string)
    requires Distinct(keys) && forall i :: i in keys <==> i in scans
    ensures Lists(ScansOf(keys, scans, n), scans, n)
  {
    var p := (i: string) => i in scans && scans[i].owner == Some(n);
    FilterDistinct(keys, p);
    FilterMembers(keys, p);
  }

  /** The failovers of one health check, victim after victim. */
  ghost function Sweep(s: State, keys: seq<string>, victims: seq<string>): State
    decreases |victims|
  {
    if victims == [] then s
    else Sweep(Failover(s, victims[0], ScansOf(keys, s.scans, victims[0])), keys, victims[1..])
  }

  /** Out of service: offline, and owning nothing. */
  ghost predicate Cleared(s: State, n: string) {
    && n in s.nodes && s.nodes[n].status == Offline
    && forall i | i in s.scans :: s.scans[i].owner != Some(n)
  }

  lemma ClearedIsIdle(s: State, n: string)
    requires Inv(s) && Cleared(s, n)
    ensures s.nodes[n].load == 0
  {
    assert RunSet(s.scans, n) == {};
  }

  lemma FailoverKeepsCleared(s: State, n: string, ids: seq<string>, c: string)
    requires Keyed(s) && n in s.nodes && Lists(ids, s.scans, n) && Cleared(s, c)
    ensures Cleared(Failover(s, n, ids), c)
  {
    hide Redistribute, Failover;
    FailoverMoves(s, n, ids);
    var s' := Failover(s, n, ids);
    forall i | i in s'.scans ensures s'.scans[i].owner != Some(c) {
      if s.scans[i].owner == Some(n) { assert Rehomed(s'.nodes, s.scans[i], s'.scans[i]); }
    }
  }

  lemma FailoverTurn(s: State, keys: seq<string>, v: string)
    requires Keyed(s) && Distinct(keys) && (forall i :: i in keys <==> i in s.scans) && v in s.nodes
    ensures var f := Failover(s, v, ScansOf(keys, s.scans, v));
            && Keyed(f) && Cleared(f, v)
            && f.scans.Keys == s.scans.Keys && f.nodes.Keys == s.nodes.Keys
            && (forall m | m in s.nodes && m != v :: f.nodes[m].status == s.nodes[m].status)
            && (Inv(s) ==> Inv(f))
  {
    hide Redistribute, Failover, Inv, ScansOf;
    var ids := ScansOf(keys, s.scans, v);
    ScansOfLists(keys, s.scans, v);
    FailoverMoves(s, v, ids);
    if Inv(s) { FailoverRestores(s, v, ids); }
  }

  /** What handling a node failure comes to: the node is offline and owns nothing, the scans it had run on online nodes
      or wait because there is none, and no other scan is touched. */
  lemma FailureIs(s: State, n: string, ids: seq<string>, s': State)
    requires Keyed(s) && n in s.nodes && Lists(ids, s.scans, n) && Next(s, NodeFailure(n, ids), s')
    ensures n in s'.nodes && s'.nodes[n].status == Offline && s'.scans.Keys == s.scans.Keys
    ensures forall i | i in s.scans && s.scans[i].owner != Some(n) :: s'.scans[i] == s.scans[i]
    ensures forall i | i in s.scans && s.scans[i].owner == Some(n) ::
              var x := s'.scans[i];
              && x.owner != Some(n)
              && if exists m :: IsOnline(s'.nodes, m)
                 then x.status == Running && x.owner.Some? && IsOnline(s'.nodes, x.owner.value)
                 else x.status == Pending && x.owner == None
  {
    hide Redistribute, Failover, Lists, Keyed;
    FailoverMoves(s, n, ids);
  }

  lemma {:induction false} SweepKeepsCleared(s: State, keys: seq<string>, victims: seq<string>, c: string)
    requires Keyed(s) && Distinct(keys) && (forall i :: i in keys <==> i in s.scans)
    requires (forall v | v in victims :: v in s.nodes) && Cleared(s, c)
    ensures Cleared(Sweep(s, keys, victims), c)
    decreases |victims|
  {
    if victims != [] {
      hide Inv, Cleared, ScansOf, Failover, Keyed;
      FailoverTurn(s, keys, victims[0]);
      ScansOfLists(keys, s.scans, victims[0]);
      FailoverKeepsCleared(s, victims[0], ScansOf(keys, s.scans, victims[0]), c);
      SweepKeepsCleared(Failover(s, victims[0], ScansOf(keys, s.scans, victims[0])), keys, victims[1..], c);
    }
  }

  /** One health check on any registry leaves every victim offline and owning nothing, even where a scan was first
      handed from one victim to the next; the other nodes keep their status, no scan is lost, and an accounted
      registry stays accounted, its victims idle. */
  lemma {:induction false} SweepClears(s: State, keys: seq<string>, victims: seq<string>)
    requires Keyed(s) && Distinct(keys) && (forall i :: i in keys <==> i in s.scans)
    requires forall v | v in victims :: v in s.nodes
    ensures var s' := Sweep(s, keys, victims);
            && Keyed(s')
            && s'.scans.Keys == s.scans.Keys && s'.nodes.Keys == s.nodes.Keys
            && (forall v | v in victims :: Cleared(s', v))
            && (forall m | m in s.nodes && m !in victims :: s'.nodes[m].status == s.nodes[m].status)
            && (Inv(s) ==> Inv(s') && forall v | v in victims :: v in s'.nodes && s'.nodes[v].load == 0)
    decreases |victims|
  {
    if victims != [] {
      hide Inv, Cleared, ScansOf, Failover, Keyed;
      var v, rest := victims[0], victims[1..];
      assert victims == [v] + rest;
      var f := Failover(s, v, ScansOf(keys, s.scans, v));
      FailoverTurn(s, keys, v);
      SweepClears(f, keys, rest);
      SweepKeepsCleared(f, keys, rest, v);
      if Inv(s) { ClearedIsIdle(Sweep(f, keys, rest), v); }
    }
  }
}
