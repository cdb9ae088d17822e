/** The cluster registry of `cluster/manager.py`: nodes, scans, the stored leader and the
    transitions that `ClusterState` makes on them. */
module ClusterRegistry {
  import opened Collections
  import opened TextOrder

  datatype NodeStatus = Online | Offline | Draining

  datatype Node = Node(id: string, address: string, port: int, status: NodeStatus, lastHeartbeat: string, load: int)

  datatype ScanStatus = Pending | Running | Completed | Failed | Other(text: string)

  datatype Scan = Scan(id: string, command: seq<string>, priority: int, owner: Option<string>,
                       createdAt: string, status: ScanStatus)

  type Nodes = map<string, Node>
  type Scans = map<string, Scan>

  datatype State = State(nodes: Nodes, scans: Scans, leader: Option<string>)

  /** Nodes and scans are stored under their own ids. */
  ghost predicate Keyed(s: State) {
    && (forall n | n in s.nodes :: s.nodes[n].id == n)
    && (forall i | i in s.scans :: s.scans[i].id == i)
  }

  // ---- least-loaded target ----

  /** The sort key of an assignment: load first, then node id. */
  predicate LoadLe(a: Node, b: Node) {
    a.load < b.load || (a.load == b.load && Le(a.id, b.id))
  }

  ghost predicate IsOnline(nodes: Nodes, n: string) {
    n in nodes && nodes[n].status.Online?
  }

  ghost predicate KeyedNodes(nodes: Nodes) {
    forall n | n in nodes :: nodes[n].id == n
  }

  ghost predicate LeastLoaded(nodes: Nodes, t: string) {
    IsOnline(nodes, t) && forall m | IsOnline(nodes, m) :: LoadLe(nodes[t], nodes[m])
  }

  lemma LeastLoadedUnique(nodes: Nodes, a: string, b: string)
    requires KeyedNodes(nodes) && LeastLoaded(nodes, a) && LeastLoaded(nodes, b)
    ensures a == b
  {
    assert LoadLe(nodes[a], nodes[b]) && LoadLe(nodes[b], nodes[a]);
    Antisymmetric(a, b);
  }

  lemma LoadLeTransitive(a: Node, b: Node, c: Node)
    requires LoadLe(a, b) && LoadLe(b, c)
    ensures LoadLe(a, c)
  {
    if a.load == b.load == c.load { Transitive(a.id, b.id, c.id); }
  }

  lemma {:induction false} LeastLoadedAmong(nodes: Nodes, among: set<string>) returns (t: string)
    requires among != {} && forall m | m in among :: m in nodes
    ensures t in among && forall m | m in among :: LoadLe(nodes[t], nodes[m])
    decreases among
  {
    var x :| x in among;
    Total(nodes[x].id, nodes[x].id);
    if among == {x} {
      t := x;
    } else {
      var u := LeastLoadedAmong(nodes, among - {x});
      Total(nodes[x].id, nodes[u].id);
      t := if LoadLe(nodes[x], nodes[u]) then x else u;
      forall m | m in among ensures LoadLe(nodes[t], nodes[m]) {
        if m != x && t == x { LoadLeTransitive(nodes[x], nodes[u], nodes[m]); }
      }
    }
  }

  lemma LeastLoadedExists(nodes: Nodes, m: string)
    requires IsOnline(nodes, m)
    ensures exists t :: LeastLoaded(nodes, t)
  {
    var online := set n | n in nodes && IsOnline(nodes, n);
    assert m in online;
    var t := LeastLoadedAmong(nodes, online);
    assert LeastLoaded(nodes, t);
  }

  /** The node that the next unassigned scan goes to, if any node is online. */
  ghost function Target(nodes: Nodes): (r: Option<string>)
    ensures r.Some? ==> LeastLoaded(nodes, r.value)
    ensures r.None? ==> forall m :: !IsOnline(nodes, m)
  {
    if exists m :: IsOnline(nodes, m) then
      var m :| IsOnline(nodes, m);
      LeastLoadedExists(nodes, m);
      var t :| LeastLoaded(nodes, t);
      Some(t)
    else None
  }

  lemma TargetIs(nodes: Nodes, t: string)
    requires KeyedNodes(nodes) && LeastLoaded(nodes, t)
    ensures Target(nodes) == Some(t)
  {
    LeastLoadedUnique(nodes, t, Target(nodes).value);
  }

  // ---- transitions ----

  ghost function Load(nodes: Nodes, n: string): int {
    if n in nodes then nodes[n].load else 0
  }

  function SetLoad(nodes: Nodes, n: string, load: int): Nodes
    requires n in nodes
  {
    nodes[n := nodes[n].(load := load)]
  }

  ghost function Assign(s: State, i: string): State {
    if i !in s.scans || s.scans[i].owner.Some? then s
    else match Target(s.nodes)
      case None => s
      case Some(t) =>
        State(SetLoad(s.nodes, t, s.nodes[t].load + 1),
              s.scans[i := s.scans[i].(owner := Some(t), status := Running)],
              s.leader)
  }

  /** The decrement that completing and failing share: never below zero, and no-one to charge is no-one charged. */
  function Discharge(nodes: Nodes, n: string): Nodes {
    if n in nodes && nodes[n].load > 0 then SetLoad(nodes, n, nodes[n].load - 1) else nodes
  }

  function Complete(s: State, i: string, n: string): State {
    if i !in s.scans then s
    else State(Discharge(s.nodes, n), s.scans[i := s.scans[i].(status := Completed)], s.leader)
  }

  /** `if old_node:` also treats an empty owner as no owner. */
  function Fail(s: State, i: string): State {
    if i !in s.scans then s
    else
      var old_ := s.scans[i].owner;
      State(if old_.Some? && old_.value != "" then Discharge(s.nodes, old_.value) else s.nodes,
            s.scans[i := s.scans[i].(owner := None, status := Pending)],
            s.leader)
  }

  function Heartbeat(s: State, n: string, status: NodeStatus, load: int, stamp: string): State {
    if n !in s.nodes then s
    else s.(nodes := s.nodes[n := s.nodes[n].(status := status, lastHeartbeat := stamp, load := load)])
  }

  /** An assignment takes the lightest online node, of equals the one whose id comes first, and changes its load and the
      scan's owner and status, and nothing else. */
  lemma AssignTakesLightest(s: State, i: string)
    requires KeyedNodes(s.nodes) && i in s.scans && s.scans[i].owner.None? && exists m :: IsOnline(s.nodes, m)
    ensures var s' := Assign(s, i);
            && i in s'.scans && s'.scans[i].owner.Some?
            && var t := s'.scans[i].owner.value;
               && IsOnline(s.nodes, t)
               && (forall m | IsOnline(s.nodes, m) && m != t ::
                     s.nodes[t].load < s.nodes[m].load || (s.nodes[t].load == s.nodes[m].load && ComesBefore(t, m)))
               && s'.scans == s.scans[i := s.scans[i].(owner := Some(t), status := Running)]
               && s'.nodes == s.nodes[t := s.nodes[t].(load := s.nodes[t].load + 1)]
               && s'.leader == s.leader
  {
    var t := Target(s.nodes).value;
    forall m | IsOnline(s.nodes, m) && m != t
      ensures s.nodes[t].load < s.nodes[m].load || (s.nodes[t].load == s.nodes[m].load && ComesBefore(t, m))
    {
      LtIff(t, m);
    }
  }

  // ---- counting running scans ----

  predicate RunsOn(scan: Scan, n: string) {
    scan.status.Running? && scan.owner == Some(n)
  }

  ghost function RunSet(scans: Scans, n: string): set<string> {
    set i | i in scans && RunsOn(scans[i], n)
  }

  ghost function RunCount(scans: Scans, n: string): nat {
    |RunSet(scans, n)|
  }

  lemma RunCountUpdate(scans: Scans, i: string, x: Scan, n: string)
    ensures RunCount(scans[i := x], n)
         == RunCount(scans, n) + (if RunsOn(x, n) then 1 else 0)
                               - (if i in scans && RunsOn(scans[i], n) then 1 else 0)
  {
    var before, after := RunSet(scans, n), RunSet(scans[i := x], n);
    assert after - {i} == before - {i};
    assert |after - {i}| == |after| - (if i in after then 1 else 0);
    assert |before - {i}| == |before| - (if i in before then 1 else 0);
  }

  // ---- the invariant ----

  ghost predicate ScanOk(nodes: Nodes, scan: Scan) {
    && (scan.status.Pending? || scan.status.Running? || scan.status.Completed?)
    && (scan.status.Pending? <==> scan.owner.None?)
    && (scan.owner.Some? ==> scan.owner.value != "")
    && (scan.status.Running? ==> scan.owner.value in nodes)
  }

  ghost predicate WellFormed(s: State) {
    && Keyed(s)
    && "" !in s.nodes
    && forall i | i in s.scans :: ScanOk(s.nodes, s.scans[i])
  }

  /** Every node's load is the number of scans running on it. */
  ghost predicate Accounted(s: State) {
    forall n | n in s.nodes :: s.nodes[n].load == RunCount(s.scans, n)
  }

  ghost predicate Inv(s: State) {
    WellFormed(s) && Accounted(s)
  }

  lemma AssignKeepsInv(s: State, i: string)
    requires Inv(s)
    ensures Inv(Assign(s, i))
    ensures Assign(s, i).scans.Keys == s.scans.Keys
  {
    var s' := Assign(s, i);
    if s' != s {
      forall n | n in s'.nodes ensures s'.nodes[n].load == RunCount(s'.scans, n) {
        RunCountUpdate(s.scans, i, s'.scans[i], n);
      }
    }
  }

  lemma RunningIsCounted(s: State, i: string, n: string)
    requires i in s.scans && RunsOn(s.scans[i], n)
    ensures RunCount(s.scans, n) >= 1
  {
    assert {i} <= RunSet(s.scans, n);
    assert |{i} + (RunSet(s.scans, n) - {i})| >= 1;
    assert {i} + (RunSet(s.scans, n) - {i}) == RunSet(s.scans, n);
  }

  /** The load accounting alone: a running scan must be completed for its owner, and for any other scan there must be
      no load to take away from the node that is named. */
  lemma CompleteKeepsAccountingIff(s: State, i: string, n: string)
    requires Inv(s) && i in s.scans
    ensures Accounted(Complete(s, i, n)) <==>
            if s.scans[i].status.Running? then s.scans[i].owner == Some(n)
            else n !in s.nodes || s.nodes[n].load == 0
  {
    var s' := Complete(s, i, n);
    forall m ensures RunCount(s'.scans, m) == RunCount(s.scans, m) - (if RunsOn(s.scans[i], m) then 1 else 0) {
      RunCountUpdate(s.scans, i, s'.scans[i], m);
    }
    if s.scans[i].status.Running? {
      var o := s.scans[i].owner.value;
      RunningIsCounted(s, i, o);
      if o != n { assert s'.nodes[o].load != RunCount(s'.scans, o); }
    } else if n in s.nodes && s.nodes[n].load != 0 {
      assert s'.nodes[n].load != RunCount(s'.scans, n);
    }
  }

  /** `complete_scan` checks neither status nor owner. The invariant survives exactly when a running scan is completed
      for its owner, or a completed one again for a node without load; a pending scan would be completed unowned. */
  lemma CompleteKeepsInvIff(s: State, i: string, n: string)
    requires Inv(s) && i in s.scans
    ensures Inv(Complete(s, i, n)) <==>
            match s.scans[i].status
            case Running => s.scans[i].owner == Some(n)
            case Completed => n !in s.nodes || s.nodes[n].load == 0
            case _ => false
  {
    hide RunCount;
    CompleteKeepsAccountingIff(s, i, n);
    assert ScanOk(s.nodes, s.scans[i]);
    if s.scans[i].status.Pending? { assert !ScanOk(Complete(s, i, n).nodes, Complete(s, i, n).scans[i]); }
  }

  lemma CompleteByOwnerKeepsInv(s: State, i: string)
    requires Inv(s) && i in s.scans && s.scans[i].status.Running?
    ensures Inv(Complete(s, i, s.scans[i].owner.value))
    ensures Complete(s, i, s.scans[i].owner.value).scans.Keys == s.scans.Keys
  {
    CompleteKeepsInvIff(s, i, s.scans[i].owner.value);
  }

  /** `fail_scan` keeps the invariant exactly when it is not called on a completed scan
      whose former owner still has load to lose. */
  lemma FailKeepsInvIff(s: State, i: string)
    requires Inv(s) && i in s.scans
    ensures Inv(Fail(s, i)) <==> !(s.scans[i].status.Completed? && Load(s.nodes, s.scans[i].owner.value) > 0)
    ensures Fail(s, i).scans.Keys == s.scans.Keys
  {
    var s' := Fail(s, i);
    forall m ensures RunCount(s'.scans, m) == RunCount(s.scans, m) - (if RunsOn(s.scans[i], m) then 1 else 0) {
      RunCountUpdate(s.scans, i, s'.scans[i], m);
    }
    if s.scans[i].owner.Some? {
      var o := s.scans[i].owner.value;
      if s.scans[i].status.Running? {
        RunningIsCounted(s, i, o);
      } else if o in s.nodes && s.nodes[o].load > 0 {
        assert s'.nodes[o].load != RunCount(s'.scans, o);
      }
    }
  }

  /** A heartbeat overwrites the load: the invariant survives exactly the truthful ones. */
  lemma HeartbeatKeepsInvIff(s: State, n: string, status: NodeStatus, load: int, stamp: string)
    requires Inv(s) && n in s.nodes
    ensures Inv(Heartbeat(s, n, status, load, stamp)) <==> load == RunCount(s.scans, n)
  {
    var s' := Heartbeat(s, n, status, load, stamp);
    assert s'.nodes[n].load == load;
  }

  /** Deregistering redistributes nothing: the invariant survives exactly for nodes that run nothing. */
  lemma RemoveKeepsInvIff(s: State, n: string)
    requires Inv(s) && n in s.nodes
    ensures Inv(s.(nodes := s.nodes - {n})) <==> RunCount(s.scans, n) == 0
  {
    var s' := s.(nodes := s.nodes - {n});
    if RunCount(s.scans, n) == 0 {
      forall i | i in s'.scans ensures ScanOk(s'.nodes, s'.scans[i]) {
        assert i !in RunSet(s.scans, n);
      }
    } else {
      var i :| i in RunSet(s.scans, n);
      assert !ScanOk(s'.nodes, s'.scans[i]);
    }
  }
}
