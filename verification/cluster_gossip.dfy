/** `merge_state`: absorbing a peer's snapshot, node by node, scan by scan, then the leader. */
module ClusterGossip {
  import opened Collections
  import opened TextOrder
  import opened Sorting
  import opened ClusterRegistry
  import opened GossipJoin

  datatype Snapshot = Snapshot(nodes: seq<Node>, scans: seq<Scan>, leader: Option<string>)

  function NodeId(n: Node): string { n.id }
  function ScanId(x: Scan): string { x.id }

  predicate HeartbeatLe(a: Node, b: Node) { Le(a.lastHeartbeat, b.lastHeartbeat) }

  /** completed > running > pending > failed and anything else. */
  function Rank(status: ScanStatus): nat {
    match status
    case Completed => 3
    case Running => 2
    case Pending => 1
    case _ => 0
  }

  predicate RankLe(a: Scan, b: Scan) { Rank(a.status) <= Rank(b.status) }

  /** `if remote_leader:` ignores a missing and an empty leader alike. */
  predicate Names(leader: Option<string>) { leader.Some? && leader.value != "" }

  function MergeLeader(mine: Option<string>, theirs: Option<string>): Option<string> {
    if Names(theirs) then theirs else mine
  }

  function Merge(s: State, snap: Snapshot): State {
    State(AbsorbAll(s.nodes, snap.nodes, NodeId, HeartbeatLe),
          AbsorbAll(s.scans, snap.scans, ScanId, RankLe),
          MergeLeader(s.leader, snap.leader))
  }

  /** `snap` is a snapshot of `s`, its lists in any order. */
  ghost predicate IsSnapshot(snap: Snapshot, s: State) {
    && Entries(snap.nodes, s.nodes, NodeId)
    && Entries(snap.scans, s.scans, ScanId)
    && snap.leader == s.leader
  }

  lemma VersionsAreOrdered()
    ensures TotalPreorder(HeartbeatLe) && TotalPreorder(RankLe)
  {
    forall a: Node, b: Node ensures HeartbeatLe(a, b) || HeartbeatLe(b, a) {
      Total(a.lastHeartbeat, b.lastHeartbeat);
    }
    forall a: Node, b: Node, c: Node | HeartbeatLe(a, b) && HeartbeatLe(b, c) ensures HeartbeatLe(a, c) {
      Transitive(a.lastHeartbeat, b.lastHeartbeat, c.lastHeartbeat);
    }
  }

  /** The merge loops compute the join of the two registries, losing no node and no scan. */
  lemma MergeIsJoin(a: State, b: State, snap: Snapshot)
    requires IsSnapshot(snap, b)
    ensures Merge(a, snap) == State(Join(a.nodes, b.nodes, HeartbeatLe), Join(a.scans, b.scans, RankLe),
                                    MergeLeader(a.leader, b.leader))
    ensures Merge(a, snap).nodes.Keys == a.nodes.Keys + b.nodes.Keys
    ensures Merge(a, snap).scans.Keys == a.scans.Keys + b.scans.Keys
  {
    AbsorbAllIsJoin(a.nodes, snap.nodes, b.nodes, NodeId, HeartbeatLe);
    AbsorbAllIsJoin(a.scans, snap.scans, b.scans, ScanId, RankLe);
  }

  /** What a merge does to a scan that both sides know, status by status: a finished scan stays finished, on whichever
      side it was; a running one runs on unless the other side has finished it; a waiting one never turns into a failed
      one. A tie goes to the peer. */
  lemma MergedScan(a: State, b: State, snap: Snapshot, i: string)
    requires IsSnapshot(snap, b) && i in a.scans && i in b.scans
    ensures var m, x, y := Merge(a, snap).scans, a.scans[i], b.scans[i];
            && i in m && (m[i] == x || m[i] == y)
            && (m[i].status.Completed? <==> x.status.Completed? || y.status.Completed?)
            && (m[i].status.Running? <==>
                  !m[i].status.Completed? && (x.status.Running? || y.status.Running?))
            && (m[i].status.Pending? <==>
                  !m[i].status.Completed? && !m[i].status.Running? && (x.status.Pending? || y.status.Pending?))
            && (x.status == y.status ==> m[i] == y)
  {
    MergeIsJoin(a, b, snap);
  }

  /** What a merge does to a node that both sides know: the later stamp wins, and a tie goes to the peer. */
  lemma MergedNode(a: State, b: State, snap: Snapshot, n: string)
    requires IsSnapshot(snap, b) && n in a.nodes && n in b.nodes
    ensures var m := Merge(a, snap).nodes;
            n in m && m[n] == if ComesBefore(b.nodes[n].lastHeartbeat, a.nodes[n].lastHeartbeat) then a.nodes[n]
                              else b.nodes[n]
  {
    MergeIsJoin(a, b, snap);
    LtIff(a.nodes[n].lastHeartbeat, b.nodes[n].lastHeartbeat);
  }

  /** What only one side knows is kept as it is, and the peer's leader is taken over when it names one. */
  lemma MergedRest(a: State, b: State, snap: Snapshot)
    requires IsSnapshot(snap, b)
    ensures var m := Merge(a, snap);
            && (forall n | n in m.nodes && n !in b.nodes :: n in a.nodes && m.nodes[n] == a.nodes[n])
            && (forall n | n in m.nodes && n !in a.nodes :: n in b.nodes && m.nodes[n] == b.nodes[n])
            && (forall i | i in m.scans && i !in b.scans :: i in a.scans && m.scans[i] == a.scans[i])
            && (forall i | i in m.scans && i !in a.scans :: i in b.scans && m.scans[i] == b.scans[i])
            && m.leader == if b.leader.Some? && b.leader.value != "" then b.leader else a.leader
  {
    MergeIsJoin(a, b, snap);
  }

  /** A finished scan is never lost: once any node has it as completed, it is completed for good in every registry that
      the result reaches. */
  lemma {:induction false} FinishedStaysFinished(s: State, snaps: seq<Snapshot>, peers: seq<State>, i: string)
    requires AreSnapshots(snaps, peers)
    requires (i in s.scans && s.scans[i].status.Completed?)
          || exists p | p in peers :: i in p.scans && p.scans[i].status.Completed?
    ensures var m := MergeAll(s, snaps); i in m.scans && m.scans[i].status.Completed?
    decreases |snaps|
  {
    if snaps != [] {
      hide Merge, IsSnapshot;
      MergeIsJoin(s, peers[0], snaps[0]);
      MergedRest(s, peers[0], snaps[0]);
      if i in s.scans && i in peers[0].scans { MergedScan(s, peers[0], snaps[0], i); }
      FinishedStaysFinished(Merge(s, snaps[0]), snaps[1..], peers[1..], i);
    }
  }

  /** One exchange makes two peers identical: A merges B's snapshot, then B merges A's new one.
      Leaders end up equal whenever either names one. */
  lemma ExchangeIdentical(a: State, b: State, fromB: Snapshot, fromA: Snapshot)
    requires IsSnapshot(fromB, b) && IsSnapshot(fromA, Merge(a, fromB))
    ensures var a' := Merge(a, fromB); var b' := Merge(b, fromA);
            && b'.nodes == a'.nodes
            && b'.scans == a'.scans
            && (b'.leader == a'.leader || !(Names(a.leader) || Names(b.leader)))
  {
    var a' := Merge(a, fromB);
    VersionsAreOrdered();
    MergeIsJoin(a, b, fromB);
    MergeIsJoin(b, a', fromA);
    ExchangeConverges(a.nodes, b.nodes, HeartbeatLe);
    ExchangeConverges(a.scans, b.scans, RankLe);
  }

  /** What agreement on versions means: the same nodes with the same stamps, and the same scans, of which the same are
      finished, running and waiting. */
  lemma AgreedIs(a: State, b: State)
    requires Agree(a.nodes, b.nodes, HeartbeatLe) && Agree(a.scans, b.scans, RankLe)
    ensures a.nodes.Keys == b.nodes.Keys && a.scans.Keys == b.scans.Keys
    ensures forall n | n in a.nodes :: a.nodes[n].lastHeartbeat == b.nodes[n].lastHeartbeat
    ensures forall i | i in a.scans ::
              var x, y := a.scans[i].status, b.scans[i].status;
              (x.Completed? <==> y.Completed?) && (x.Running? <==> y.Running?) && (x.Pending? <==> y.Pending?)
  {
    forall n | n in a.nodes ensures a.nodes[n].lastHeartbeat == b.nodes[n].lastHeartbeat {
      Antisymmetric(a.nodes[n].lastHeartbeat, b.nodes[n].lastHeartbeat);
    }
  }

  /** Two peers that hear each other's old snapshots agree on every heartbeat and every status rank. */
  lemma CrossMergeAgrees(a: State, b: State, fromA: Snapshot, fromB: Snapshot)
    requires IsSnapshot(fromA, a) && IsSnapshot(fromB, b)
    ensures var m, n := Merge(a, fromB), Merge(b, fromA);
            && m.nodes.Keys == n.nodes.Keys && m.scans.Keys == n.scans.Keys
            && (forall k | k in m.nodes :: m.nodes[k].lastHeartbeat == n.nodes[k].lastHeartbeat)
            && forall i | i in m.scans ::
                 var x, y := m.scans[i].status, n.scans[i].status;
                 (x.Completed? <==> y.Completed?) && (x.Running? <==> y.Running?) && (x.Pending? <==> y.Pending?)
  {
    VersionsAreOrdered();
    MergeIsJoin(a, b, fromB);
    MergeIsJoin(b, a, fromA);
    JoinCommutes(a.nodes, b.nodes, HeartbeatLe);
    JoinCommutes(a.scans, b.scans, RankLe);
    AgreedIs(Merge(a, fromB), Merge(b, fromA));
  }

  // ---- any number of peers ----

  ghost function MergeAll(s: State, snaps: seq<Snapshot>): State
    decreases |snaps|
  {
    if snaps == [] then s else MergeAll(Merge(s, snaps[0]), snaps[1..])
  }

  ghost predicate AreSnapshots(snaps: seq<Snapshot>, peers: seq<State>) {
    |snaps| == |peers| && forall i | 0 <= i < |snaps| :: IsSnapshot(snaps[i], peers[i])
  }

  function NodesOf(s: State): Nodes { s.nodes }
  function ScansOf(s: State): Scans { s.scans }

  lemma {:induction false} MergeAllIsJoinAll(s: State, snaps: seq<Snapshot>, peers: seq<State>)
    requires AreSnapshots(snaps, peers)
    ensures MergeAll(s, snaps).nodes == JoinAll(s.nodes, peers, NodesOf, HeartbeatLe)
    ensures MergeAll(s, snaps).scans == JoinAll(s.scans, peers, ScansOf, RankLe)
    decreases |snaps|
  {
    if snaps != [] {
      hide Merge, IsSnapshot, Join;
      MergeIsJoin(s, peers[0], snaps[0]);
      MergeAllIsJoinAll(Merge(s, snaps[0]), snaps[1..], peers[1..]);
    }
  }

  /** Gossip converges: two nodes, each with a registry of its own, that have heard each other and the same peers, in
      whatever order and however often, hold the same heartbeats and the same status ranks. */
  lemma GossipOrderIrrelevant(s: State, t: State, ps: seq<State>, qs: seq<State>, fromPs: seq<Snapshot>,
                              fromQs: seq<Snapshot>)
    requires AreSnapshots(fromPs, ps) && AreSnapshots(fromQs, qs)
    requires forall p :: (p == s || p in ps) <==> (p == t || p in qs)
    ensures var a, b := MergeAll(s, fromPs), MergeAll(t, fromQs);
            && a.nodes.Keys == b.nodes.Keys && a.scans.Keys == b.scans.Keys
            && (forall n | n in a.nodes :: a.nodes[n].lastHeartbeat == b.nodes[n].lastHeartbeat)
            && forall i | i in a.scans ::
                 var x, y := a.scans[i].status, b.scans[i].status;
                 (x.Completed? <==> y.Completed?) && (x.Running? <==> y.Running?) && (x.Pending? <==> y.Pending?)
  {
    hide MergeAll, AreSnapshots, Agree, HeartbeatLe, RankLe;
    VersionsAreOrdered();
    MergeAllIsJoinAll(s, fromPs, ps);
    MergeAllIsJoinAll(t, fromQs, qs);
    GossipConverges(s, t, ps, qs, NodesOf, HeartbeatLe);
    GossipConverges(s, t, ps, qs, ScansOf, RankLe);
    AgreedIs(MergeAll(s, fromPs), MergeAll(t, fromQs));
  }

  // ---- a whole cluster that gossips ----

  /** Node `to` merges a snapshot of what node `from` holds by now. */
  datatype Exchange = Exchange(to: nat, from: nat, snap: Snapshot)

  ghost predicate Genuine(cluster: seq<State>, x: Exchange) {
    x.to < |cluster| && x.from < |cluster| && IsSnapshot(x.snap, cluster[x.from])
  }

  function Deliver(cluster: seq<State>, x: Exchange): seq<State>
    requires x.to < |cluster|
  {
    cluster[x.to := Merge(cluster[x.to], x.snap)]
  }

  ghost predicate GossipRun(cluster: seq<State>, xs: seq<Exchange>)
    decreases |xs|
  {
    xs != [] ==> Genuine(cluster, xs[0]) && GossipRun(Deliver(cluster, xs[0]), xs[1..])
  }

  ghost function Gossiped(cluster: seq<State>, xs: seq<Exchange>): (after: seq<State>)
    requires GossipRun(cluster, xs)
    ensures |after| == |cluster|
    decreases |xs|
  {
    if xs == [] then cluster else Gossiped(Deliver(cluster, xs[0]), xs[1..])
  }

  /** Whose registry each node has heard of, at first hand or through others. */
  function Heard(heard: seq<set<nat>>, xs: seq<Exchange>): (after: seq<set<nat>>)
    ensures |after| == |heard|
    decreases |xs|
  {
    if xs == [] then heard
    else
      var x := xs[0];
      Heard(if x.to < |heard| && x.from < |heard| then heard[x.to := heard[x.to] + heard[x.from]] else heard, xs[1..])
  }

  function Themselves(n: nat): (heard: seq<set<nat>>)
    ensures |heard| == n
  {
    seq(n, i requires 0 <= i < n => {i})
  }

  function NodeParts(cluster: seq<State>): (parts: seq<Nodes>)
    ensures |parts| == |cluster| && forall i | 0 <= i < |cluster| :: parts[i] == cluster[i].nodes
  {
    seq(|cluster|, i requires 0 <= i < |cluster| => cluster[i].nodes)
  }

  function ScanParts(cluster: seq<State>): (parts: seq<Scans>)
    ensures |parts| == |cluster| && forall i | 0 <= i < |cluster| :: parts[i] == cluster[i].scans
  {
    seq(|cluster|, i requires 0 <= i < |cluster| => cluster[i].scans)
  }

  /** Each node holds what the nodes it has heard of held at first. */
  ghost predicate Informed(first: seq<State>, cluster: seq<State>, heard: seq<set<nat>>) {
    |cluster| == |heard|
    && forall i | 0 <= i < |cluster| :: && Sums(NodeParts(first), heard[i], cluster[i].nodes, HeartbeatLe)
                                        && Sums(ScanParts(first), heard[i], cluster[i].scans, RankLe)
  }

  lemma DeliverInforms(first: seq<State>, cluster: seq<State>, heard: seq<set<nat>>, x: Exchange)
    requires Informed(first, cluster, heard) && Genuine(cluster, x)
    ensures Informed(first, Deliver(cluster, x), heard[x.to := heard[x.to] + heard[x.from]])
  {
    hide Sums, Merge, IsSnapshot, HeartbeatLe, RankLe;
    var a, b := cluster[x.to], cluster[x.from];
    VersionsAreOrdered();
    MergeIsJoin(a, b, x.snap);
    SumsJoined(NodeParts(first), heard[x.to], a.nodes, heard[x.from], b.nodes, HeartbeatLe);
    SumsJoined(ScanParts(first), heard[x.to], a.scans, heard[x.from], b.scans, RankLe);
  }

  lemma {:induction false} GossipInforms(first: seq<State>, cluster: seq<State>, heard: seq<set<nat>>,
                                         xs: seq<Exchange>)
    requires Informed(first, cluster, heard) && GossipRun(cluster, xs)
    ensures Informed(first, Gossiped(cluster, xs), Heard(heard, xs))
    decreases |xs|
  {
    hide Informed, Deliver;
    if xs != [] {
      var x := xs[0];
      assert |cluster| == |heard| by { SameLength(first, cluster, heard); }
      DeliverInforms(first, cluster, heard, x);
      GossipInforms(first, Deliver(cluster, x), heard[x.to := heard[x.to] + heard[x.from]], xs[1..]);
    }
  }

  lemma SameLength(first: seq<State>, cluster: seq<State>, heard: seq<set<nat>>)
    requires Informed(first, cluster, heard)
    ensures |cluster| == |heard|
  {
  }

  lemma StartInformed(first: seq<State>)
    ensures Informed(first, first, Themselves(|first|))
  {
    hide Sums, HeartbeatLe, RankLe;
    VersionsAreOrdered();
    forall i | 0 <= i < |first|
      ensures Sums(NodeParts(first), Themselves(|first|)[i], first[i].nodes, HeartbeatLe)
      ensures Sums(ScanParts(first), Themselves(|first|)[i], first[i].scans, RankLe)
    {
      SumsItself(NodeParts(first), i, HeartbeatLe);
      SumsItself(ScanParts(first), i, RankLe);
    }
  }

  /** In any run of a cluster in which snapshots are taken of registries that have merged others before, nodes that
      have heard of the same nodes agree on every heartbeat and status rank. */
  lemma GossipRunAgrees(first: seq<State>, xs: seq<Exchange>, i: nat, j: nat)
    requires GossipRun(first, xs) && i < |first| && j < |first|
    requires Heard(Themselves(|first|), xs)[i] == Heard(Themselves(|first|), xs)[j]
    ensures var a, b := Gossiped(first, xs)[i], Gossiped(first, xs)[j];
            && a.nodes.Keys == b.nodes.Keys && a.scans.Keys == b.scans.Keys
            && (forall n | n in a.nodes :: a.nodes[n].lastHeartbeat == b.nodes[n].lastHeartbeat)
            && forall i | i in a.scans ::
                 var x, y := a.scans[i].status, b.scans[i].status;
                 (x.Completed? <==> y.Completed?) && (x.Running? <==> y.Running?) && (x.Pending? <==> y.Pending?)
  {
    hide Sums, HeartbeatLe, RankLe, Gossiped, Heard, Agree;
    StartInformed(first);
    GossipInforms(first, first, Themselves(|first|), xs);
    var after, heard := Gossiped(first, xs), Heard(Themselves(|first|), xs);
    SumsAgree(NodeParts(first), heard[i], after[i].nodes, after[j].nodes, HeartbeatLe);
    SumsAgree(ScanParts(first), heard[i], after[i].scans, after[j].scans, RankLe);
    AgreedIs(after[i], after[j]);
  }
}
