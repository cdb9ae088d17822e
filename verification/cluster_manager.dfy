/** The mutable side of `cluster/manager.py`: the in-memory backend, `ClusterState` and `ClusterManager`.
    Each method is proved against the registry transitions of ClusterRegistry. */
module ClusterManager {
  import opened Collections
  import opened TextOrder
  import opened Sorting
  import opened ClusterRegistry
  import opened ClusterFailover
  import opened ClusterRuns
  import opened ClusterGossip
  import opened GossipJoin

  /** `MemoryStateBackend`: two insertion-ordered dicts and the stored leader. */
  class MemoryStateBackend {
    var nodes: Dict<string, Node>
    var scans: Dict<string, Scan>
    var leaderId: Option<string>

    ghost function Registry(): State
      reads this
    {
      State(nodes.items, scans.items, leaderId)
    }

    constructor ()
      ensures Registry() == State(map[], map[], None)
    {
      nodes := DictRep([], map[]);
      scans := DictRep([], map[]);
      leaderId := None;
    }

    method SaveNode(node: Node)
      modifies `nodes
      ensures nodes.items == old(nodes.items)[node.id := node]
    {
      nodes := nodes.Put(node.id, node);
    }

    method LoadNode(id: string) returns (r: Option<Node>)
      ensures r == if id in nodes.items then Some(nodes.items[id]) else None
    {
      r := if id in nodes.items then Some(nodes.items[id]) else None;
    }

    /** In insertion order; under their own ids, every node that is stored and no other. */
    method LoadAllNodes() returns (r: seq<Node>)
      ensures |r| == |nodes.keys|
      ensures forall i | 0 <= i < |r| :: nodes.keys[i] in nodes.items && r[i] == nodes.items[nodes.keys[i]]
      ensures KeyedNodes(nodes.items) ==> forall n :: n in r <==> n.id in nodes.items && nodes.items[n.id] == n
    {
      r := nodes.Values();
      if KeyedNodes(nodes.items) { ValuesAre(nodes); }
    }

    method DeleteNode(id: string)
      modifies `nodes
      ensures nodes.items == old(nodes.items) - {id}
    {
      nodes := nodes.Pop(id);
    }

    method SaveScan(scan: Scan)
      modifies `scans
      ensures scans.items == old(scans.items)[scan.id := scan]
      ensures scan.id in old(scans.items) ==> scans.keys == old(scans.keys)
    {
      scans := scans.Put(scan.id, scan);
    }

    method LoadScan(id: string) returns (r: Option<Scan>)
      ensures r == if id in scans.items then Some(scans.items[id]) else None
    {
      r := if id in scans.items then Some(scans.items[id]) else None;
    }

    method LoadAllScans() returns (r: seq<Scan>)
      ensures |r| == |scans.keys|
      ensures forall i | 0 <= i < |r| :: scans.keys[i] in scans.items && r[i] == scans.items[scans.keys[i]]
    {
      r := scans.Values();
    }
  }

  // ---- orders and listings ----

  predicate IdLe(a: Node, b: Node) { Le(a.id, b.id) }

  lemma NodeOrders()
    ensures TotalPreorder(IdLe) && TotalPreorder(LoadLe)
  {
    forall a: Node, b: Node ensures (IdLe(a, b) || IdLe(b, a)) && (LoadLe(a, b) || LoadLe(b, a)) {
      Total(a.id, b.id);
    }
    forall a: Node, b: Node, c: Node ensures IdLe(a, b) && IdLe(b, c) ==> IdLe(a, c)
      ensures LoadLe(a, b) && LoadLe(b, c) ==> LoadLe(a, c)
    {
      if IdLe(a, b) && IdLe(b, c) { Transitive(a.id, b.id, c.id); }
      if LoadLe(a, b) && LoadLe(b, c) { LoadLeTransitive(a, b, c); }
    }
  }

  lemma ValuesAre(d: Dict<string, Node>)
    requires KeyedNodes(d.items)
    ensures forall n :: n in d.Values() <==> n.id in d.items && d.items[n.id] == n
  {
    forall n: Node | n.id in d.items && d.items[n.id] == n ensures n in d.Values() {
      assert n.id in d.keys;
      var i :| 0 <= i < |d.keys| && d.keys[i] == n.id;
      assert d.Values()[i] == n;
    }
  }

  /** Sorting by (load, node id) puts the least-loaded node first. */
  lemma FirstIsLeastLoaded(d: Dict<string, Node>, online: seq<Node>)
    requires KeyedNodes(d.items)
    requires online == Filter(d.Values(), (n: Node) => n.status.Online?)
    ensures online == [] ==> forall m :: !IsOnline(d.items, m)
    ensures online != [] ==> |StableSort(online, LoadLe)| > 0 && LeastLoaded(d.items, StableSort(online, LoadLe)[0].id)
                             && d.items[StableSort(online, LoadLe)[0].id] == StableSort(online, LoadLe)[0]
  {
    var p := (n: Node) => n.status.Online?;
    var sorted := StableSort(online, LoadLe);
    ValuesAre(d);
    FilterMembers(d.Values(), p);
    SortMembers(online, LoadLe);
    SortElements(online, LoadLe);
    NodeOrders();
    SortSorted(online, LoadLe);
    forall m | IsOnline(d.items, m) ensures online != [] && LoadLe(sorted[0], d.items[m]) {
      assert d.items[m] in sorted;
      var k :| 0 <= k < |sorted| && sorted[k] == d.items[m];
      Total(m, m);
    }
    if online != [] { assert sorted[0] in sorted; }
  }

  class ClusterState {
    const backend: MemoryStateBackend

    constructor (backend: MemoryStateBackend)
      ensures this.backend == backend
    {
      this.backend := backend;
    }

    method AddNode(node: Node)
      modifies backend
      ensures backend.Registry() == old(backend.Registry()).(nodes := old(backend.nodes.items)[node.id := node])
      ensures Next(old(backend.Registry()), Step.AddNode(node), backend.Registry())
    {
      backend.SaveNode(node);
    }

    method RemoveNode(id: string)
      modifies backend
      ensures backend.Registry() == old(backend.Registry()).(nodes := old(backend.nodes.items) - {id})
      ensures Next(old(backend.Registry()), Step.RemoveNode(id), backend.Registry())
    {
      backend.DeleteNode(id);
    }

    /** Nodes of one status, sorted by `node_id`. */
    method ListNodes(status: NodeStatus) returns (r: seq<Node>)
      requires KeyedNodes(backend.nodes.items)
      ensures forall n :: n in r <==>
                n.id in backend.nodes.items && backend.nodes.items[n.id] == n && n.status == status
      ensures SortedBy(r, IdLe)
    {
      var nodes := backend.LoadAllNodes();
      var p := (n: Node) => n.status == status;
      FilterMembers(nodes, p);
      nodes := Filter(nodes, p);
      r := StableSort(nodes, IdLe);
      SortMembers(nodes, IdLe);
      NodeOrders();
      SortSorted(nodes, IdLe);
    }

    method AddScan(scan: Scan)
      modifies backend
      ensures backend.Registry() == old(backend.Registry()).(scans := old(backend.scans.items)[scan.id := scan])
      ensures Next(old(backend.Registry()), Step.AddScan(scan), backend.Registry())
    {
      backend.SaveScan(scan);
    }

    method AssignScan(i: string) returns (r: Option<Node>)
      requires Keyed(backend.Registry())
      modifies backend
      ensures backend.Registry() == Assign(old(backend.Registry()), i)
      ensures Next(old(backend.Registry()), Step.AssignScan(i), backend.Registry())
      ensures backend.scans.keys == old(backend.scans.keys)
      ensures r == if i !in backend.scans.items then None
                   else match backend.scans.items[i].owner
                     case Some(o) => if o in backend.nodes.items then Some(backend.nodes.items[o]) else None
                     case None => None
    {
      var found := backend.LoadScan(i);
      if found.None? { return None; }
      var scan := found.value;
      if scan.owner.Some? {
        r := backend.LoadNode(scan.owner.value);
        return;
      }
      var found' := LeastLoadedNode();
      if found'.None? { return None; }
      r := RunOn(scan, found'.value);
    }

    /** The update half of an assignment. */
    method RunOn(pending: Scan, least: Node) returns (r: Option<Node>)
      requires Keyed(backend.Registry())
      requires pending.id in backend.scans.items && backend.scans.items[pending.id] == pending
      requires least.id in backend.nodes.items && backend.nodes.items[least.id] == least
      modifies backend
      ensures backend.Registry()
           == State(SetLoad(old(backend.nodes.items), least.id, least.load + 1),
                    old(backend.scans.items)[pending.id := pending.(owner := Some(least.id), status := Running)],
                    old(backend.leaderId))
      ensures backend.scans.keys == old(backend.scans.keys)
      ensures r == Some(backend.nodes.items[least.id])
    {
      hide Keyed;
      var scan := pending.(owner := Some(least.id), status := Running);
      var target := least.(load := least.load + 1);
      backend.SaveScan(scan);
      backend.SaveNode(target);
      r := Some(target);
    }

    /** The head of the online nodes sorted by (load, node id). */
    method LeastLoadedNode() returns (r: Option<Node>)
      requires KeyedNodes(backend.nodes.items)
      ensures match Target(backend.nodes.items)
              case None => r.None?
              case Some(t) => r == Some(backend.nodes.items[t])
    {
      var all := backend.LoadAllNodes();
      assert all == backend.nodes.Values();
      var online := Filter(all, (n: Node) => n.status.Online?);
      FirstIsLeastLoaded(backend.nodes, online);
      if online == [] { return None; }
      r := Some(StableSort(online, LoadLe)[0]);
      TargetIs(backend.nodes.items, r.value.id);
    }

    method CompleteScan(i: string, n: string)
      requires Keyed(backend.Registry())
      modifies backend
      ensures backend.Registry() == Complete(old(backend.Registry()), i, n)
      ensures Next(old(backend.Registry()), Step.CompleteScan(i, n), backend.Registry())
      ensures i in old(backend.scans.items) ==>
                && backend.scans.items
                   == old(backend.scans.items)[i := old(backend.scans.items)[i].(status := Completed)]
                && backend.nodes.items.Keys == old(backend.nodes.items.Keys)
                && forall m | m in backend.nodes.items ::
                     var was := old(backend.nodes.items)[m];
                     backend.nodes.items[m] == if m == n && was.load > 0 then was.(load := was.load - 1) else was
      ensures i !in old(backend.scans.items) ==> backend.Registry() == old(backend.Registry())
      ensures backend.leaderId == old(backend.leaderId)
      ensures backend.scans.keys == old(backend.scans.keys)
    {
      var found := backend.LoadScan(i);
      if found.None? { return; }
      backend.SaveScan(found.value.(status := Completed));
      var node := backend.LoadNode(n);
      if node.Some? && node.value.load > 0 {
        backend.SaveNode(node.value.(load := node.value.load - 1));
      }
    }

    method FailScan(i: string)
      requires Keyed(backend.Registry())
      modifies backend
      ensures backend.Registry() == Fail(old(backend.Registry()), i)
      ensures Next(old(backend.Registry()), Step.FailScan(i), backend.Registry())
      ensures i in old(backend.scans.items) ==>
                var scan := old(backend.scans.items)[i];
                && backend.scans.items == old(backend.scans.items)[i := scan.(status := Pending, owner := None)]
                   && backend.nodes.items.Keys == old(backend.nodes.items.Keys)
                && forall m | m in backend.nodes.items ::
                     var was := old(backend.nodes.items)[m];
                     backend.nodes.items[m] == if m != "" && scan.owner == Some(m) && was.load > 0
                                               then was.(load := was.load - 1) else was
      ensures i !in old(backend.scans.items) ==> backend.Registry() == old(backend.Registry())
      ensures backend.leaderId == old(backend.leaderId)
      ensures backend.scans.keys == old(backend.scans.keys)
    {
      var found := backend.LoadScan(i);
      if found.None? { return; }
      var oldNode := found.value.owner;
      backend.SaveScan(found.value.(status := Pending, owner := None));
      if oldNode.Some? && oldNode.value != "" {
        var node := backend.LoadNode(oldNode.value);
        if node.Some? && node.value.load > 0 {
          backend.SaveNode(node.value.(load := node.value.load - 1));
        }
      }
    }

    /** The ids of all scans with this owner, whatever their status, once each and in backend order. */
    method GetScansForNode(n: string) returns (ids: seq<string>)
      requires Keyed(backend.Registry())
      ensures Lists(ids, backend.scans.items, n)
      ensures ids == ClusterRuns.ScansOf(backend.scans.keys, backend.scans.items, n)
    {
      var scans := backend.LoadAllScans();
      ghost var keys, items := backend.scans.keys, backend.scans.items;
      ids := [];
      for k := 0 to |scans|
        invariant ids == ClusterRuns.ScansOf(keys[..k], items, n)
      {
        ScansOfNext(keys, items, n, k);
        if scans[k].owner == Some(n) {
          ids := ids + [scans[k].id];
        }
      }
      assert keys[..|keys|] == keys;
      ScansOfLists(keys, items, n);
    }

    method ElectLeader() returns (r: Option<string>)
      requires KeyedNodes(backend.nodes.items)
      modifies backend
      ensures Elected(old(backend.Registry()), backend.Registry())
      ensures Next(old(backend.Registry()), Step.ElectLeader, backend.Registry())
      ensures r.Some? <==> exists m :: IsOnline(backend.nodes.items, m)
      ensures r.Some? ==> r == backend.leaderId
    {
      var online := ListNodes(Online);
      assert forall m | IsOnline(backend.nodes.items, m) :: backend.nodes.items[m] in online;
      if online == [] { return None; }
      var leader := online[0];
      assert leader in online;
      forall m | IsOnline(backend.nodes.items, m) ensures Le(leader.id, m) {
        assert backend.nodes.items[m] in online;
        var k :| 0 <= k < |online| && online[k] == backend.nodes.items[m];
        Total(m, m);
        if k > 0 { assert IdLe(online[0], online[k]); }
      }
      backend.leaderId := Some(leader.id);
      r := Some(leader.id);
    }

    method GetStateSnapshot() returns (snap: Snapshot)
      requires Keyed(backend.Registry())
      ensures IsSnapshot(snap, backend.Registry())
    {
      var nodes := backend.LoadAllNodes();
      var scans := backend.LoadAllScans();
      snap := Snapshot(nodes, scans, backend.leaderId);
      assert nodes == backend.nodes.Values() && scans == backend.scans.Values();
      hide Entries;
      ValuesAreEntries(backend.nodes, NodeId);
      ValuesAreEntries(backend.scans, ScanId);
    }

    method MergeState(snap: Snapshot)
      requires Keyed(backend.Registry())
      modifies backend
      ensures backend.Registry() == Merge(old(backend.Registry()), snap)
      ensures Keyed(backend.Registry())
    {
      MergeNodes(snap.nodes);
      MergeScans(snap.scans);
      if snap.leader.Some? && snap.leader.value != "" {
        backend.leaderId := snap.leader;
      }
    }

    method MergeNodes(remote: seq<Node>)
      requires KeyedNodes(backend.nodes.items)
      modifies backend`nodes
      ensures backend.nodes.items == AbsorbAll(old(backend.nodes.items), remote, NodeId, HeartbeatLe)
      ensures KeyedNodes(backend.nodes.items)
    {
      for k := 0 to |remote|
        invariant KeyedNodes(backend.nodes.items)
        invariant AbsorbAll(backend.nodes.items, remote[k..], NodeId, HeartbeatLe)
               == AbsorbAll(old(backend.nodes.items), remote, NodeId, HeartbeatLe)
      {
        assert remote[k..][1..] == remote[k + 1..];
        var local := backend.LoadNode(remote[k].id);
        if local.None? || Le(local.value.lastHeartbeat, remote[k].lastHeartbeat) {
          backend.SaveNode(remote[k]);
        }
      }
    }

    method MergeScans(remote: seq<Scan>)
      requires forall i | i in backend.scans.items :: backend.scans.items[i].id == i
      modifies backend`scans
      ensures backend.scans.items == AbsorbAll(old(backend.scans.items), remote, ScanId, RankLe)
      ensures forall i | i in backend.scans.items :: backend.scans.items[i].id == i
    {
      for k := 0 to |remote|
        invariant forall i | i in backend.scans.items :: backend.scans.items[i].id == i
        invariant AbsorbAll(backend.scans.items, remote[k..], ScanId, RankLe)
               == AbsorbAll(old(backend.scans.items), remote, ScanId, RankLe)
      {
        assert remote[k..][1..] == remote[k + 1..];
        var local := backend.LoadScan(remote[k].id);
        if local.None? {
          backend.SaveScan(remote[k]);
        } else {
          var remotePriority, localPriority := Rank(remote[k].status), Rank(local.value.status);
          if remotePriority >= localPriority {
            backend.SaveScan(remote[k]);
          }
        }
      }
    }
  }

  class Manager {
    const state: ClusterState
    const nodeId: string
    const heartbeatTimeout: int
    const maxMissedHeartbeats: int

    constructor (state: ClusterState, nodeId: string, heartbeatTimeout: int, maxMissedHeartbeats: int)
      ensures this.state == state && this.nodeId == nodeId
      ensures this.heartbeatTimeout == heartbeatTimeout && this.maxMissedHeartbeats == maxMissedHeartbeats
    {
      this.state := state;
      this.nodeId := nodeId;
      this.heartbeatTimeout := heartbeatTimeout;
      this.maxMissedHeartbeats := maxMissedHeartbeats;
    }

    method AssignScan(request: Scan) returns (r: Option<Node>)
      requires Keyed(state.backend.Registry())
      modifies state.backend
      ensures state.backend.Registry()
           == Assign(old(state.backend.Registry()).(scans := old(state.backend.scans.items)[request.id := request]),
                     request.id)
      ensures r == match state.backend.scans.items[request.id].owner
                   case Some(o) => if o in state.backend.nodes.items then Some(state.backend.nodes.items[o]) else None
                   case None => None
    {
      state.AddScan(request);
      r := state.AssignScan(request.id);
    }

    method HandleHeartbeat(id: string, status: NodeStatus, load: int, now: string) returns (r: Option<Node>)
      requires Keyed(state.backend.Registry())
      modifies state.backend
      ensures state.backend.Registry() == Heartbeat(old(state.backend.Registry()), id, status, load, now)
      ensures Next(old(state.backend.Registry()), HeartbeatFrom(id, status, load, now), state.backend.Registry())
      ensures r.Some? <==> id in old(state.backend.nodes.items)
      ensures r.Some? ==>
                && r.value == old(state.backend.nodes.items)[id].(status := status, lastHeartbeat := now, load := load)
                && state.backend.nodes.items == old(state.backend.nodes.items)[id := r.value]
      ensures r.None? ==> state.backend.nodes.items == old(state.backend.nodes.items)
      ensures state.backend.scans.items == old(state.backend.scans.items)
      ensures state.backend.leaderId == old(state.backend.leaderId)
    {
      var node := state.backend.LoadNode(id);
      if node.None? { return None; }
      r := Some(node.value.(status := status, lastHeartbeat := now, load := load));
      state.backend.SaveNode(r.value);
    }

    /** Fail and reassign scan after scan. */
    method RedistributeScans(id: string, failedScans: seq<string>) returns (redistributed: seq<string>)
      requires Sweeping(state.backend.Registry(), id, failedScans)
      modifies state.backend
      ensures redistributed == failedScans
      ensures state.backend.Registry() == Redistribute(old(state.backend.Registry()), failedScans)
      ensures state.backend.scans.keys == old(state.backend.scans.keys)
    {
      hide Sweeping, Redistribute, Fail, Assign;
      redistributed := [];
      assert failedScans[0..] == failedScans;
      for k := 0 to |failedScans|
        invariant redistributed == failedScans[..k]
        invariant Sweeping(state.backend.Registry(), id, failedScans[k..])
        invariant Redistribute(state.backend.Registry(), failedScans[k..])
               == Redistribute(old(state.backend.Registry()), failedScans)
        invariant state.backend.scans.keys == old(state.backend.scans.keys)
      {
        var scanId := failedScans[k];
        assert failedScans[k..][0] == scanId && failedScans[k..][1..] == failedScans[k + 1..];
        TurnSweeps(state.backend.Registry(), id, failedScans[k..]);
        state.FailScan(scanId);
        redistributed := redistributed + [scanId];
        var newNode := state.AssignScan(scanId);
      }
      assert failedScans[|failedScans|..] == [];
      RedistributeNothing(state.backend.Registry());
    }

    /** Offline mark, then redistribution of every listed scan, on any registry. Returns the swept ids. */
    method HandleNodeFailure(id: string) returns (redistributed: seq<string>)
      requires Keyed(state.backend.Registry())
      modifies state.backend
      ensures redistributed ==
              if id in old(state.backend.nodes.items)
              then ClusterRuns.ScansOf(old(state.backend.scans.keys), old(state.backend.scans.items), id) else []
      ensures state.backend.Registry() == Failover(old(state.backend.Registry()), id, redistributed)
      ensures Next(old(state.backend.Registry()), NodeFailure(id, redistributed), state.backend.Registry())
      ensures state.backend.scans.keys == old(state.backend.scans.keys)
      ensures Keyed(state.backend.Registry())
      ensures id in old(state.backend.nodes.items) ==> Lists(redistributed, old(state.backend.scans.items), id)
      ensures id in old(state.backend.nodes.items) ==> Cleared(state.backend.Registry(), id)
      ensures old(Inv(state.backend.Registry())) ==> Inv(state.backend.Registry())
    {
      hide Inv, Lists, Redistribute, Sweeping, Fail, Assign, Cleared, ClusterRuns.ScansOf;
      ghost var before := state.backend.Registry();
      var node := state.backend.LoadNode(id);
      if node.None? { return []; }
      state.backend.SaveNode(node.value.(status := Offline));
      assert state.backend.Registry() == MarkOffline(before, id);
      var failedScans := state.GetScansForNode(id);
      SweepStarts(before, id, failedScans);
      redistributed := RedistributeScans(id, failedScans);
      FailoverTurn(before, state.backend.scans.keys, id);
    }

    /** Missed too many heartbeats. A node that never sent one, or whose stamp does not parse, is left alone. */
    predicate Stale(node: Node, now: Option<real>, parse: string -> Option<real>) {
      && node.id != nodeId
      && node.lastHeartbeat != ""
      && parse(node.lastHeartbeat).Some?
      && (if now.Some? then now.value else 0.0) - parse(node.lastHeartbeat).value
         > (heartbeatTimeout * maxMissedHeartbeats) as real
    }

    /** Another node counts as failed when its stamp can be read and is older than its timeout allows. One that has not
        sent any heartbeat is given the benefit of the doubt. */
    lemma StaleIff(node: Node, now: real, parse: string -> Option<real>)
      ensures Stale(node, Some(now), parse) <==>
              && node.id != nodeId && node.lastHeartbeat != "" && parse(node.lastHeartbeat).Some?
              && now > parse(node.lastHeartbeat).value + heartbeatTimeout as real * maxMissedHeartbeats as real
    {
      assert (heartbeatTimeout * maxMissedHeartbeats) as real == heartbeatTimeout as real * maxMissedHeartbeats as real;
    }

    /** A node that has just sent a heartbeat is no victim of a check at that moment, or until its timeout has passed;
        nor is one whose stamp cannot be read, or the node that checks. */
    lemma HeardIsNoVictim(s: State, id: string, status: NodeStatus, load: int, stamp: string, now: real,
                          parse: string -> Option<real>)
      requires id in s.nodes && heartbeatTimeout >= 0 && maxMissedHeartbeats >= 0
      requires parse(stamp).Some? ==>
                 now <= parse(stamp).value + heartbeatTimeout as real * maxMissedHeartbeats as real
      ensures var s' := Heartbeat(s, id, status, load, stamp); id in s'.nodes && !Stale(s'.nodes[id], Some(now), parse)
    {
      var node := Heartbeat(s, id, status, load, stamp).nodes[id];
      StaleIff(node, now, parse);
    }

    /** Failover of a registered node, as the health check sees it. */
    method FailNode(id: string)
      requires Keyed(state.backend.Registry()) && id in state.backend.nodes.items
      modifies state.backend
      ensures state.backend.Registry()
           == Failover(old(state.backend.Registry()), id,
                       ClusterRuns.ScansOf(old(state.backend.scans.keys), old(state.backend.scans.items), id))
      ensures state.backend.scans.keys == old(state.backend.scans.keys)
      ensures Keyed(state.backend.Registry()) && state.backend.nodes.items.Keys == old(state.backend.nodes.items.Keys)
      ensures old(Inv(state.backend.Registry())) ==> Inv(state.backend.Registry())
    {
      hide Inv, Failover, Cleared, ClusterRuns.ScansOf, Keyed;
      FailoverTurn(state.backend.Registry(), state.backend.scans.keys, id);
      var swept := HandleNodeFailure(id);
    }

    /** The ids of the stale nodes of a list, in its order. */
    function StaleIds(nodes: seq<Node>, now: Option<real>, parse: string -> Option<real>): seq<string> {
      if nodes == [] then []
      else
        var last := nodes[|nodes| - 1];
        StaleIds(nodes[..|nodes| - 1], now, parse) + if Stale(last, now, parse) then [last.id] else []
    }

    /** Fails over every online node that is stale, in `node_id` order, on any registry. */
    method CheckNodeHealth(now: Option<real>, parse: string -> Option<real>) returns (victims: seq<string>)
      requires Keyed(state.backend.Registry())
      modifies state.backend
      ensures forall v :: v in victims <==> IsOnline(old(state.backend.nodes.items), v)
                                            && Stale(old(state.backend.nodes.items)[v], now, parse)
      ensures state.backend.Registry() == Sweep(old(state.backend.Registry()), old(state.backend.scans.keys), victims)
      ensures SortedBy(victims, Le)
      ensures Keyed(state.backend.Registry())
      ensures old(Inv(state.backend.Registry())) ==> Inv(state.backend.Registry())
    {
      hide Inv, Sweep, Failover, Stale, ClusterRuns.ScansOf, SortedBy;
      ghost var before, keys := state.backend.Registry(), state.backend.scans.keys;
      SweepNothing(before, keys);
      var nodes := state.ListNodes(Online);
      VictimsAre(before.nodes, nodes, now, parse);
      StaleIdsSorted(nodes, now, parse);
      victims := [];
      for k := 0 to |nodes|
        invariant Keyed(state.backend.Registry())
        invariant Inv(before) ==> Inv(state.backend.Registry())
        invariant state.backend.nodes.items.Keys == before.nodes.Keys
        invariant state.backend.scans.keys == keys
        invariant state.backend.Registry() == Sweep(before, keys, victims)
        invariant victims == StaleIds(nodes[..k], now, parse)
      {
        assert nodes[..k + 1][..k] == nodes[..k] && nodes[k] in nodes;
        if Stale(nodes[k], now, parse) {
          SweepSnoc(before, keys, victims, nodes[k].id);
          FailNode(nodes[k].id);
          victims := victims + [nodes[k].id];
        }
      }
      assert nodes[..|nodes|] == nodes;
    }

    lemma {:induction false} StaleIdsAre(nodes: seq<Node>, now: Option<real>, parse: string -> Option<real>)
      ensures forall v :: v in StaleIds(nodes, now, parse) <==>
                exists n | n in nodes :: n.id == v && Stale(n, now, parse)
    {
      hide Stale;
      if nodes != [] {
        assert nodes == nodes[..|nodes| - 1] + [nodes[|nodes| - 1]];
        StaleIdsAre(nodes[..|nodes| - 1], now, parse);
      }
    }

    lemma {:induction false} StaleIdsSorted(nodes: seq<Node>, now: Option<real>, parse: string -> Option<real>)
      requires SortedBy(nodes, IdLe)
      ensures SortedBy(StaleIds(nodes, now, parse), Le)
    {
      hide Stale;
      if nodes != [] {
        var init, last := nodes[..|nodes| - 1], nodes[|nodes| - 1];
        StaleIdsSorted(init, now, parse);
        StaleIdsAre(init, now, parse);
        var ids := StaleIds(init, now, parse);
        forall k | 0 <= k < |ids| ensures Le(ids[k], last.id) {
          assert ids[k] in ids;
          var n :| n in init && n.id == ids[k];
          assert IdLe(n, last);
        }
      }
    }

    lemma VictimsAre(registered: Nodes, listed: seq<Node>, now: Option<real>, parse: string -> Option<real>)
      requires KeyedNodes(registered)
      requires forall n :: n in listed <==> n.id in registered && registered[n.id] == n && n.status == Online
      ensures forall v :: v in StaleIds(listed, now, parse) <==>
                IsOnline(registered, v) && Stale(registered[v], now, parse)
    {
      hide Stale;
      StaleIdsAre(listed, now, parse);
      forall v | IsOnline(registered, v) && Stale(registered[v], now, parse)
        ensures v in StaleIds(listed, now, parse)
      {
        assert registered[v] in listed;
      }
    }
  }

  lemma ValuesAreEntries<V>(d: Dict<string, V>, id: V -> string)
    requires forall k | k in d.items :: id(d.items[k]) == k
    ensures Entries(d.Values(), d.items, id)
  {
    var vs := d.Values();
    forall i | 0 <= i < |vs| ensures d.keys[i] in d.items && id(vs[i]) == d.keys[i] {}
    forall k | k in d.items ensures exists i | 0 <= i < |vs| :: id(vs[i]) == k {
      assert k in d.keys;
      var i :| 0 <= i < |d.keys| && d.keys[i] == k;
      assert id(vs[i]) == k;
    }
  }

  lemma ScansOfNext(keys: seq<string>, scans: Scans, n: string, k: nat)
    requires k < |keys| && keys[k] in scans
    ensures ClusterRuns.ScansOf(keys[..k + 1], scans, n)
         == ClusterRuns.ScansOf(keys[..k], scans, n) + if scans[keys[k]].owner == Some(n) then [keys[k]] else []
  {
    var p := (i: string) => i in scans && scans[i].owner == Some(n);
    assert keys[..k + 1] == keys[..k] + [keys[k]];
    FilterConcat(keys[..k], [keys[k]], p);
    if p(keys[k]) { FilterAll([keys[k]], p); } else { FilterNone([keys[k]], p); }
  }

  lemma SweepNothing(s: State, keys: seq<string>)
    ensures Sweep(s, keys, []) == s
  {
  }

  lemma {:induction false} SweepSnoc(s: State, keys: seq<string>, victims: seq<string>, v: string)
    ensures Sweep(s, keys, victims + [v])
         == Failover(Sweep(s, keys, victims), v, ClusterRuns.ScansOf(keys, Sweep(s, keys, victims).scans, v))
    decreases |victims|
  {
    if victims == [] {
      assert victims + [v] == [v];
      var f := Failover(s, v, ClusterRuns.ScansOf(keys, s.scans, v));
      assert Sweep(f, keys, []) == f;
    } else {
      assert (victims + [v])[1..] == victims[1..] + [v];
      SweepSnoc(Failover(s, victims[0], ClusterRuns.ScansOf(keys, s.scans, victims[0])), keys, victims[1..], v);
    }
  }
}
