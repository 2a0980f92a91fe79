/**
 The two ways a node is purged (pkg/ekcoops/operator.go, cmd/ekco/cli/purge_node.go), with their guards on
 the number of ready nodes, and the Ceph storage list a reconcile pass leaves (pkg/cluster/rook_ceph.go).
 */
module NodeReconcile {
  import opened Prelude
  import opened Nodes
  import opened KubeadmStatus
  import opened NodePurge
  import opened PurgeSafety

  datatype Config = Config(purgeDeadNodes: bool, minReadyMasters: int, minReadyWorkers: int, toleration: int,
                           maintainStorage: bool, storageNodes: string, storageLabel: string)

  /** Which calls fail while a given node is purged. */
  type NodeFaults = string -> set<Fault>

  /** When the node became unreachable: the time of the first unreachable taint that carries one. */
  function UnreachableSince(taints: seq<Taint>): Option<int> {
    if taints == [] then None
    else if taints[0].key == UNREACHABLE_TAINT && taints[0].timeAdded.Some? then taints[0].timeAdded
    else UnreachableSince(taints[1..])
  }

  predicate IsDead(node: Node, now: int, cfg: Config) {
    var since := UnreachableSince(node.taints);
    since.Some? && since.value < now - cfg.toleration
  }

  /** A node is dead when its first unreachable taint with a time is older than the toleration. */
  lemma {:induction false} IsDeadMeans(node: Node, now: int, cfg: Config)
    ensures IsDead(node, now, cfg) <==> exists i :: 0 <= i < |node.taints| && DeadSince(node.taints, i, now, cfg.toleration)
  {
    SinceMeans(node.taints, now, cfg.toleration);
  }

  predicate DeadSince(taints: seq<Taint>, i: nat, now: int, toleration: int)
    requires i < |taints|
  {
    && taints[i].key == "node.kubernetes.io/unreachable"
    && taints[i].timeAdded.Some? && taints[i].timeAdded.value + toleration < now
    && forall j :: 0 <= j < i && taints[j].key == "node.kubernetes.io/unreachable" ==> taints[j].timeAdded == None
  }

  lemma {:induction false} SinceMeans(taints: seq<Taint>, now: int, toleration: int)
    ensures UnreachableSince(taints).Some? && UnreachableSince(taints).value < now - toleration
       <==> exists i :: 0 <= i < |taints| && DeadSince(taints, i, now, toleration)
  {
    if taints != [] && (taints[0].key != UNREACHABLE_TAINT || taints[0].timeAdded == None) {
      var rest := taints[1..];
      SinceMeans(rest, now, toleration);
      if i :| 0 <= i < |rest| && DeadSince(rest, i, now, toleration) {
        assert forall j :: 1 <= j < i + 1 ==> taints[j] == rest[j - 1];
        assert DeadSince(taints, i + 1, now, toleration);
      } else if i :| 0 <= i < |taints| && DeadSince(taints, i, now, toleration) {
        assert forall j :: 0 <= j < |rest| ==> rest[j] == taints[j + 1];
        assert DeadSince(rest, i - 1, now, toleration);
      }
    } else if taints != [] && UnreachableSince(taints).value < now - toleration {
      assert DeadSince(taints, 0, now, toleration);
    }
  }

  /** The guards of reconcileNode; the one on workers also protects masters that pass the first. */
  predicate AutoPurges(node: Node, now: int, cfg: Config, masters: nat, workers: nat) {
    && cfg.purgeDeadNodes
    && IsDead(node, now, cfg)
    && !(IsMaster(node) && masters < cfg.minReadyMasters)
    && !(workers < cfg.minReadyWorkers)
  }

  // ---------- a pass over the listed nodes ----------

  /** The state after reconciling the listed nodes in order, and the nodes whose purge failed; a failing
      purge does not stop the others. */
  function PassOver(s: State, nodes: seq<Node>, now: int, cfg: Config, masters: nat, workers: nat, rook: bool,
                    faults: NodeFaults): (State, set<string>)
  {
    if nodes == [] then (s, {})
    else
      var (t, failed) := PassOver(s, nodes[..|nodes| - 1], now, cfg, masters, workers, rook, faults);
      var node := nodes[|nodes| - 1];
      if AutoPurges(node, now, cfg, masters, workers) then
        var (u, ok) := Purged(t, node.name, cfg.maintainStorage && rook, faults(node.name));
        (u, if ok then failed else failed + {node.name})
      else (t, failed)
  }

  function Pass(s: State, nodes: seq<Node>, now: int, cfg: Config, rook: bool, faults: NodeFaults): (State, set<string>) {
    PassOver(s, nodes, now, cfg, ReadyCount(nodes, true), ReadyCount(nodes, false), rook, faults)
  }

  // ---------- what a pass touches ----------

  /** The Node and the endpoint of that name are as before. */
  ghost predicate LeftAlone(s: State, t: State, name: string) {
    && (forall n: Node :: n.name == name ==> (n in t.nodes <==> n in s.nodes))
    && (name in Listed(t.status) <==> name in Listed(s.status))
    && (name in Listed(s.status) ==>
          && Listed(t.status)[name].Address() == Listed(s.status)[name].Address()
          && Listed(t.status)[name].Port() == Listed(s.status)[name].Port())
  }

  lemma {:induction false} PurgeLeavesOthers(s: State, name: string, withCeph: bool, faults: set<Fault>, other: string)
    requires other != name
    ensures var t := Purged(s, name, withCeph, faults).0;
            LeftAlone(s, t, other) && FindNode(t.nodes, other) == FindNode(s.nodes, other)
  {
    AttemptEffect(s, name, withCeph, faults);
    WithoutNodeFinds(s.nodes, name);
    WithoutNodeKeeps(s.nodes, name);
    RemovedListing(s.status, name);
  }

  lemma {:induction false} PassLeavesOthers(s: State, nodes: seq<Node>, now: int, cfg: Config, masters: nat, workers: nat,
                                            rook: bool, faults: NodeFaults, other: string)
    requires forall w :: w in nodes && AutoPurges(w, now, cfg, masters, workers) ==> w.name != other
    ensures var t := PassOver(s, nodes, now, cfg, masters, workers, rook, faults).0;
            LeftAlone(s, t, other) && FindNode(t.nodes, other) == FindNode(s.nodes, other)
  {
    if nodes != [] {
      var front, node := nodes[..|nodes| - 1], nodes[|nodes| - 1];
      assert node in nodes;
      PassLeavesOthers(s, front, now, cfg, masters, workers, rook, faults, other);
      if AutoPurges(node, now, cfg, masters, workers) {
        var t := PassOver(s, front, now, cfg, masters, workers, rook, faults).0;
        PurgeLeavesOthers(t, node.name, cfg.maintainStorage && rook, faults(node.name), other);
      }
    }
  }

  /** Every etcd member that is gone was at the address of a node that the pass purged. */
  ghost predicate OnlyTheirMembers(s: State, t: State, purged: set<Node>) {
    forall e :: e in s.members && e !in t.members ==> exists w :: w in purged && e.peerURL == PeerURL(ResolvedIP(s, w.name))
  }

  ghost function ToPurge(nodes: seq<Node>, now: int, cfg: Config, masters: nat, workers: nat): set<Node> {
    set w | w in nodes && AutoPurges(w, now, cfg, masters, workers)
  }

  lemma {:induction false} PassTakesTheirMembers(s: State, nodes: seq<Node>, now: int, cfg: Config, masters: nat, workers: nat,
                                                 rook: bool, faults: NodeFaults)
    requires UniqueNames(nodes) && ValidMembers(s.members)
    ensures var t := PassOver(s, nodes, now, cfg, masters, workers, rook, faults).0;
            ValidMembers(t.members) && OnlyTheirMembers(s, t, ToPurge(nodes, now, cfg, masters, workers))
  {
    if nodes != [] {
      var front, node := nodes[..|nodes| - 1], nodes[|nodes| - 1];
      PassTakesTheirMembers(s, front, now, cfg, masters, workers, rook, faults);
      var t := PassOver(s, front, now, cfg, masters, workers, rook, faults).0;
      assert nodes == front + [node];
      if AutoPurges(node, now, cfg, masters, workers) {
        forall w | w in front ensures w.name != node.name {
          var k :| 0 <= k < |front| && front[k] == w;
          assert nodes[k] == w;
        }
        PassLeavesOthers(s, front, now, cfg, masters, workers, rook, faults, node.name);
        PurgeTakesItsMember(s, t, node, cfg.maintainStorage && rook, faults(node.name));
        assert node in ToPurge(nodes, now, cfg, masters, workers);
      }
    }
  }

  lemma PurgeTakesItsMember(s: State, t: State, node: Node, withCeph: bool, faults: set<Fault>)
    requires ValidMembers(t.members) && LeftAlone(s, t, node.name) && FindNode(t.nodes, node.name) == FindNode(s.nodes, node.name)
    ensures var u := Purged(t, node.name, withCeph, faults).0;
            && ValidMembers(u.members)
            && forall e :: e in t.members && e !in u.members ==> e.peerURL == PeerURL(ResolvedIP(s, node.name))
  {
    AttemptEffect(t, node.name, withCeph, faults);
    EtcdRemovedExactly(t.members, ResolvedIP(t, node.name));
    assert ResolvedIP(t, node.name) == ResolvedIP(s, node.name);
  }

  /** A node that is let through, with no failing call, is gone and not reported. */
  lemma {:induction false} PassPurges(s: State, nodes: seq<Node>, now: int, cfg: Config, masters: nat, workers: nat, rook: bool,
                                      faults: NodeFaults, w: Node)
    requires w in nodes && AutoPurges(w, now, cfg, masters, workers) && faults(w.name) == {} && s.status != Unreadable
    ensures var (t, failed) := PassOver(s, nodes, now, cfg, masters, workers, rook, faults);
            w.name !in failed && forall n :: n in t.nodes ==> n.name != w.name
  {
    var front, node := nodes[..|nodes| - 1], nodes[|nodes| - 1];
    var (t, failed) := PassOver(s, front, now, cfg, masters, workers, rook, faults);
    PassKeepsReadable(s, front, now, cfg, masters, workers, rook, faults);
    assert nodes == front + [node];
    if AutoPurges(node, now, cfg, masters, workers) {
      PurgedNodesExactly(t, node.name, cfg.maintainStorage && rook, faults(node.name));
    }
    if node.name == w.name {
      PassReportsOthers(s, front, now, cfg, masters, workers, rook, faults, w.name);
      if AutoPurges(node, now, cfg, masters, workers) {
        GoodPurge(t, w.name, cfg.maintainStorage && rook);
      } else {
        PassPurges(s, front, now, cfg, masters, workers, rook, faults, w);
      }
    } else {
      PassPurges(s, front, now, cfg, masters, workers, rook, faults, w);
    }
  }

  lemma {:induction false} PassReportsOthers(s: State, nodes: seq<Node>, now: int, cfg: Config, masters: nat, workers: nat,
                                             rook: bool, faults: NodeFaults, name: string)
    requires faults(name) == {} && s.status != Unreadable
    ensures name !in PassOver(s, nodes, now, cfg, masters, workers, rook, faults).1
  {
    if nodes != [] {
      var front, node := nodes[..|nodes| - 1], nodes[|nodes| - 1];
      PassReportsOthers(s, front, now, cfg, masters, workers, rook, faults, name);
      PassKeepsReadable(s, front, now, cfg, masters, workers, rook, faults);
      if node.name == name {
        GoodPurge(PassOver(s, front, now, cfg, masters, workers, rook, faults).0, name, cfg.maintainStorage && rook);
      }
    }
  }

  lemma {:induction false} PassKeepsReadable(s: State, nodes: seq<Node>, now: int, cfg: Config, masters: nat, workers: nat,
                                             rook: bool, faults: NodeFaults)
    requires s.status != Unreadable
    ensures PassOver(s, nodes, now, cfg, masters, workers, rook, faults).0.status != Unreadable
  {
    if nodes != [] {
      var front, node := nodes[..|nodes| - 1], nodes[|nodes| - 1];
      PassKeepsReadable(s, front, now, cfg, masters, workers, rook, faults);
      PurgedControlPlane(PassOver(s, front, now, cfg, masters, workers, rook, faults).0, node.name,
                         cfg.maintainStorage && rook, faults(node.name));
    }
  }

  lemma {:induction false} PassIdle(s: State, nodes: seq<Node>, now: int, cfg: Config, masters: nat, workers: nat, rook: bool,
                                    faults: NodeFaults)
    requires !cfg.purgeDeadNodes || workers < cfg.minReadyWorkers
    ensures PassOver(s, nodes, now, cfg, masters, workers, rook, faults) == (s, {})
  {
    if nodes != [] {
      PassIdle(s, nodes[..|nodes| - 1], now, cfg, masters, workers, rook, faults);
    }
  }

  /** What a pass leaves when the listed masters are protected. */
  ghost predicate MastersKept(s: State, t: State, nodes: seq<Node>, now: int, cfg: Config) {
    && (forall m :: m in nodes && IsMaster(m) ==> LeftAlone(s, t, m.name))
    && (ValidMembers(s.members) ==>
          forall e :: e in s.members && e !in t.members ==>
            exists w :: w in nodes && !IsMaster(w) && IsDead(w, now, cfg) && e.peerURL == PeerURL(ResolvedIP(s, w.name)))
  }

  lemma PassKeepsMasters(s: State, nodes: seq<Node>, now: int, cfg: Config, masters: nat, workers: nat, rook: bool,
                         faults: NodeFaults)
    requires masters < cfg.minReadyMasters && UniqueNames(nodes)
    ensures MastersKept(s, PassOver(s, nodes, now, cfg, masters, workers, rook, faults).0, nodes, now, cfg)
  {
    forall m | m in nodes && IsMaster(m)
      ensures LeftAlone(s, PassOver(s, nodes, now, cfg, masters, workers, rook, faults).0, m.name)
    {
      forall w | w in nodes && AutoPurges(w, now, cfg, masters, workers) ensures w.name != m.name {
        var i :| 0 <= i < |nodes| && nodes[i] == m;
        var j :| 0 <= j < |nodes| && nodes[j] == w;
      }
      PassLeavesOthers(s, nodes, now, cfg, masters, workers, rook, faults, m.name);
    }
    if ValidMembers(s.members) {
      PassTakesTheirMembers(s, nodes, now, cfg, masters, workers, rook, faults);
    }
  }

  lemma PassOnNodes(s: State, nodes: seq<Node>, now: int, cfg: Config, rook: bool, faults: NodeFaults)
    ensures var (t, failed) := Pass(s, nodes, now, cfg, rook, faults);
            && (!cfg.purgeDeadNodes || ReadyCount(nodes, false) < cfg.minReadyWorkers ==> t == s && failed == {})
            && (ReadyCount(nodes, true) < cfg.minReadyMasters && UniqueNames(nodes) ==> MastersKept(s, t, nodes, now, cfg))
            && (forall name :: (forall w :: w in nodes && w.name == name ==> !IsDead(w, now, cfg)) ==> LeftAlone(s, t, name))
            && (cfg.purgeDeadNodes && ReadyCount(nodes, true) >= cfg.minReadyMasters && ReadyCount(nodes, false) >= cfg.minReadyWorkers ==>
                  forall w :: w in nodes && IsDead(w, now, cfg) && faults(w.name) == {} && s.status != Unreadable ==>
                    w.name !in failed && forall n :: n in t.nodes ==> n.name != w.name)
  {
    var masters, workers := ReadyCount(nodes, true), ReadyCount(nodes, false);
    var (t, failed) := Pass(s, nodes, now, cfg, rook, faults);
    if !cfg.purgeDeadNodes || workers < cfg.minReadyWorkers {
      PassIdle(s, nodes, now, cfg, masters, workers, rook, faults);
    }
    if masters < cfg.minReadyMasters && UniqueNames(nodes) {
      PassKeepsMasters(s, nodes, now, cfg, masters, workers, rook, faults);
    }
    forall name | forall w :: w in nodes && w.name == name ==> !IsDead(w, now, cfg) ensures LeftAlone(s, t, name) {
      PassLeavesOthers(s, nodes, now, cfg, masters, workers, rook, faults, name);
    }
    if cfg.purgeDeadNodes && masters >= cfg.minReadyMasters && workers >= cfg.minReadyWorkers {
      forall w | w in nodes && IsDead(w, now, cfg) && faults(w.name) == {} && s.status != Unreadable
        ensures w.name !in failed && forall n :: n in t.nodes ==> n.name != w.name
      {
        PassPurges(s, nodes, now, cfg, masters, workers, rook, faults, w);
      }
    }
  }

  method ReconcileNodes(c: Cluster, nodes: seq<Node>, now: int, cfg: Config, rook: bool, faults: NodeFaults)
    returns (failed: set<string>)
    modifies c, c.config
    ensures (c.Now(), failed) == Pass(old(c.Now()), nodes, now, cfg, rook, faults)
    // nothing happens with the switch off or with too few ready workers
    ensures !cfg.purgeDeadNodes || ReadyCount(nodes, false) < cfg.minReadyWorkers ==> c.Now() == old(c.Now()) && failed == {}
    // with too few ready masters no listed master is touched
    ensures ReadyCount(nodes, true) < cfg.minReadyMasters && UniqueNames(nodes) ==>
      MastersKept(old(c.Now()), c.Now(), nodes, now, cfg)
    // nobody else than a dead node that is listed is touched
    ensures forall name :: (forall w :: w in nodes && w.name == name ==> !IsDead(w, now, cfg)) ==>
      LeftAlone(old(c.Now()), c.Now(), name)
    // and with enough of both, a dead node whose calls do not fail is gone
    ensures cfg.purgeDeadNodes && ReadyCount(nodes, true) >= cfg.minReadyMasters && ReadyCount(nodes, false) >= cfg.minReadyWorkers ==>
      forall w :: w in nodes && IsDead(w, now, cfg) && faults(w.name) == {} && old(c.config.stored) != Unreadable ==>
        w.name !in failed && forall n :: n in c.nodes ==> n.name != w.name
  {
    failed := {};
    var masters, workers := NodeReadyCounts(nodes);
    for i := 0 to |nodes|
      invariant (c.Now(), failed) == PassOver(old(c.Now()), nodes[..i], now, cfg, masters, workers, rook, faults)
    {
      assert nodes[..i + 1][..i] == nodes[..i];
      var node := nodes[i];
      if cfg.purgeDeadNodes && IsDead(node, now, cfg) {
        if IsMaster(node) && masters < cfg.minReadyMasters {
          continue;
        } else if workers < cfg.minReadyWorkers {
          continue;
        }
        var ok := c.PurgeNode(node.name, cfg.maintainStorage, rook, faults(node.name));
        if !ok {
          failed := failed + {node.name};
        }
      }
    }
    assert nodes[..|nodes|] == nodes;
    PassOnNodes(old(c.Now()), nodes, now, cfg, rook, faults);
  }

  // ---------- the manual purge ----------

  /** A ready master is refused when the ready masters are down to the minimum, a ready worker likewise. */
  predicate Refused(nodes: seq<Node>, name: string, cfg: Config) {
    || (ReadyCount(nodes, true) <= cfg.minReadyMasters && exists n :: n in nodes && n.name == name && ReadyIn(n, true))
    || (ReadyCount(nodes, false) <= cfg.minReadyWorkers && exists n :: n in nodes && n.name == name && ReadyIn(n, false))
  }

  /** Reading the Rook version fails: not found is no failure, it means there is no Rook. */
  datatype RookVersion = Known | NotFound | Failing

  /** The guards see the nodes that were listed; the purge acts on those there are by then. */
  function ManuallyPurged(s: State, listed: seq<Node>, name: string, cfg: Config, version: RookVersion, faults: set<Fault>): (State, bool) {
    if Refused(listed, name, cfg) || (cfg.maintainStorage && version == Failing) then (s, false)
    else Purged(s, name, cfg.maintainStorage && version == Known, faults)
  }

  lemma ManualMeans(s: State, listed: seq<Node>, name: string, cfg: Config, version: RookVersion, faults: set<Fault>)
    ensures var (t, ok) := ManuallyPurged(s, listed, name, cfg, version, faults);
            var last := (exists n :: n in listed && n.name == name && IsReady(n) && IsMaster(n) && ReadyCount(listed, true) <= cfg.minReadyMasters)
                        || exists n :: n in listed && n.name == name && IsReady(n) && !IsMaster(n) && ReadyCount(listed, false) <= cfg.minReadyWorkers;
            && (last || (cfg.maintainStorage && version == Failing) ==> !ok && t == s)
            && (!last && !(cfg.maintainStorage && version == Failing) && faults == {} && s.status != Unreadable ==> ok)
            && (t.storage != s.storage ==> cfg.maintainStorage && version == Known)
            && forall n :: n in t.nodes <==> n in s.nodes && (n.name == name ==> !ok)
  {
    PurgedNodesExactly(s, name, cfg.maintainStorage && version == Known, faults);
    PurgedStorage(s, name, cfg.maintainStorage && version == Known, faults);
    if faults == {} && s.status != Unreadable {
      GoodPurge(s, name, cfg.maintainStorage && version == Known);
    }
  }

  method PurgeNodeManually(c: Cluster, nodes: seq<Node>, name: string, cfg: Config, version: RookVersion, listFails: bool,
                           faults: set<Fault>)
    returns (ok: bool)
    modifies c, c.config
    ensures listFails ==> !ok && c.Now() == old(c.Now())
    ensures !listFails ==> (c.Now(), ok) == ManuallyPurged(old(c.Now()), nodes, name, cfg, version, faults)
    // the last ready nodes of a role are refused, and so is a purge with Rook in an unknown state
    ensures (exists n :: n in nodes && n.name == name && IsReady(n) && IsMaster(n)) && ReadyCount(nodes, true) <= cfg.minReadyMasters ==>
      !ok && c.Now() == old(c.Now())
    ensures (exists n :: n in nodes && n.name == name && IsReady(n) && !IsMaster(n)) && ReadyCount(nodes, false) <= cfg.minReadyWorkers ==>
      !ok && c.Now() == old(c.Now())
    ensures cfg.maintainStorage && version == Failing ==> !ok && c.Now() == old(c.Now())
    // the storage list changes only when it is maintained and there is a Rook
    ensures c.storage != old(c.storage) ==> cfg.maintainStorage && version == Known
    ensures ok ==> forall n :: n in c.nodes <==> n in old(c.nodes) && n.name != name
  {
    ManualMeans(c.Now(), nodes, name, cfg, version, faults);
    if listFails {
      return false;
    }
    var readyMasters, readyWorkers := NodeReadyCounts(nodes);
    if readyMasters <= cfg.minReadyMasters {
      for i := 0 to |nodes|
        invariant forall j :: 0 <= j < i ==> !(nodes[j].name == name && ReadyIn(nodes[j], true))
      {
        if nodes[i].name == name && IsMaster(nodes[i]) && IsReady(nodes[i]) {
          return false;
        }
      }
    }
    if readyWorkers <= cfg.minReadyWorkers {
      for i := 0 to |nodes|
        invariant forall j :: 0 <= j < i ==> !(nodes[j].name == name && ReadyIn(nodes[j], false))
      {
        if nodes[i].name == name && !IsMaster(nodes[i]) && IsReady(nodes[i]) {
          return false;
        }
      }
    }
    if cfg.maintainStorage && version == Failing {
      return false;
    }
    ok := c.PurgeNode(name, cfg.maintainStorage, cfg.maintainStorage && version == Known, faults);
  }

  // ---------- the Ceph storage list ----------

  predicate Names(storage: seq<StorageNode>, name: string) {
    exists n :: n in storage && n.name == name
  }

  predicate ShouldUseNodeForStorage(node: Node, storage: seq<StorageNode>, selector: string, managed: bool) {
    && IsReady(node)
    && if managed then Names(storage, node.name)
       else selector == "" || exists key :: key in node.labels && selector == key + "=" + node.labels[key]
  }

  /** A selector names one label and its value; the empty one matches every node. */
  lemma SelectorMeans(node: Node, storage: seq<StorageNode>, key: string, value: string)
    requires '=' !in key && forall k :: k in node.labels ==> '=' !in k
    ensures ShouldUseNodeForStorage(node, storage, key + "=" + value, false)
       <==> IsReady(node) && key in node.labels && node.labels[key] == value
    ensures ShouldUseNodeForStorage(node, storage, "", false) <==> IsReady(node)
  {
    forall k | k in node.labels && key + "=" + value == k + "=" + node.labels[k] ensures k == key && node.labels[k] == value {
      SameKey(key, value, k, node.labels[k]);
    }
  }

  lemma SameKey(key: string, value: string, k: string, v: string)
    requires '=' !in key && '=' !in k && key + "=" + value == k + "=" + v
    ensures k == key && v == value
  {
    var l, r := key + "=" + value, k + "=" + v;
    assert forall i :: 0 <= i < |key| ==> l[i] != '=' by {
      assert forall i :: 0 <= i < |key| ==> key[i] in key && l[i] == key[i];
    }
    assert forall i :: 0 <= i < |k| ==> r[i] != '=' by {
      assert forall i :: 0 <= i < |k| ==> k[i] in k && r[i] == k[i];
    }
    assert l[|key|] == '=' && r[|k|] == '=' && |k| == |key|;
    assert l[..|key|] == key && r[..|key|] == k;
    assert l[|key| + 1..] == value && r[|k| + 1..] == v;
  }

  function StorageCandidates(nodes: seq<Node>, storage: seq<StorageNode>, selector: string, managed: bool): seq<string> {
    if nodes == [] then []
    else
      var front := StorageCandidates(nodes[..|nodes| - 1], storage, selector, managed);
      var node := nodes[|nodes| - 1];
      if ShouldUseNodeForStorage(node, storage, selector, managed) then front + [node.name] else front
  }

  /** A bare entry for every name the list does not have yet. */
  function NewEntries(storage: seq<StorageNode>, names: seq<string>): seq<StorageNode> {
    if names == [] then []
    else
      var front := NewEntries(storage, names[..|names| - 1]);
      if Names(storage, names[|names| - 1]) then front else front + [StorageNode(names[|names| - 1], "")]
  }

  function WithReadyNodes(storage: seq<StorageNode>, nodes: seq<Node>, selector: string): seq<StorageNode> {
    storage + NewEntries(storage, StorageCandidates(nodes, storage, selector, false))
  }

  /** Appends the missing names with one patch, unless the user manages the list. */
  method UseNodesForStorage(c: Cluster, names: seq<string>, managed: bool, patchFails: bool) returns (ok: bool)
    modifies c
    ensures ok <==> managed || !patchFails || NewEntries(old(c.storage), names) == []
    ensures c.storage == old(c.storage) + (if managed || !ok then [] else NewEntries(old(c.storage), names))
    ensures c.Now() == old(c.Now()).(storage := c.storage)
  {
    if managed {
      return true;
    }
    var next: seq<StorageNode> := [];
    var storageNodes: set<string> := {};
    for i := 0 to |c.storage|
      invariant c.Now() == old(c.Now())
      invariant next == c.storage[..i]
      invariant storageNodes == set n | n in c.storage[..i] :: n.name
    {
      next := next + [c.storage[i]];
      storageNodes := storageNodes + {c.storage[i].name};
    }
    assert c.storage[..|c.storage|] == c.storage;
    var changed := false;
    for i := 0 to |names|
      invariant c.Now() == old(c.Now())
      invariant next == c.storage + NewEntries(c.storage, names[..i])
      invariant changed <==> NewEntries(c.storage, names[..i]) != []
    {
      assert names[..i + 1][..i] == names[..i];
      assert names[i] in storageNodes <==> Names(c.storage, names[i]);
      if names[i] !in storageNodes {
        next := next + [StorageNode(names[i], "")];
        changed := true;
      }
    }
    assert names[..|names|] == names;
    if changed {
      if patchFails {
        return false;
      }
      c.storage := next;
    }
    return true;
  }

  method EnsureAllUsedForStorage(c: Cluster, nodes: seq<Node>, cfg: Config, getFails: bool, patchFails: bool)
    returns (ok: bool)
    modifies c
    ensures c.Now() == old(c.Now()).(storage := c.storage)
    ensures !getFails && !patchFails ==> ok
    ensures ok && cfg.storageNodes != "" ==> c.storage == old(c.storage)
    ensures ok && cfg.storageNodes == "" ==>
              c.storage == WithReadyNodes(old(c.storage), nodes, cfg.storageLabel)
    ensures !ok ==> c.storage == old(c.storage)
  {
    if getFails {
      return false;
    }
    var managed := cfg.storageNodes != "";
    var names: seq<string> := [];
    for i := 0 to |nodes|
      invariant c.Now() == old(c.Now())
      invariant names == StorageCandidates(nodes[..i], c.storage, cfg.storageLabel, managed)
    {
      assert nodes[..i + 1][..i] == nodes[..i];
      if ShouldUseNodeForStorage(nodes[i], c.storage, cfg.storageLabel, managed) {
        names := names + [nodes[i].name];
      }
    }
    assert nodes[..|nodes|] == nodes;
    ok := UseNodesForStorage(c, names, managed, patchFails);
  }
}
