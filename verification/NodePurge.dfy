/**
 Purging a lost node (pkg/cluster/purge_node.go, pkg/cluster/etcd.go): its Ceph storage entry, its kubeadm
 API endpoint, its etcd member and at last its Node object, each by a call that may fail and end the
 attempt.
 */
module NodePurge {
  import opened Prelude
  import opened Nodes
  import opened KubeadmStatus

  const ETCD_PEER_PORT := "2380"

  /** etcd never uses the id 0. The source reads the first peer URL only. */
  datatype Member = Member(id: nat, peerURL: string)

  /** An entry of the CephCluster storage list; `config` stands for everything but the name. */
  datatype StorageNode = StorageNode(name: string, config: string)

  datatype State = State(nodes: seq<Node>, status: Stored, members: seq<Member>, storage: seq<StorageNode>)

  /** Calls of one attempt that can fail. `PurgeOsd` is any failing Ceph call before the storage list is
      patched; such failures are logged and otherwise ignored. */
  datatype Fault = GetNode | PurgeOsd | Kubeadm(call: KubeadmStatus.Call) | ListPods | EtcdConnect | MemberList
                 | MemberRemove | DeleteNode

  function JoinHostPort(host: string, port: string): string {
    if Bracketed(host) then "[" + host + "]:" + port else host + ":" + port
  }

  function PeerURL(ip: string): string {
    "https://" + JoinHostPort(ip, ETCD_PEER_PORT)
  }

  predicate Bracketed(host: string) {
    ':' in host || '%' in host
  }

  /** Different addresses have different peer URLs. */
  lemma PeerURLInjective(a: string, b: string)
    requires PeerURL(a) == PeerURL(b)
    ensures a == b
  {
    var ja, jb := JoinHostPort(a, ETCD_PEER_PORT), JoinHostPort(b, ETCD_PEER_PORT);
    assert ja == PeerURL(a)[8..] && jb == PeerURL(b)[8..];
    if Bracketed(a) && !Bracketed(b) {
      BracketsShow(b, a);
    } else if !Bracketed(a) && Bracketed(b) {
      BracketsShow(a, b);
    } else {
      var from, tail := if Bracketed(a) then 1 else 0, if Bracketed(a) then 6 else 5;
      assert ja[from..|ja| - tail] == a && jb[from..|jb| - tail] == b;
    }
  }

  lemma BracketsShow(plain: string, inner: string)
    requires !Bracketed(plain) && Bracketed(inner)
    ensures JoinHostPort(plain, ETCD_PEER_PORT) != JoinHostPort(inner, ETCD_PEER_PORT)
  {
    var l, r := JoinHostPort(plain, ETCD_PEER_PORT), JoinHostPort(inner, ETCD_PEER_PORT);
    var k :| 0 <= k < |inner| && (inner[k] == ':' || inner[k] == '%');
    assert r[k + 1] == inner[k];
    assert |l| == |r| ==> l[k + 1] == plain[k + 1] && plain[k + 1] in plain;
  }

  // ---------- lookups ----------

  function FindNode(nodes: seq<Node>, name: string): Option<Node> {
    if nodes == [] then None
    else if nodes[0].name == name then Some(nodes[0])
    else FindNode(nodes[1..], name)
  }

  function WithoutNode(nodes: seq<Node>, name: string): seq<Node> {
    if nodes == [] then []
    else if nodes[0].name == name then WithoutNode(nodes[1..], name)
    else [nodes[0]] + WithoutNode(nodes[1..], name)
  }

  function WithoutStorage(storage: seq<StorageNode>, name: string): seq<StorageNode> {
    if storage == [] then []
    else
      var front := WithoutStorage(storage[..|storage| - 1], name);
      if storage[|storage| - 1].name == name then front else front + [storage[|storage| - 1]]
  }

  /** The id of the last member with this peer URL, or 0. */
  function MemberId(members: seq<Member>, url: string): nat {
    if members == [] then 0
    else if members[|members| - 1].peerURL == url then members[|members| - 1].id
    else MemberId(members[..|members| - 1], url)
  }

  function WithoutMember(members: seq<Member>, id: nat): seq<Member> {
    if members == [] then []
    else if members[0].id == id then WithoutMember(members[1..], id)
    else [members[0]] + WithoutMember(members[1..], id)
  }

  // ---------- what one attempt does ----------

  function ListedIP(s: State, name: string): string {
    if name in Listed(s.status) then Listed(s.status)[name].Address() else ""
  }

  /** The address whose etcd member the attempt removes: from the kubeadm list, else from the Node. */
  function ResolvedIP(s: State, name: string): string {
    var node := FindNode(s.nodes, name);
    if ListedIP(s, name) != "" then ListedIP(s, name)
    else if node.Some? then InternalIP(node.value)
    else ""
  }

  predicate MaybeMaster(s: State, name: string) {
    var node := FindNode(s.nodes, name);
    node.Some? ==> IsMaster(node.value)
  }

  function AfterStorage(s: State, name: string, withCeph: bool, faults: set<Fault>): State {
    if withCeph && PurgeOsd !in faults then s.(storage := WithoutStorage(s.storage, name)) else s
  }

  function KubeadmFaults(faults: set<Fault>): set<KubeadmStatus.Call> {
    set c | c in {GetConfigMap, UpdateConfigMap} && Kubeadm(c) in faults
  }

  predicate KubeadmOk(s: State, name: string, faults: set<Fault>) {
    && Kubeadm(GetConfigMap) !in faults
    && s.status != Unreadable
    && (Kubeadm(UpdateConfigMap) in faults ==> Removed(s.status, name) == s.status)
  }

  /** Fetching the addresses of the other API servers from pods is needed when the list gives none. */
  predicate NeedsPods(s: State, name: string) {
    Listed(s.status).Keys <= {name}
  }

  predicate EtcdOk(members: seq<Member>, ip: string, faults: set<Fault>) {
    EtcdConnect !in faults && MemberList !in faults && (MemberRemove in faults ==> MemberId(members, PeerURL(ip)) == 0)
  }

  function EtcdRemoved(members: seq<Member>, ip: string): seq<Member> {
    if MemberId(members, PeerURL(ip)) == 0 then members else WithoutMember(members, MemberId(members, PeerURL(ip)))
  }

  /** The state an attempt leaves, and whether it reports success. */
  function Purged(s: State, name: string, withCeph: bool, faults: set<Fault>): (State, bool) {
    if GetNode in faults then (s, false)
    else
      var s1 := AfterStorage(s, name, withCeph, faults);
      var (s2, ok) := if MaybeMaster(s, name) then ControlPlaneRemoved(s1, name, faults) else (s1, true);
      if ok then LastStep(s2, name, faults) else (s2, false)
  }

  function ControlPlaneRemoved(s: State, name: string, faults: set<Fault>): (State, bool) {
    if !KubeadmOk(s, name, faults) then (s, false)
    else
      var t := s.(status := Removed(s.status, name));
      var ip := ResolvedIP(s, name);
      if NeedsPods(s, name) && ListPods in faults then (t, false)
      else if ip == "" then (t, true)
      else if !EtcdOk(s.members, ip, faults) then (t, false)
      else (t.(members := EtcdRemoved(s.members, ip)), true)
  }

  function LastStep(s: State, name: string, faults: set<Fault>): (State, bool) {
    if FindNode(s.nodes, name) == None then (s, true)
    else if DeleteNode in faults then (s, false)
    else (s.(nodes := WithoutNode(s.nodes, name)), true)
  }

  /** Which failing calls make an attempt fail, as far as it makes them. */
  predicate CallsSucceed(s: State, name: string, faults: set<Fault>) {
    && GetNode !in faults
    && (MaybeMaster(s, name) ==>
          && KubeadmOk(s, name, faults)
          && (NeedsPods(s, name) ==> ListPods !in faults)
          && (ResolvedIP(s, name) != "" ==> EtcdOk(s.members, ResolvedIP(s, name), faults)))
    && (FindNode(s.nodes, name).Some? ==> DeleteNode !in faults)
  }

  /** Trouble with Ceph never makes an attempt fail. */
  lemma PurgeSucceedsIff(s: State, name: string, withCeph: bool, faults: set<Fault>)
    ensures Purged(s, name, withCeph, faults).1 <==> CallsSucceed(s, name, faults)
  {
    var t := AfterStorage(s, name, withCeph, faults);
    assert ResolvedIP(t, name) == ResolvedIP(s, name) && MaybeMaster(t, name) == MaybeMaster(s, name);
  }

  lemma {:induction false} WithoutNodeKeeps(nodes: seq<Node>, name: string)
    ensures forall n :: n in WithoutNode(nodes, name) <==> n in nodes && n.name != name
    ensures UniqueNames(nodes) ==> UniqueNames(WithoutNode(nodes, name))
  {
    if nodes != [] {
      var rest := nodes[1..];
      WithoutNodeKeeps(rest, name);
      if UniqueNames(nodes) {
        assert UniqueNames(rest);
        forall n | n in rest ensures n.name != nodes[0].name {
          var k :| 0 <= k < |rest| && rest[k] == n;
          assert nodes[k + 1] == n;
        }
      }
    }
  }

  lemma {:induction false} FindNodeIn(nodes: seq<Node>, name: string)
    ensures match FindNode(nodes, name)
            case Some(n) => n in nodes && n.name == name
            case None => forall n :: n in nodes ==> n.name != name
  {
    if nodes != [] && nodes[0].name != name {
      FindNodeIn(nodes[1..], name);
    }
  }

  lemma {:induction false} NothingToTake(nodes: seq<Node>, name: string)
    requires forall n :: n in nodes ==> n.name != name
    ensures WithoutNode(nodes, name) == nodes
  {
    if nodes != [] {
      NothingToTake(nodes[1..], name);
    }
  }

  /** An attempt that reports success has deleted the Node, if there was one; any other has left it. */
  lemma PurgedNodes(s: State, name: string, withCeph: bool, faults: set<Fault>)
    ensures var (t, ok) := Purged(s, name, withCeph, faults);
            t.nodes == if ok then WithoutNode(s.nodes, name) else s.nodes
  {
    if GetNode !in faults {
      var s1 := AfterStorage(s, name, withCeph, faults);
      assert s1.nodes == s.nodes;
      assert ControlPlaneRemoved(s1, name, faults).0.nodes == s.nodes;
      FindNodeIn(s.nodes, name);
      if FindNode(s.nodes, name) == None {
        NothingToTake(s.nodes, name);
      }
    }
  }

  lemma {:induction false} WithoutStorageKeeps(storage: seq<StorageNode>, name: string)
    ensures forall e :: e in WithoutStorage(storage, name) <==> e in storage && e.name != name
  {
    if storage != [] {
      var front, last := storage[..|storage| - 1], storage[|storage| - 1];
      assert storage == front + [last];
      WithoutStorageKeeps(front, name);
    }
  }

  /** The Node goes, alone and last. */
  lemma PurgedNodesExactly(s: State, name: string, withCeph: bool, faults: set<Fault>)
    ensures var (t, ok) := Purged(s, name, withCeph, faults);
            && (forall n :: n in t.nodes <==> n in s.nodes && (n.name == name ==> !ok))
            && (DeleteNode in faults ==> t.nodes == s.nodes)
            && (GetNode in faults ==> t == s && !ok)
  {
    var (t, ok) := Purged(s, name, withCeph, faults);
    PurgedNodes(s, name, withCeph, faults);
    WithoutNodeKeeps(s.nodes, name);
    FindNodeIn(s.nodes, name);
    PurgeSucceedsIff(s, name, withCeph, faults);
  }

  /** The storage entry goes first, and only when Ceph is to be maintained. */
  lemma PurgedStorage(s: State, name: string, withCeph: bool, faults: set<Fault>)
    ensures var t := Purged(s, name, withCeph, faults).0;
            && (!withCeph || PurgeOsd in faults || GetNode in faults ==> t.storage == s.storage)
            && (withCeph && faults !! {GetNode, PurgeOsd} ==> forall e :: e in t.storage <==> e in s.storage && e.name != name)
  {
    WithoutStorageKeeps(s.storage, name);
    assert Purged(s, name, withCeph, faults).0.storage
        == if GetNode in faults then s.storage else AfterStorage(s, name, withCeph, faults).storage;
  }

  predicate KnownWorker(nodes: seq<Node>, name: string) {
    && (exists n :: n in nodes && n.name == name)
    && (forall n :: n in nodes && n.name == name ==> !IsMaster(n))
  }

  /** A worker has no part in the control plane. */
  lemma PurgedWorker(s: State, name: string, withCeph: bool, faults: set<Fault>)
    requires KnownWorker(s.nodes, name)
    ensures var t := Purged(s, name, withCeph, faults).0; t.status == s.status && t.members == s.members
  {
    RoleSeen(s, name);
  }

  /** Anything else is out of the kubeadm list on success. */
  lemma PurgedControlPlane(s: State, name: string, withCeph: bool, faults: set<Fault>)
    ensures var (t, ok) := Purged(s, name, withCeph, faults);
            && ((forall n :: n in s.nodes && n.name == name ==> IsMaster(n)) && ok ==>
                  Kubeadm(GetConfigMap) !in faults && s.status != Unreadable && name !in Listed(t.status))
            && (t.status == Unreadable <==> s.status == Unreadable)
  {
    RoleSeen(s, name);
    EndpointRemoved(AfterStorage(s, name, withCeph, faults), name, faults);
  }

  lemma EndpointRemoved(s: State, name: string, faults: set<Fault>)
    ensures var (t, ok) := ControlPlaneRemoved(s, name, faults);
            && (ok ==> Kubeadm(GetConfigMap) !in faults && s.status != Unreadable && name !in Listed(t.status))
            && (t.status == Unreadable <==> s.status == Unreadable)
  {
    RemovedListing(s.status, name);
  }

  lemma GoodPurge(s: State, name: string, withCeph: bool)
    requires s.status != Unreadable
    ensures Purged(s, name, withCeph, {}).1
  {
    PurgeSucceedsIff(s, name, withCeph, {});
  }

  lemma RoleSeen(s: State, name: string)
    ensures KnownWorker(s.nodes, name) ==> !MaybeMaster(s, name)
    ensures (forall n :: n in s.nodes && n.name == name ==> IsMaster(n)) ==> MaybeMaster(s, name)
  {
    FindNodeIn(s.nodes, name);
  }

  // ---------- the code ----------

  class Cluster {
    var nodes: seq<Node>
    const config: ConfigMap
    var members: seq<Member>
    var storage: seq<StorageNode>

    constructor (s: State, config: ConfigMap)
      requires config.stored == s.status
      ensures this.config == config && Now() == s
    {
      this.config := config;
      nodes, members, storage := s.nodes, s.members, s.storage;
    }

    ghost function Now(): State
      reads this, config
    {
      State(nodes, config.stored, members, storage)
    }

    /** The list without the node, as one patch of the CephCluster. */
    method RemoveCephClusterStorageNode(name: string, faults: set<Fault>) returns (ok: bool)
      modifies this
      ensures Now() == AfterStorage(old(Now()), name, true, faults)
      ensures ok ==> forall n :: n in storage ==> n.name != name
    {
      if PurgeOsd in faults {
        return false;
      }
      var next: seq<StorageNode> := [];
      var changed := false;
      for i := 0 to |storage|
        invariant Now() == old(Now())
        invariant next == WithoutStorage(storage[..i], name)
        invariant !changed ==> next == storage[..i]
        invariant forall n :: n in next ==> n.name != name
      {
        assert storage[..i + 1][..i] == storage[..i];
        if storage[i].name == name {
          changed := true;
        } else {
          next := next + [storage[i]];
        }
      }
      assert storage[..|storage|] == storage;
      if changed {
        storage := next;
      }
      return true;
    }

    method RemoveEtcdPeer(ip: string, faults: set<Fault>) returns (ok: bool)
      modifies this
      ensures ok <==> EtcdOk(old(members), ip, faults)
      ensures members == if ok then EtcdRemoved(old(members), ip) else old(members)
      ensures nodes == old(nodes) && storage == old(storage)
    {
      var removedPeerURL := PeerURL(ip);
      if EtcdConnect in faults || MemberList in faults {
        return false;
      }
      var purgedMemberID: nat := 0;
      for i := 0 to |members|
        invariant purgedMemberID == MemberId(members[..i], removedPeerURL)
        invariant nodes == old(nodes) && storage == old(storage) && members == old(members)
      {
        assert members[..i + 1][..i] == members[..i];
        if members[i].peerURL == removedPeerURL {
          purgedMemberID := members[i].id;
        }
      }
      assert members[..|members|] == members;
      if purgedMemberID != 0 {
        if MemberRemove in faults {
          return false;
        }
        members := WithoutMember(members, purgedMemberID);
      }
      return true;
    }

    method PurgeNode(name: string, rook: bool, rookVersionKnown: bool, faults: set<Fault>) returns (ok: bool)
      modifies this, config
      ensures (Now(), ok) == Purged(old(Now()), name, rook && rookVersionKnown, faults)
      // the Node goes on success, and no other
      ensures forall n :: n in nodes <==> n in old(nodes) && (n.name == name ==> !ok)
      ensures GetNode in faults ==> !ok && Now() == old(Now())
      // the storage entry goes first, and only when Ceph is to be maintained
      ensures !rook || !rookVersionKnown || PurgeOsd in faults ==> storage == old(storage)
      ensures rook && rookVersionKnown && faults !! {GetNode, PurgeOsd} ==>
        forall e :: e in storage <==> e in old(storage) && e.name != name
    {
      PurgedNodesExactly(Now(), name, rook && rookVersionKnown, faults);
      PurgedStorage(Now(), name, rook && rookVersionKnown, faults);
      if GetNode in faults {
        return false;
      }
      var node := FindNode(nodes, name);
      if rook && rookVersionKnown {
        var purged := RemoveCephClusterStorageNode(name, faults);
      }
      var maybeMaster := true;
      if node.Some? {
        maybeMaster := IsMaster(node.value);
      }
      if maybeMaster {
        var removed := RemoveControlPlane(name, node, faults);
        if !removed {
          return false;
        }
      }
      if node.Some? {
        if DeleteNode in faults {
          return false;
        }
        nodes := WithoutNode(nodes, name);
      }
      return true;
    }

    /** The steps taken for a node that may be a master: its API endpoint, then its etcd member. */
    method RemoveControlPlane(name: string, node: Option<Node>, faults: set<Fault>) returns (ok: bool)
      requires node == FindNode(nodes, name)
      modifies this, config
      ensures (Now(), ok) == ControlPlaneRemoved(old(Now()), name, faults)
      // the list comes first, and the member is touched only with the addresses of the others at hand
      ensures Kubeadm(GetConfigMap) in faults || old(config.stored) == Unreadable ==> !ok && Now() == old(Now())
      ensures Listed(old(config.stored)).Keys <= {name} && ListPods in faults ==> !ok && members == old(members)
      ensures ok && ResolvedIP(old(Now()), name) != "" ==> EtcdConnect !in faults && MemberList !in faults
      ensures nodes == old(nodes) && storage == old(storage)
    {
      var ip, remainingIPs, found := config.RemoveKubeadmEndpoint(name, KubeadmFaults(faults));
      if !found {
        return false;
      }
      NothingLeftIff(old(config.stored), name, ip, remainingIPs);
      if remainingIPs == [] && ListPods in faults {
        return false;
      }
      if ip == "" && node.Some? {
        ip := InternalIP(node.value);
      }
      if ip != "" {
        var removed := RemoveEtcdPeer(ip, faults);
        if !removed {
          return false;
        }
      }
      return true;
    }
  }

  /** No address is left exactly when nothing but `name` was listed. */
  lemma NothingLeftIff(s: Stored, name: string, ip: string, remaining: seq<string>)
    requires name in Listed(s) ==> multiset(remaining) + multiset{ip} == Addresses(Listed(s))
    requires name !in Listed(s) ==> multiset(remaining) == Addresses(Listed(s))
    ensures remaining == [] <==> Listed(s).Keys <= {name}
  {
    var m := Listed(s);
    AddressCount(m, m.Keys);
    assert |multiset(remaining)| == |remaining|;
    if m.Keys <= {name} {
      assert m.Keys == {} || m.Keys == {name};
    } else {
      var k :| k in m && k != name;
      if name in m {
        assert {k, name} <= m.Keys;
        AtLeast(m.Keys, {k, name});
      }
    }
  }

  lemma {:induction false} AtLeast(a: set<string>, b: set<string>)
    requires b <= a
    ensures |b| <= |a|
  {
    if b != {} {
      var x :| x in b;
      AtLeast(a - {x}, b - {x});
    }
  }

  lemma {:induction false} AddressCount(m: map<string, Endpoint>, names: set<string>)
    requires names <= m.Keys
    ensures |AddressesAt(m, names)| == |names|
    decreases names
  {
    if names != {} {
      var k :| k in names && AddressesAt(m, names) == AddressesAt(m, names - {k}) + multiset{m[k].Address()};
      AddressCount(m, names - {k});
    }
  }
}
