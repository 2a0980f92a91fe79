/**
 Purging may be stopped at any call and run again: a Node object disappears only after its etcd member.
 When the Node object is already missing that is no longer so, and the exact condition is given.
 */
module PurgeSafety {
  import opened Prelude
  import opened Nodes
  import opened KubeadmStatus
  import opened NodePurge

  ghost predicate HasMember(members: seq<Member>, ip: string) {
    exists m :: m in members && m.peerURL == PeerURL(ip)
  }

  /** What etcd itself guarantees: ids are unique and not 0, and so are peer URLs. */
  ghost predicate ValidMembers(members: seq<Member>) {
    && (forall m :: m in members ==> m.id != 0)
    && (forall m, n :: m in members && n in members && (m.id == n.id || m.peerURL == n.peerURL) ==> m == n)
  }

  // ---------- etcd removal ----------

  lemma {:induction false} MemberIdFinds(members: seq<Member>, url: string)
    requires ValidMembers(members)
    ensures MemberId(members, url) != 0 <==> exists m :: m in members && m.peerURL == url
    ensures forall m :: m in members && m.peerURL == url ==> MemberId(members, url) == m.id
  {
    if members != [] {
      var front, last := members[..|members| - 1], members[|members| - 1];
      assert members == front + [last];
      MemberIdFinds(front, url);
      if last.peerURL == url {
        assert last in members;
      } else if m :| m in members && m.peerURL == url {
        assert m in front;
      }
    }
  }

  lemma {:induction false} WithoutMemberKeeps(members: seq<Member>, id: nat)
    ensures forall m :: m in WithoutMember(members, id) <==> m in members && m.id != id
  {
    if members != [] {
      WithoutMemberKeeps(members[1..], id);
    }
  }

  /** Removal takes out the member with that address and no other. */
  lemma EtcdRemovedExactly(members: seq<Member>, ip: string)
    requires ValidMembers(members)
    ensures ValidMembers(EtcdRemoved(members, ip))
    ensures forall m :: m in EtcdRemoved(members, ip) <==> m in members && m.peerURL != PeerURL(ip)
  {
    MemberIdFinds(members, PeerURL(ip));
    WithoutMemberKeeps(members, MemberId(members, PeerURL(ip)));
  }

  lemma {:induction false} WithoutNodeFinds(nodes: seq<Node>, name: string)
    ensures FindNode(WithoutNode(nodes, name), name) == None
    ensures forall n :: n != name ==> FindNode(WithoutNode(nodes, name), n) == FindNode(nodes, n)
  {
    if nodes != [] {
      WithoutNodeFinds(nodes[1..], name);
      if nodes[0].name != name {
        assert WithoutNode(nodes, name)[1..] == WithoutNode(nodes[1..], name);
      }
    }
  }

  // ---------- retries ----------

  /** Each control-plane node has an etcd member at its own address: its Node, while there, carries the
      address, and the kubeadm list, where it mentions the node with an address, mentions that one. */
  ghost predicate Traceable(s: State, peers: map<string, string>) {
    && s.status != Unreadable
    && ValidMembers(s.members)
    && (forall name :: name in peers ==> peers[name] != "")
    && (forall name :: name in peers ==>
         var node := FindNode(s.nodes, name);
         node.Some? ==> IsMaster(node.value) && InternalIP(node.value) == peers[name])
    && (forall name :: name in peers ==> ListedIP(s, name) == "" || ListedIP(s, name) == peers[name])
  }

  /** The Node object still exists or its etcd member is gone. */
  ghost predicate NodeOrNoMember(s: State, peers: map<string, string>) {
    forall name :: name in peers ==> FindNode(s.nodes, name).Some? || !HasMember(s.members, peers[name])
  }

  ghost predicate RetrySafe(s: State, peers: map<string, string>) {
    Traceable(s, peers) && NodeOrNoMember(s, peers)
  }

  /** Each part of the state is either left alone or changed as a complete attempt changes it. */
  lemma AttemptEffect(s: State, name: string, withCeph: bool, faults: set<Fault>)
    ensures var t := Purged(s, name, withCeph, faults).0;
            && (t.status == s.status || t.status == Removed(s.status, name))
            && (t.members == s.members || t.members == EtcdRemoved(s.members, ResolvedIP(s, name)))
            && (t.members != s.members ==> ResolvedIP(s, name) != "")
            && (t.nodes == s.nodes || t.nodes == WithoutNode(s.nodes, name))
  {
    if GetNode !in faults {
      var s1 := AfterStorage(s, name, withCeph, faults);
      ControlPlaneEffect(s1, name, faults);
      assert ResolvedIP(s1, name) == ResolvedIP(s, name);
      var s2 := if MaybeMaster(s, name) then ControlPlaneRemoved(s1, name, faults).0 else s1;
      LastStepEffect(s2, name, faults);
    }
  }

  lemma ControlPlaneEffect(s: State, name: string, faults: set<Fault>)
    ensures var t := ControlPlaneRemoved(s, name, faults).0;
            && (t.status == s.status || t.status == Removed(s.status, name))
            && (t.members == s.members
                || (t.members == EtcdRemoved(s.members, ResolvedIP(s, name)) && ResolvedIP(s, name) != ""))
            && t.nodes == s.nodes
  {
  }

  lemma LastStepEffect(s: State, name: string, faults: set<Fault>)
    ensures var t := LastStep(s, name, faults).0;
            t.status == s.status && t.members == s.members && (t.nodes == s.nodes || t.nodes == WithoutNode(s.nodes, name))
  {
  }

  lemma RemovedListedIP(s: State, t: State, name: string, n: string)
    requires t.status == s.status || t.status == Removed(s.status, name)
    ensures ListedIP(t, n) == "" || ListedIP(t, n) == ListedIP(s, n)
    ensures t.status == Unreadable <==> s.status == Unreadable
  {
    RemovedListing(s.status, name);
  }

  /** Nothing an attempt does makes an address untraceable. */
  lemma AttemptKeepsTraces(s: State, peers: map<string, string>, name: string, withCeph: bool, faults: set<Fault>)
    requires Traceable(s, peers)
    ensures var t := Purged(s, name, withCeph, faults).0;
            && Traceable(t, peers)
            && (forall m :: m in t.members ==> m in s.members)
            && (forall n :: n != name ==> FindNode(t.nodes, n) == FindNode(s.nodes, n))
  {
    AttemptEffect(s, name, withCeph, faults);
    var t := Purged(s, name, withCeph, faults).0;
    TracesKept(s, t, peers, name);
  }

  lemma TracesKept(s: State, t: State, peers: map<string, string>, name: string)
    requires Traceable(s, peers)
    requires t.status == s.status || t.status == Removed(s.status, name)
    requires t.members == s.members || t.members == EtcdRemoved(s.members, ResolvedIP(s, name))
    requires t.nodes == s.nodes || t.nodes == WithoutNode(s.nodes, name)
    ensures Traceable(t, peers)
    ensures forall m :: m in t.members ==> m in s.members
    ensures forall n :: n != name ==> FindNode(t.nodes, n) == FindNode(s.nodes, n)
  {
    WithoutNodeFinds(s.nodes, name);
    EtcdRemovedExactly(s.members, ResolvedIP(s, name));
    RemovedListedIP(s, t, name, name);
    forall n | n in peers ensures ListedIP(t, n) == "" || ListedIP(t, n) == peers[n] {
      RemovedListedIP(s, t, name, n);
    }
    forall n | n in peers && FindNode(t.nodes, n).Some?
      ensures IsMaster(FindNode(t.nodes, n).value) && InternalIP(FindNode(t.nodes, n).value) == peers[n]
    {
      assert FindNode(t.nodes, n) == FindNode(s.nodes, n);
    }
  }

  /** An attempt that deletes the Node of a traceable master has removed its member. */
  lemma DeletionComesLast(s: State, peers: map<string, string>, name: string, withCeph: bool, faults: set<Fault>)
    requires Traceable(s, peers) && name in peers
    requires FindNode(s.nodes, name).Some? && FindNode(Purged(s, name, withCeph, faults).0.nodes, name) == None
    ensures !HasMember(Purged(s, name, withCeph, faults).0.members, peers[name])
  {
    assert ResolvedIP(s, name) == peers[name];
    EtcdRemovedExactly(s.members, peers[name]);
    assert ResolvedIP(AfterStorage(s, name, withCeph, faults), name) == peers[name];
  }

  lemma AttemptKeepsRetrySafe(s: State, peers: map<string, string>, name: string, withCeph: bool, faults: set<Fault>)
    requires RetrySafe(s, peers)
    ensures RetrySafe(Purged(s, name, withCeph, faults).0, peers)
  {
    var t := Purged(s, name, withCeph, faults).0;
    AttemptKeepsTraces(s, peers, name, withCeph, faults);
    forall n | n in peers ensures FindNode(t.nodes, n).Some? || !HasMember(t.members, peers[n]) {
      if n == name && FindNode(s.nodes, n).Some? && FindNode(t.nodes, n) == None {
        DeletionComesLast(s, peers, name, withCeph, faults);
      } else if FindNode(s.nodes, n) == None {
        assert !HasMember(s.members, peers[n]);
      }
    }
  }

  /** One attempt of a run: which node, with or without Ceph, and which calls fail. */
  datatype Attempt = Attempt(name: string, withCeph: bool, faults: set<Fault>)

  ghost function After(s: State, attempts: seq<Attempt>): State {
    if attempts == [] then s
    else
      var last := attempts[|attempts| - 1];
      Purged(After(s, attempts[..|attempts| - 1]), last.name, last.withCeph, last.faults).0
  }

  /** Over any attempts on any nodes, each stopped anywhere, every control-plane node is still there or its
      member is gone. */
  lemma {:induction false} PurgeIsRetrySafe(s: State, peers: map<string, string>, attempts: seq<Attempt>)
    requires RetrySafe(s, peers)
    ensures RetrySafe(After(s, attempts), peers)
  {
    if attempts != [] {
      var front, last := attempts[..|attempts| - 1], attempts[|attempts| - 1];
      PurgeIsRetrySafe(s, peers, front);
      AttemptKeepsRetrySafe(After(s, front), peers, last.name, last.withCeph, last.faults);
    }
  }

  /** So one failure-free attempt at the end always removes the member and the Node. */
  lemma LaterAttemptFinishes(s: State, peers: map<string, string>, attempts: seq<Attempt>, name: string, withCeph: bool)
    requires RetrySafe(s, peers) && name in peers
    ensures var (t, ok) := Purged(After(s, attempts), name, withCeph, {});
            ok && !HasMember(t.members, peers[name]) && FindNode(t.nodes, name) == None
  {
    PurgeIsRetrySafe(s, peers, attempts);
    var mid := After(s, attempts);
    WithoutNodeFinds(mid.nodes, name);
    AttemptKeepsRetrySafe(mid, peers, name, withCeph, {});
  }

  // ---------- without a Node object ----------

  /** Which member a failure-free attempt removes is decided by the address it resolves: the member of `ip`
      is gone afterwards if and only if it was gone before or the node may be a master and resolves to it. */
  lemma AttemptRemovesMemberIff(s: State, name: string, ip: string, withCeph: bool)
    requires ValidMembers(s.members) && s.status != Unreadable && ip != ""
    ensures !HasMember(Purged(s, name, withCeph, {}).0.members, ip)
       <==> !HasMember(s.members, ip) || (MaybeMaster(s, name) && ResolvedIP(s, name) == ip)
  {
    var resolved := ResolvedIP(s, name);
    EtcdRemovedExactly(s.members, resolved);
    var s1 := AfterStorage(s, name, withCeph, {});
    assert ResolvedIP(s1, name) == resolved;
    if MaybeMaster(s, name) && resolved != "" && resolved != ip && HasMember(s.members, ip) {
      var m :| m in s.members && m.peerURL == PeerURL(ip);
      if m.peerURL == PeerURL(resolved) {
        PeerURLInjective(ip, resolved);
      }
      assert m in EtcdRemoved(s.members, resolved);
    }
  }

  /** With neither a Node object nor a listed address, no attempt ever touches the member again. */
  lemma {:induction false} LostMemberStays(s: State, name: string, attempts: seq<Attempt>)
    requires FindNode(s.nodes, name) == None && ListedIP(s, name) == ""
    requires forall a :: a in attempts ==> a.name == name
    ensures var t := After(s, attempts);
            t.members == s.members && FindNode(t.nodes, name) == None && ListedIP(t, name) == ""
  {
    if attempts != [] {
      var front := attempts[..|attempts| - 1];
      LostMemberStays(s, name, front);
      var mid, last := After(s, front), attempts[|attempts| - 1];
      assert last in attempts;
      AttemptEffect(mid, name, last.withCeph, last.faults);
      RemovedListedIP(mid, Purged(mid, name, last.withCeph, last.faults).0, name, name);
      WithoutNodeFinds(mid.nodes, name);
    }
  }

  /** Retry safety needs the Node object: when it is missing, an attempt that edits the kubeadm list and then
      fails to reach etcd leaves a member that no later attempt removes. */
  lemma MissingNodeLosesMember(s: State, name: string, ip: string, withCeph: bool, later: seq<Attempt>)
    requires FindNode(s.nodes, name) == None && s.status != Unreadable
    requires ip != "" && ListedIP(s, name) == ip && HasMember(s.members, ip)
    requires forall a :: a in later ==> a.name == name
    ensures HasMember(After(s, [Attempt(name, withCeph, {MemberList})] + later).members, ip)
  {
    StopsBeforeEtcd(s, name, withCeph);
    LostMemberStays(Purged(s, name, withCeph, {MemberList}).0, name, later);
    AfterFirst(s, Attempt(name, withCeph, {MemberList}), later);
  }

  lemma StopsBeforeEtcd(s: State, name: string, withCeph: bool)
    requires MaybeMaster(s, name) && s.status != Unreadable && ListedIP(s, name) != ""
    ensures var t := Purged(s, name, withCeph, {MemberList}).0;
            t.nodes == s.nodes && t.members == s.members && ListedIP(t, name) == ""
  {
    RemovedListing(s.status, name);
  }

  lemma {:induction false} AfterFirst(s: State, first: Attempt, later: seq<Attempt>)
    ensures After(s, [first] + later) == After(Purged(s, first.name, first.withCeph, first.faults).0, later)
  {
    if later == [] {
      assert [first] + later == [first];
      assert [first][..0] == [];
      assert After(s, [first][..0]) == s;
    } else {
      assert ([first] + later)[..|later|] == [first] + later[..|later| - 1];
      AfterFirst(s, first, later[..|later| - 1]);
    }
  }

  // ---------- exactly when a purge is safe to retry ----------

  predicate AllOn(attempts: seq<Attempt>, name: string) {
    forall k :: 0 <= k < |attempts| ==> attempts[k].name == name
  }

  /** However the attempts before were stopped, an attempt without failures leaves no member of `ip`. */
  ghost predicate SafeToRetry(s: State, name: string, ip: string, withCeph: bool) {
    forall attempts :: AllOn(attempts, name) ==> !HasMember(Purged(After(s, attempts), name, withCeph, {}).0.members, ip)
  }

  lemma PurgeKeepsMembersOut(s: State, name: string, withCeph: bool, faults: set<Fault>, ip: string)
    requires ValidMembers(s.members)
    ensures var t := Purged(s, name, withCeph, faults).0; ValidMembers(t.members) && (HasMember(t.members, ip) ==> HasMember(s.members, ip))
  {
    AttemptEffect(s, name, withCeph, faults);
    EtcdRemovedExactly(s.members, ResolvedIP(s, name));
  }

  lemma {:induction false} AttemptsKeepMembersOut(s: State, attempts: seq<Attempt>, ip: string)
    requires ValidMembers(s.members)
    ensures ValidMembers(After(s, attempts).members) && (HasMember(After(s, attempts).members, ip) ==> HasMember(s.members, ip))
  {
    if attempts != [] {
      var front, last := attempts[..|attempts| - 1], attempts[|attempts| - 1];
      AttemptsKeepMembersOut(s, front, ip);
      PurgeKeepsMembersOut(After(s, front), last.name, last.withCeph, last.faults, ip);
    }
  }

  /** The Node is there as a control-plane node at this address, and the kubeadm list does not say otherwise. */
  predicate TracedByNode(s: State, name: string, ip: string) {
    var node := FindNode(s.nodes, name);
    && node.Some? && IsMaster(node.value) && InternalIP(node.value) == ip
    && (ListedIP(s, name) == "" || ListedIP(s, name) == ip)
  }

  lemma TracedIsSafe(s: State, name: string, ip: string, withCeph: bool)
    requires ValidMembers(s.members) && s.status != Unreadable && ip != "" && TracedByNode(s, name, ip)
    ensures SafeToRetry(s, name, ip, withCeph)
  {
    var peers := map[name := ip];
    assert RetrySafe(s, peers);
    forall attempts | AllOn(attempts, name) ensures !HasMember(Purged(After(s, attempts), name, withCeph, {}).0.members, ip) {
      LaterAttemptFinishes(s, peers, attempts, name, withCeph);
    }
  }

  lemma GoneIsSafe(s: State, name: string, ip: string, withCeph: bool)
    requires ValidMembers(s.members) && !HasMember(s.members, ip)
    ensures SafeToRetry(s, name, ip, withCeph)
  {
    forall attempts | AllOn(attempts, name) ensures !HasMember(Purged(After(s, attempts), name, withCeph, {}).0.members, ip) {
      AttemptsKeepMembersOut(s, attempts, ip);
      PurgeKeepsMembersOut(After(s, attempts), name, withCeph, {}, ip);
    }
  }

  /** Otherwise no attempt resolves the address, or one stopped before etcd has taken the only trace away. */
  lemma UntracedIsUnsafe(s: State, name: string, ip: string, withCeph: bool)
    requires ValidMembers(s.members) && s.status != Unreadable && ip != "" && HasMember(s.members, ip) && !TracedByNode(s, name, ip)
    ensures !SafeToRetry(s, name, ip, withCeph)
  {
    assert After(s, []) == s && AllOn([], name);
    AttemptRemovesMemberIff(s, name, ip, withCeph);
    if MaybeMaster(s, name) && ResolvedIP(s, name) == ip {
      assert ListedIP(s, name) == ip;
      var stopped := [Attempt(name, withCeph, {MemberList})];
      assert stopped[..0] == [] && AllOn(stopped, name);
      var t := After(s, stopped);
      assert t == Purged(s, name, withCeph, {MemberList}).0;
      StopsBeforeEtcd(s, name, withCeph);
      StoppedIsReadable(s, name, withCeph);
      AttemptRemovesMemberIff(t, name, ip, withCeph);
    }
  }

  lemma StoppedIsReadable(s: State, name: string, withCeph: bool)
    requires s.status != Unreadable
    ensures Purged(s, name, withCeph, {MemberList}).0.status != Unreadable
  {
    AttemptEffect(s, name, withCeph, {MemberList});
  }

  /** Exactly when a purge is safe to retry: the member is gone already, or the Node object is there, as a
      control-plane node whose address is the member's, with nothing else in the kubeadm list. Without the Node,
      or with another address on it, an attempt that edits the list and is stopped before etcd is enough to lose
      the member for good. */
  lemma RetrySafeIff(s: State, name: string, ip: string, withCeph: bool)
    requires ValidMembers(s.members) && s.status != Unreadable && ip != ""
    ensures SafeToRetry(s, name, ip, withCeph) <==> !HasMember(s.members, ip) || TracedByNode(s, name, ip)
  {
    if !HasMember(s.members, ip) {
      GoneIsSafe(s, name, ip, withCeph);
    } else if TracedByNode(s, name, ip) {
      TracedIsSafe(s, name, ip, withCeph);
    } else {
      UntracedIsUnsafe(s, name, ip, withCeph);
    }
  }
}
