/**
 The internal load balancer (pkg/cluster/internallb.go): every node gets a configuration that names the
 masters, and a stored fingerprint tells later passes that nothing has changed since.
 */
module InternalLB {
  import opened Prelude
  import opened Nodes
  import opened Fingerprint

  /** The addresses of the masters that have one, in list order. */
  function Primaries(ps: seq<Props>): seq<string> {
    if ps == [] then []
    else
      var front, last := Primaries(ps[..|ps| - 1]), ps[|ps| - 1];
      if last.master && last.ip != "" then front + [last.ip] else front
  }

  // ---------- the masters ----------

  /** The places in the list with a master at that address; nobody is at the empty address. */
  function PlacesAt(nodes: seq<Node>, ip: string): set<nat> {
    set i: nat | i < |nodes| && IsMaster(nodes[i]) && InternalIP(nodes[i]) == ip && ip != ""
  }

  /** How many listed masters have that address. */
  function MastersAt(nodes: seq<Node>, ip: string): nat {
    |PlacesAt(nodes, ip)|
  }

  predicate SomeMaster(nodes: seq<Node>) {
    exists m :: m in nodes && IsMaster(m) && InternalIP(m) != ""
  }

  /** The hosts are the addresses found at the places `at`, which are those of all masters with an address, in
      list order. */
  predicate ListsMasters(hosts: seq<string>, nodes: seq<Node>, at: seq<nat>) {
    && |at| == |hosts|
    && (forall k :: 0 <= k < |at| ==> at[k] < |nodes| && IsMaster(nodes[at[k]]) && InternalIP(nodes[at[k]]) == hosts[k] && hosts[k] != "")
    && (forall j, k :: 0 <= j < k < |at| ==> at[j] < at[k])
    && (forall i: nat :: i < |nodes| && IsMaster(nodes[i]) && InternalIP(nodes[i]) != "" ==> i in at)
  }

  lemma {:induction false} PrimariesListMasters(nodes: seq<Node>) returns (at: seq<nat>)
    ensures ListsMasters(Primaries(PropsOf(nodes)), nodes, at)
  {
    if nodes == [] {
      at := [];
    } else {
      var front, last := nodes[..|nodes| - 1], nodes[|nodes| - 1];
      assert PropsOf(nodes)[..|nodes| - 1] == PropsOf(front);
      at := PrimariesListMasters(front);
      if IsMaster(last) && InternalIP(last) != "" {
        var before := at;
        at := at + [|front|];
        assert forall i :: i in at <==> i in before || i == |front|;
      }
    }
  }

  lemma PlacesNext(front: seq<Node>, last: Node, ip: string)
    ensures PlacesAt(front + [last], ip)
         == PlacesAt(front, ip) + if IsMaster(last) && InternalIP(last) == ip && ip != "" then {|front|} else {}
  {
    var nodes := front + [last];
    forall i: nat ensures i in PlacesAt(nodes, ip) <==> i in PlacesAt(front, ip) || (i == |front| && IsMaster(last) && InternalIP(last) == ip && ip != "") {
      if i < |front| {
        assert nodes[i] == front[i];
      }
    }
  }

  /** The list counts each address as often as there are masters at it. */
  lemma {:induction false} PrimariesCount(nodes: seq<Node>, ip: string)
    ensures multiset(Primaries(PropsOf(nodes)))[ip] == MastersAt(nodes, ip)
  {
    if nodes == [] {
      assert PlacesAt(nodes, ip) == {};
    } else {
      var front, last := nodes[..|nodes| - 1], nodes[|nodes| - 1];
      assert PropsOf(nodes)[..|nodes| - 1] == PropsOf(front) && nodes == front + [last];
      PrimariesCount(front, ip);
      PlacesNext(front, last, ip);
    }
  }

  lemma SomePlace(nodes: seq<Node>, ip: string)
    ensures MastersAt(nodes, ip) > 0 <==> ip != "" && exists m :: m in nodes && IsMaster(m) && InternalIP(m) == ip
  {
    if m :| m in nodes && IsMaster(m) && InternalIP(m) == ip && ip != "" {
      var i: nat :| i < |nodes| && nodes[i] == m;
      assert i in PlacesAt(nodes, ip);
    }
    if i :| i in PlacesAt(nodes, ip) {
      assert nodes[i] in nodes;
    }
  }

  lemma SomeMasterIff(nodes: seq<Node>)
    ensures SomeMaster(nodes) <==> Primaries(PropsOf(nodes)) != []
  {
    var hosts := Primaries(PropsOf(nodes));
    if m :| m in nodes && IsMaster(m) && InternalIP(m) != "" {
      SomePlace(nodes, InternalIP(m));
      PrimariesCount(nodes, InternalIP(m));
    }
    if hosts != [] {
      PrimariesCount(nodes, hosts[0]);
      SomePlace(nodes, hosts[0]);
    }
  }

  /** How the update pod of one node ends: done, failed before or after it wrote the configuration. */
  datatype PodResult = Done | FailedBefore | FailedAfter

  /** What may fail in a pass; `pods` gives the result of the update pod of each node by name. */
  datatype Faults = Faults(getMap: bool, createMap: bool, updateMap: bool, pods: string -> PodResult)

  type Installed = map<string, seq<string>>

  datatype State = State(stored: Option<string>, installed: Installed)

  /** Installing node by node, up to the first failure. */
  function Install(installed: Installed, names: seq<string>, hosts: seq<string>, pods: string -> PodResult): (Installed, bool)
    decreases names
  {
    if names == [] then (installed, true)
    else
      match pods(names[0])
      case Done => Install(installed[names[0] := hosts], names[1..], hosts, pods)
      case FailedBefore => (installed, false)
      case FailedAfter => (installed[names[0] := hosts], false)
  }

  function NamesOf(nodes: seq<Node>): seq<string> {
    seq(|nodes|, i requires 0 <= i < |nodes| => nodes[i].name)
  }

  /** Without any master address nothing is installed, and the update counts as done. */
  function Updated(installed: Installed, nodes: seq<Node>, pods: string -> PodResult): (Installed, bool) {
    var hosts := Primaries(PropsOf(nodes));
    if hosts == [] then (installed, true) else Install(installed, NamesOf(nodes), hosts, pods)
  }

  predicate InstalledOn(installed: Installed, nodes: seq<Node>, hosts: seq<string>) {
    forall n :: n in nodes ==> n.name in installed && installed[n.name] == hosts
  }

  /** What an update that goes through has installed. */
  lemma UpdatedMeans(installed: Installed, nodes: seq<Node>, pods: string -> PodResult)
    ensures var (after, ok) := Updated(installed, nodes, pods);
            && (ok && SomeMaster(nodes) ==> exists hosts, at :: ListsMasters(hosts, nodes, at) && InstalledOn(after, nodes, hosts))
            && (ok && SomeMaster(nodes) ==> forall n, ip :: n in nodes && n.name in after ==>
                  && multiset(after[n.name])[ip] == MastersAt(nodes, ip)
                  && (ip in after[n.name] <==> ip != "" && exists m :: m in nodes && IsMaster(m) && InternalIP(m) == ip))
            && (!SomeMaster(nodes) ==> ok && after == installed)
  {
    SomeMasterIff(nodes);
    var hosts := Primaries(PropsOf(nodes));
    var (after, ok) := Updated(installed, nodes, pods);
    if ok && SomeMaster(nodes) {
      var at := PrimariesListMasters(nodes);
      InstallEffect(installed, NamesOf(nodes), hosts, pods);
      NamesListed(nodes);
      assert InstalledOn(after, nodes, hosts);
      forall n, ip | n in nodes && n.name in after
        ensures multiset(after[n.name])[ip] == MastersAt(nodes, ip)
        ensures ip in after[n.name] <==> ip != "" && exists m :: m in nodes && IsMaster(m) && InternalIP(m) == ip
      {
        PrimariesCount(nodes, ip);
        SomePlace(nodes, ip);
      }
    }
  }

  lemma NamesListed(nodes: seq<Node>)
    ensures forall n :: n in nodes ==> n.name in NamesOf(nodes)
  {
    forall n | n in nodes ensures n.name in NamesOf(nodes) {
      var i :| 0 <= i < |nodes| && nodes[i] == n;
      assert NamesOf(nodes)[i] == n.name;
    }
  }

  /** What a pass did about the load balancer. */
  datatype Outcome = Idle | Succeeded | Failed

  function Reconciled(s: State, nodes: seq<Node>, f: Faults): (State, Outcome) {
    if f.getMap then (s, Idle)
    else if s.stored == None then (if f.createMap then s else s.(stored := Some("")), Idle)
    else if s.stored.value == FingerprintOf(nodes) then (s, Idle)
    else
      var (installed, ok) := Updated(s.installed, nodes, f.pods);
      var t := s.(installed := installed);
      if !ok || f.updateMap then (t, Failed) else (t.(stored := Some(FingerprintOf(nodes))), Succeeded)
  }

  class LoadBalancer {
    var stored: Option<string>
    var installed: Installed

    function Now(): State
      reads this
    {
      State(stored, installed)
    }

    method UpdateInternalLB(nodes: seq<Node>, pods: string -> PodResult) returns (ok: bool)
      modifies this`installed
      ensures (installed, ok) == Updated(old(installed), nodes, pods)
      // what is installed on success are the addresses of the listed masters in list order, on every listed node
      ensures ok && (exists m :: m in nodes && IsMaster(m) && InternalIP(m) != "") ==>
        exists hosts, at :: ListsMasters(hosts, nodes, at) && InstalledOn(installed, nodes, hosts)
      // so an address is named there exactly when a listed master has it, and as often
      ensures ok && (exists m :: m in nodes && IsMaster(m) && InternalIP(m) != "") ==>
        forall n, ip :: n in nodes && n.name in installed ==>
          && multiset(installed[n.name])[ip] == MastersAt(nodes, ip)
          && (ip in installed[n.name] <==> ip != "" && exists m :: m in nodes && IsMaster(m) && InternalIP(m) == ip)
      // and without a master that has an address nothing is
      ensures (forall m :: m in nodes && IsMaster(m) ==> InternalIP(m) == "") ==> ok && installed == old(installed)
    {
      UpdatedMeans(installed, nodes, pods);
      var primaryHosts: seq<string> := [];
      ghost var ps := PropsOf(nodes);
      for i := 0 to |nodes|
        invariant primaryHosts == Primaries(ps[..i])
      {
        assert ps[..i + 1][..i] == ps[..i];
        if !IsMaster(nodes[i]) {
          continue;
        }
        var host := InternalIP(nodes[i]);
        if host != "" {
          primaryHosts := primaryHosts + [host];
        }
      }
      assert ps[..|nodes|] == ps;
      if primaryHosts == [] {
        return true;
      }
      ghost var start := installed;
      ghost var names := NamesOf(nodes);
      assert names[0..] == names;
      for i := 0 to |nodes|
        invariant Install(start, names, primaryHosts, pods) == Install(installed, names[i..], primaryHosts, pods)
      {
        assert names[i..][0] == nodes[i].name && names[i..][1..] == names[i + 1..];
        match pods(nodes[i].name) {
          case FailedBefore => return false;
          case FailedAfter =>
            installed := installed[nodes[i].name := primaryHosts];
            return false;
          case Done =>
            installed := installed[nodes[i].name := primaryHosts];
        }
      }
      return true;
    }

    /** One pass. `outcome` tells whether it tried an update and whether that went through. */
    method ReconcileInternalLB(nodes: seq<Node>, f: Faults) returns (ok: bool, ghost outcome: Outcome)
      modifies this
      ensures (Now(), outcome) == Reconciled(old(Now()), nodes, f)
      ensures ok <==> !f.getMap && (old(stored) == None ==> !f.createMap) && outcome != Failed
    {
      var nextInternalLB := ComputeFingerprint(nodes);
      if f.getMap {
        return false, Idle;
      }
      if stored == None {
        if f.createMap {
          return false, Idle;
        }
        stored := Some("");
        return true, Idle;
      }
      if nextInternalLB == stored.value {
        return true, Idle;
      }
      var updated := UpdateInternalLB(nodes, f.pods);
      if !updated || f.updateMap {
        return false, Failed;
      }
      stored := Some(nextInternalLB);
      return true, Succeeded;
    }
  }

  // ---------- what the cache promises ----------

  /** Every listed node has a configuration that names each address as often as there are masters at it, or no
      master has an address. */
  ghost predicate Agrees(installed: Installed, nodes: seq<Node>) {
    !SomeMaster(nodes) || forall n :: n in nodes ==> n.name in installed && NamesMasters(installed[n.name], nodes)
  }

  ghost predicate NamesMasters(hosts: seq<string>, nodes: seq<Node>) {
    forall ip :: multiset(hosts)[ip] == MastersAt(nodes, ip)
  }

  lemma NamesMastersIff(hosts: seq<string>, nodes: seq<Node>)
    ensures NamesMasters(hosts, nodes) <==> multiset(hosts) == multiset(Primaries(PropsOf(nodes)))
  {
    forall ip ensures multiset(Primaries(PropsOf(nodes)))[ip] == MastersAt(nodes, ip) {
      PrimariesCount(nodes, ip);
    }
  }

  lemma AgreesIff(installed: Installed, nodes: seq<Node>)
    ensures Agrees(installed, nodes) <==>
      var hosts := Primaries(PropsOf(nodes));
      hosts == [] || forall n :: n in nodes ==> n.name in installed && multiset(installed[n.name]) == multiset(hosts)
  {
    SomeMasterIff(nodes);
    forall n | n in nodes && n.name in installed
      ensures NamesMasters(installed[n.name], nodes) <==> multiset(installed[n.name]) == multiset(Primaries(PropsOf(nodes)))
    {
      NamesMastersIff(installed[n.name], nodes);
    }
  }

  /** The stored fingerprint can be trusted: any node list with that fingerprint is configured. */
  ghost predicate Trusted(s: State) {
    forall nodes :: CleanNodes(nodes) && s.stored == Some(FingerprintOf(nodes)) ==> Agrees(s.installed, nodes)
  }

  lemma {:induction false} InstallEffect(installed: Installed, names: seq<string>, hosts: seq<string>, pods: string -> PodResult)
    ensures var (after, ok) := Install(installed, names, hosts, pods);
            && (ok ==> forall n :: n in names ==> n in after && after[n] == hosts)
            && (forall n :: n in after ==> after[n] == hosts || (n in installed && after[n] == installed[n]))
            && installed.Keys <= after.Keys
            && (forall n :: n in installed && n !in names ==> after[n] == installed[n])
    decreases names
  {
    if names != [] && pods(names[0]) == Done {
      InstallEffect(installed[names[0] := hosts], names[1..], hosts, pods);
    }
  }

  lemma {:induction false} PrimariesAppend(a: seq<Props>, b: seq<Props>)
    ensures Primaries(a + b) == Primaries(a) + Primaries(b)
  {
    if b == [] {
      assert a + b == a;
    } else {
      assert (a + b)[..|a + b| - 1] == a + b[..|b| - 1];
      PrimariesAppend(a, b[..|b| - 1]);
    }
  }

  function Without(ps: seq<Props>, i: nat): seq<Props>
    requires i < |ps|
  {
    ps[..i] + ps[i + 1..]
  }

  /** Taking out one entry takes out its own address and nothing else. */
  lemma PrimariesWithout(ps: seq<Props>, i: nat)
    requires i < |ps|
    ensures multiset(Primaries(ps)) == multiset(Primaries([ps[i]])) + multiset(Primaries(Without(ps, i)))
  {
    var left, p, right := ps[..i], [ps[i]], ps[i + 1..];
    Reassembled(ps, i);
    PrimariesMiddle(left, p, right);
  }

  lemma PrimariesMiddle(left: seq<Props>, p: seq<Props>, right: seq<Props>)
    ensures multiset(Primaries(left + (p + right))) == multiset(Primaries(p)) + multiset(Primaries(left + right))
  {
    PrimariesAppend(left, p + right);
    PrimariesAppend(p, right);
    PrimariesAppend(left, right);
    MiddleCounts(Primaries(left), Primaries(p), Primaries(right));
  }

  lemma MiddleCounts(x: seq<string>, y: seq<string>, z: seq<string>)
    ensures multiset(x + (y + z)) == multiset(y) + multiset(x + z)
  {
  }

  lemma Reassembled(ps: seq<Props>, i: nat)
    requires i < |ps|
    ensures ps == ps[..i] + ([ps[i]] + ps[i + 1..])
  {
  }

  lemma EntriesWithout(ps: seq<Props>, i: nat)
    requires i < |ps|
    ensures multiset(ps) == multiset{ps[i]} + multiset(Without(ps, i))
  {
    assert ps == ps[..i] + ([ps[i]] + ps[i + 1..]);
  }

  /** Listing the same nodes in another order names the same masters. */
  lemma {:induction false} PrimariesUpToOrder(a: seq<Props>, b: seq<Props>)
    requires multiset(a) == multiset(b)
    ensures multiset(Primaries(a)) == multiset(Primaries(b))
    decreases |a|
  {
    if a == [] {
      assert |multiset(b)| == |b|;
    } else {
      assert a[0] in multiset(b);
      var i :| 0 <= i < |b| && b[i] == a[0];
      EntriesWithout(a, 0);
      EntriesWithout(b, i);
      var m, n := multiset(Without(a, 0)), multiset(Without(b, i));
      assert m == (multiset{a[0]} + m) - multiset{a[0]};
      assert n == (multiset{a[0]} + n) - multiset{a[0]};
      PrimariesUpToOrder(Without(a, 0), Without(b, i));
      PrimariesWithout(a, 0);
      PrimariesWithout(b, i);
    }
  }

  lemma SameNames(a: seq<Node>, b: seq<Node>)
    requires multiset(PropsOf(a)) == multiset(PropsOf(b))
    ensures forall n :: n in b ==> n.name in NamesOf(a)
  {
    forall n | n in b ensures n.name in NamesOf(a) {
      var i :| 0 <= i < |b| && b[i] == n;
      assert PropsOf(b)[i] in multiset(PropsOf(a));
      var j :| 0 <= j < |a| && PropsOf(a)[j] == PropsOf(b)[i];
      assert NamesOf(a)[j] == n.name;
    }
  }

  lemma SuccessIsTrusted(s: State, nodes: seq<Node>, f: Faults)
    requires CleanNodes(nodes) && Reconciled(s, nodes, f).1 == Succeeded
    ensures Trusted(Reconciled(s, nodes, f).0)
  {
    var t := Reconciled(s, nodes, f).0;
    InstallEffect(s.installed, NamesOf(nodes), Primaries(PropsOf(nodes)), f.pods);
    forall other | CleanNodes(other) && t.stored == Some(FingerprintOf(other)) ensures Agrees(t.installed, other) {
      SameFingerprintAgrees(t.installed, nodes, other);
    }
  }

  /** Configured for one node list is configured for every list with the same fingerprint. */
  lemma SameFingerprintAgrees(installed: Installed, nodes: seq<Node>, other: seq<Node>)
    requires CleanNodes(nodes) && CleanNodes(other) && FingerprintOf(nodes) == FingerprintOf(other)
    requires var hosts := Primaries(PropsOf(nodes));
             hosts == [] || forall n :: n in NamesOf(nodes) ==> n in installed && installed[n] == hosts
    ensures Agrees(installed, other)
  {
    FingerprintCanonical(nodes, other);
    PrimariesUpToOrder(PropsOf(nodes), PropsOf(other));
    SameNames(nodes, other);
    if Primaries(PropsOf(nodes)) == [] {
      assert |multiset(Primaries(PropsOf(other)))| == 0;
    }
    AgreesIff(installed, other);
  }

  /** The empty fingerprint of a new cache belongs to the empty node list only. */
  lemma NewCacheIsTrusted(installed: Installed)
    ensures Trusted(State(Some(""), installed))
  {
    forall nodes | CleanNodes(nodes) && FingerprintOf(nodes) == "" ensures Agrees(installed, nodes) {
      EmptyFingerprint(nodes);
    }
  }

  lemma EmptyFingerprint(nodes: seq<Node>)
    requires CleanNodes(nodes) && FingerprintOf(nodes) == ""
    ensures nodes == []
  {
    LinesJoinable(PropsOf(nodes));
    SortSorts(Lines(PropsOf(nodes)));
    var sorted := Sort(Lines(PropsOf(nodes)));
    if sorted != [] {
      JoinHead(sorted);
    }
    assert |multiset(sorted)| == |sorted| && |multiset(Lines(PropsOf(nodes)))| == |nodes|;
  }

  /** Whether the most recent update attempt of some passes succeeded; true before any attempt. */
  predicate LastAttemptOk(before: bool, outcome: Outcome) {
    match outcome
    case Idle => before
    case Succeeded => true
    case Failed => false
  }

  datatype Pass = Pass(nodes: seq<Node>, faults: Faults)

  ghost function After(s: State, passes: seq<Pass>): (State, bool) {
    if passes == [] then (s, true)
    else
      var (t, lastOk) := After(s, passes[..|passes| - 1]);
      var p := passes[|passes| - 1];
      var (u, outcome) := Reconciled(t, p.nodes, p.faults);
      (u, LastAttemptOk(lastOk, outcome))
  }

  /** Over any passes with any node lists and failures, while the most recent update attempt succeeded the
      stored fingerprint can be trusted. */
  lemma {:induction false} CacheAgreement(s: State, passes: seq<Pass>)
    requires s.stored == None
    requires forall p :: p in passes ==> CleanNodes(p.nodes)
    ensures After(s, passes).1 ==> Trusted(After(s, passes).0)
  {
    if passes != [] {
      var front, p := passes[..|passes| - 1], passes[|passes| - 1];
      assert p in passes;
      CacheAgreement(s, front);
      var (t, lastOk) := After(s, front);
      if Reconciled(t, p.nodes, p.faults).1 == Succeeded {
        SuccessIsTrusted(t, p.nodes, p.faults);
      } else if Reconciled(t, p.nodes, p.faults).1 == Idle && t.stored == None {
        NewCacheIsTrusted(t.installed);
      }
    }
  }

  /** A pass over nodes whose properties differ from those last recorded attempts an update, and conversely. */
  lemma ChangeTriggersUpdate(s: State, recorded: seq<Node>, nodes: seq<Node>, f: Faults)
    requires CleanNodes(recorded) && CleanNodes(nodes) && s.stored == Some(FingerprintOf(recorded)) && !f.getMap
    ensures Reconciled(s, nodes, f).1 != Idle <==> multiset(PropsOf(nodes)) != multiset(PropsOf(recorded))
  {
    FingerprintCanonical(recorded, nodes);
  }

  // ---------- after a failed attempt ----------

  /** The nodes that a stopped installation reached. */
  function Reached(names: seq<string>, pods: string -> PodResult): set<string> {
    if names == [] then {}
    else
      match pods(names[0])
      case Done => {names[0]} + Reached(names[1..], pods)
      case FailedBefore => {}
      case FailedAfter => {names[0]}
  }

  lemma {:induction false} ReachedInstalled(installed: Installed, names: seq<string>, hosts: seq<string>, pods: string -> PodResult)
    ensures var after := Install(installed, names, hosts, pods).0;
            && after.Keys == installed.Keys + Reached(names, pods)
            && forall n :: n in after ==> after[n] == if n in Reached(names, pods) then hosts else installed[n]
    decreases names
  {
    if names != [] && pods(names[0]) == Done {
      ReachedInstalled(installed[names[0] := hosts], names[1..], hosts, pods);
    }
  }

  /** A failed attempt for `next` leaves the recorded nodes configured as recorded if and only if it reached
      none of them or installed the same masters. Otherwise going back to the recorded nodes is not noticed. */
  lemma FailedAttemptHarmlessIff(s: State, recorded: seq<Node>, next: seq<Node>, f: Faults)
    requires Agrees(s.installed, recorded) && SomeMaster(recorded) && SomeMaster(next)
    requires Reconciled(s, next, f).1 == Failed
    ensures Agrees(Reconciled(s, next, f).0.installed, recorded)
       <==> (forall ip :: MastersAt(next, ip) == MastersAt(recorded, ip))
            || forall n :: n in recorded ==> n.name !in Reached(NamesOf(next), f.pods)
  {
    SomeMasterIff(next);
    ReachedInstalled(s.installed, NamesOf(next), Primaries(PropsOf(next)), f.pods);
    AgreesAfterIff(s.installed, Reconciled(s, next, f).0.installed, recorded, Primaries(PropsOf(next)),
                   Reached(NamesOf(next), f.pods));
    NamesMastersIff(Primaries(PropsOf(next)), next);
  }

  lemma AgreesAfterIff(before: Installed, after: Installed, recorded: seq<Node>, hosts: seq<string>, reached: set<string>)
    requires Agrees(before, recorded) && SomeMaster(recorded)
    requires after.Keys == before.Keys + reached
    requires forall n :: n in after ==> after[n] == if n in reached then hosts else before[n]
    ensures Agrees(after, recorded) <==> NamesMasters(hosts, recorded) || forall n :: n in recorded ==> n.name !in reached
  {
    forall n | n in recorded
      ensures n.name in after && n.name in before
      ensures NamesMasters(before[n.name], recorded)
      ensures after[n.name] == if n.name in reached then hosts else before[n.name]
    {
    }
  }

  /** Reverting to the recorded nodes after such an attempt changes nothing any more. */
  lemma RevertIsNotNoticed(s: State, recorded: seq<Node>, next: seq<Node>, f: Faults, again: Faults)
    requires s.stored == Some(FingerprintOf(recorded)) && Reconciled(s, next, f).1 == Failed
    ensures Reconciled(Reconciled(s, next, f).0, recorded, again) == (Reconciled(s, next, f).0, Idle)
  {
  }

  /** One master with the given address. */
  function Master(ip: string): (n: Node)
    ensures n.name == "m" && IsMaster(n) && InternalIP(n) == ip
  {
    Node("m", map[MASTER_ROLE_LABEL := ""], [], [Address(INTERNAL_IP, ip)])
  }

  lemma OneMaster(ip: string)
    requires ip != ""
    ensures PropsOf([Master(ip)]) == [Props("m", true, ip)] && Primaries(PropsOf([Master(ip)])) == [ip]
    ensures ' ' !in ip && ',' !in ip ==> CleanNodes([Master(ip)])
  {
    var ps := PropsOf([Master(ip)]);
    assert ps == [Props("m", true, ip)] && ps[..0] == [];
  }

  function NoFaults(): Faults {
    Faults(false, false, false, _ => Done)
  }

  /** The configuration is installed and then the task reports a failure. */
  function FailsLate(): Faults {
    Faults(false, false, false, _ => FailedAfter)
  }

  /** The runs that lead there from an empty cache: the master gets the address `b`, the update fails late, and
      the master gets its address `a` back. The cache says that nothing is to be done, and the node keeps the
      configuration with `b`. */
  lemma RevertWitness(a: string, b: string) returns (passes: seq<Pass>)
    requires a != "" && b != "" && a != b
    requires ' ' !in a && ',' !in a && ' ' !in b && ',' !in b
    ensures passes == [Pass([Master(a)], NoFaults()), Pass([Master(a)], NoFaults()), Pass([Master(b)], FailsLate()), Pass([Master(a)], NoFaults())]
    ensures var s := After(State(None, map[]), passes).0;
            && s == State(Some(FingerprintOf([Master(a)])), map["m" := [b]])
            && !Agrees(s.installed, [Master(a)])
            && Reconciled(s, [Master(a)], NoFaults()) == (s, Idle)
  {
    var first, second := Pass([Master(a)], NoFaults()), Pass([Master(b)], FailsLate());
    passes := [first, first, second, first];
    var s0 := State(None, map[]);
    var s1 := State(Some(""), map[]);
    var s2 := State(Some(FingerprintOf([Master(a)])), map["m" := [a]]);
    var s3 := s2.(installed := map["m" := [b]]);
    FirstSuccess(a);
    LateFailure(a, b);
    assert passes[..3] == [first, first, second] && [first, first, second][..2] == [first, first];
    assert [first, first][..1] == [first] && [first][..0] == [];
    assert After(s0, [first]).0 == s1;
    assert After(s0, [first, first]).0 == s2;
    assert After(s0, [first, first, second]).0 == s3;
    OneMaster(a);
    assert Master(a) in [Master(a)];
    assert b in multiset([b]) && b !in multiset([a]);
  }

  lemma FirstSuccess(a: string)
    requires a != "" && ' ' !in a && ',' !in a
    ensures Reconciled(State(Some(""), map[]), [Master(a)], NoFaults())
         == (State(Some(FingerprintOf([Master(a)])), map["m" := [a]]), Succeeded)
  {
    OneMaster(a);
    if FingerprintOf([Master(a)]) == "" {
      EmptyFingerprint([Master(a)]);
    }
    InstallOne(map[], a, NoFaults().pods);
  }

  lemma LateFailure(a: string, b: string)
    requires a != "" && b != "" && a != b
    requires ' ' !in a && ',' !in a && ' ' !in b && ',' !in b
    ensures var s := State(Some(FingerprintOf([Master(a)])), map["m" := [a]]);
            Reconciled(s, [Master(b)], FailsLate()) == (s.(installed := map["m" := [b]]), Failed)
  {
    OneMaster(a);
    OneMaster(b);
    FingerprintCanonical([Master(a)], [Master(b)]);
    assert Props("m", true, a) in multiset([Props("m", true, a)]) && Props("m", true, a) !in multiset([Props("m", true, b)]);
    InstallOne(map["m" := [a]], b, FailsLate().pods);
    assert map["m" := [a]]["m" := [b]] == map["m" := [b]];
  }

  lemma InstallOne(installed: Installed, ip: string, pods: string -> PodResult)
    ensures NamesOf([Master(ip)]) == ["m"]
    ensures pods("m") == Done ==> Install(installed, ["m"], [ip], pods) == (installed["m" := [ip]], true)
    ensures pods("m") == FailedAfter ==> Install(installed, ["m"], [ip], pods) == (installed["m" := [ip]], false)
  {
    assert ["m"][1..] == [];
  }
}
