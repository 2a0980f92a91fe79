/**
 The HA MinIO rebalancer (pkg/cluster/minio.go): one reconcile pass looks at where the ha-minio pods
 run and deletes at most one of them, with its claim, so that it is scheduled elsewhere.
 */
module MinioRebalance {
  import opened Prelude
  import opened Nodes

  /** `lastTransition` and the pass's `now` are in seconds. */
  datatype Condition = Condition(podScheduled: bool, isFalse: bool, lastTransition: int)

  /** A volume is the name of the claim it mounts, or None when it is not a claim. */
  datatype Pod = Pod(name: string, hostIP: string, pending: bool, conditions: seq<Condition>,
                     volumes: seq<Option<string>>)

  /** The calls of one pass that can fail; the two deletes are calls on one named object. */
  datatype Call = ListPods | ListNodes | DeleteClaim | DeletePod

  /** What a maintenance probe of a pod answers; each of the three scans probes afresh. */
  type Probe = (int, Pod) -> bool

  const UNSCHEDULABLE_SECONDS := 300

  // ---------- where pods run ----------

  function OnHost(pods: seq<Pod>, host: string): seq<Pod> {
    if pods == [] then []
    else
      var front := OnHost(pods[..|pods| - 1], host);
      if pods[|pods| - 1].hostIP == host then front + [pods[|pods| - 1]] else front
  }

  function HostsOf(pods: seq<Pod>): set<string> {
    set p | p in pods :: p.hostIP
  }

  function ByHost(pods: seq<Pod>): map<string, seq<Pod>> {
    map h | h in HostsOf(pods) :: OnHost(pods, h)
  }

  lemma {:induction false} OnHostMembers(pods: seq<Pod>, host: string)
    ensures forall p :: p in OnHost(pods, host) <==> p in pods && p.hostIP == host
  {
    if pods != [] {
      var front, last := pods[..|pods| - 1], pods[|pods| - 1];
      assert pods == front + [last];
      OnHostMembers(front, host);
    }
  }

  lemma {:induction false} NothingElsewhere(pods: seq<Pod>, host: string)
    requires host !in HostsOf(pods)
    ensures OnHost(pods, host) == []
  {
    if pods != [] {
      assert pods[|pods| - 1] in pods;
      NothingElsewhere(pods[..|pods| - 1], host);
    }
  }

  /** What one more pod does to the map. */
  lemma ByHostNext(pods: seq<Pod>, i: nat)
    requires i < |pods|
    ensures var before, host := ByHost(pods[..i]), pods[i].hostIP;
            ByHost(pods[..i + 1]) == before[host := (if host in before then before[host] else []) + [pods[i]]]
  {
    var host := pods[i].hostIP;
    assert pods[..i + 1][..i] == pods[..i];
    assert HostsOf(pods[..i + 1]) == HostsOf(pods[..i]) + {host} by {
      assert pods[..i + 1] == pods[..i] + [pods[i]];
    }
    if host !in HostsOf(pods[..i]) {
      NothingElsewhere(pods[..i], host);
    }
  }

  method GroupByHost(pods: seq<Pod>) returns (hosts: map<string, seq<Pod>>)
    ensures hosts == ByHost(pods)
  {
    hosts := map[];
    for i := 0 to |pods|
      invariant hosts == ByHost(pods[..i])
    {
      var pod := pods[i];
      ByHostNext(pods, i);
      if pod.hostIP !in hosts {
        hosts := hosts[pod.hostIP := []];
      }
      hosts := hosts[pod.hostIP := hosts[pod.hostIP] + [pod]];
    }
    assert pods[..|pods|] == pods;
  }

  // ---------- which pod a pass picks ----------

  /** The floor and ceiling of pods per ready node. */
  datatype Bounds = Bounds(min: int, max: int)

  /** With no ready node the source converts an infinite float64 to int, whose value Go leaves to the
      implementation: it is the parameter `overflow`. */
  function BoundsFor(numPods: nat, readyNodes: nat, overflow: int): Bounds {
    if readyNodes == 0 then Bounds(overflow, overflow)
    else Bounds(numPods / readyNodes, (numPods + readyNodes - 1) / readyNodes)
  }

  predicate BelowMin(hosts: map<string, seq<Pod>>, b: Bounds) {
    exists h :: h in hosts && |hosts[h]| < b.min
  }

  /** The hosts a scan may take a pod from: too many pods; the most pods while some host has too few;
      more than one pod while some ready node has none. */
  function Candidates(scan: int, hosts: map<string, seq<Pod>>, readyNodes: nat, b: Bounds): set<string> {
    if scan == 0 then set h | h in hosts && |hosts[h]| > b.max
    else if scan == 1 then
      if BelowMin(hosts, b) then set h | h in hosts && |hosts[h]| == b.max else {}
    else if |hosts| < readyNodes then set h | h in hosts && |hosts[h]| > 1 else {}
  }

  /** Candidates whose first pod may be taken down now. A host with no pods is never a map entry. */
  ghost function SafeCandidates(scan: int, hosts: map<string, seq<Pod>>, readyNodes: nat, b: Bounds,
                                probe: Probe): set<string>
  {
    set h | h in Candidates(scan, hosts, readyNodes, b) && hosts[h] != [] && probe(scan, hosts[h][0])
  }

  /** `victim` is what some iteration order of the three scans picks. */
  ghost predicate Picks(hosts: map<string, seq<Pod>>, readyNodes: nat, b: Bounds, probe: Probe, victim: Option<Pod>) {
    var s0 := SafeCandidates(0, hosts, readyNodes, b, probe);
    var s1 := SafeCandidates(1, hosts, readyNodes, b, probe);
    var s2 := SafeCandidates(2, hosts, readyNodes, b, probe);
    var s := if s0 != {} then s0 else if s1 != {} then s1 else s2;
    if s == {} then victim == None
    else exists h :: h in s && victim == Some(hosts[h][0])
  }

  // ---------- the same in terms of the pods alone ----------

  function HostIPs(pods: seq<Pod>): seq<string> {
    seq(|pods|, i requires 0 <= i < |pods| => pods[i].hostIP)
  }

  /** How many pods run on a host. */
  function PodsAt(pods: seq<Pod>, host: string): nat {
    multiset(HostIPs(pods))[host]
  }

  /** No pod listed before it runs on its host. */
  predicate FirstOfHost(pods: seq<Pod>, i: nat)
    requires i < |pods|
  {
    forall j :: 0 <= j < i ==> pods[j].hostIP != pods[i].hostIP
  }

  lemma {:induction false} PodsAtCounts(pods: seq<Pod>, host: string)
    ensures PodsAt(pods, host) == |OnHost(pods, host)|
  {
    if pods != [] {
      var front, last := pods[..|pods| - 1], pods[|pods| - 1];
      PodsAtCounts(front, host);
      assert HostIPs(pods) == HostIPs(front) + [last.hostIP];
    }
  }

  lemma {:induction false} FirstIsFirst(pods: seq<Pod>, i: nat)
    requires i < |pods| && FirstOfHost(pods, i)
    ensures OnHost(pods, pods[i].hostIP) != [] && OnHost(pods, pods[i].hostIP)[0] == pods[i]
  {
    var front, last := pods[..|pods| - 1], pods[|pods| - 1];
    if i < |front| {
      FirstIsFirst(front, i);
    } else {
      forall p | p in front ensures p.hostIP != last.hostIP {
        var j :| 0 <= j < |front| && front[j] == p;
        assert pods[j] == p;
      }
      NothingElsewhere(front, last.hostIP);
    }
  }

  lemma {:induction false} SomeFirst(pods: seq<Pod>, host: string) returns (i: nat)
    requires host in HostsOf(pods)
    ensures i < |pods| && FirstOfHost(pods, i) && pods[i].hostIP == host
            && OnHost(pods, host) != [] && pods[i] == OnHost(pods, host)[0]
  {
    var front, last := pods[..|pods| - 1], pods[|pods| - 1];
    assert pods == front + [last];
    if host in HostsOf(front) {
      i := SomeFirst(front, host);
    } else {
      i := |front|;
      assert forall j :: 0 <= j < i ==> pods[j] in front;
    }
    FirstIsFirst(pods, i);
  }

  /** What each of the three rules says of the host of a pod. */
  predicate Wanted(scan: int, pods: seq<Pod>, i: nat, readyNodes: nat, b: Bounds)
    requires i < |pods|
  {
    var here := PodsAt(pods, pods[i].hostIP);
    if scan == 0 then here > b.max
    else if scan == 1 then here == b.max && exists p :: p in pods && PodsAt(pods, p.hostIP) < b.min
    else here > 1 && |set p | p in pods :: p.hostIP| < readyNodes
  }

  /** The probe refuses the first pod of every host that the rule is about. */
  ghost predicate Declined(scan: int, pods: seq<Pod>, readyNodes: nat, b: Bounds, probe: Probe) {
    forall i :: 0 <= i < |pods| && FirstOfHost(pods, i) && Wanted(scan, pods, i, readyNodes, b) ==> !probe(scan, pods[i])
  }

  /** The pod taken is the first on its host, one of the rules is about that host, and the probe of that rule
      allows it. */
  ghost predicate TakenByRule(pods: seq<Pod>, readyNodes: nat, b: Bounds, probe: Probe, victim: Pod) {
    var here := PodsAt(pods, victim.hostIP);
    exists i ::
      && 0 <= i < |pods| && pods[i] == victim
      && (forall j :: 0 <= j < i ==> pods[j].hostIP != victim.hostIP)
      && (|| (here > b.max && probe(0, victim))
          || (here == b.max && probe(1, victim) && exists p :: p in pods && PodsAt(pods, p.hostIP) < b.min)
          || (here > 1 && probe(2, victim) && |set p | p in pods :: p.hostIP| < readyNodes))
  }

  /** The probes refuse the first pod of every host that a rule is about. */
  ghost predicate RefusedByProbes(pods: seq<Pod>, readyNodes: nat, b: Bounds, probe: Probe) {
    forall i | 0 <= i < |pods| && (forall j :: 0 <= j < i ==> pods[j].hostIP != pods[i].hostIP) ::
      && (PodsAt(pods, pods[i].hostIP) > b.max ==> !probe(0, pods[i]))
      && (PodsAt(pods, pods[i].hostIP) == b.max && (exists p :: p in pods && PodsAt(pods, p.hostIP) < b.min)
          ==> !probe(1, pods[i]))
      && (PodsAt(pods, pods[i].hostIP) > 1 && |set p | p in pods :: p.hostIP| < readyNodes ==> !probe(2, pods[i]))
  }

  lemma BelowMinMeans(pods: seq<Pod>, b: Bounds)
    ensures BelowMin(ByHost(pods), b) <==> exists p :: p in pods && PodsAt(pods, p.hostIP) < b.min
  {
    forall h | h in ByHost(pods) ensures |ByHost(pods)[h]| == PodsAt(pods, h) && exists p :: p in pods && p.hostIP == h {
      PodsAtCounts(pods, h);
    }
    forall p | p in pods ensures p.hostIP in ByHost(pods) && |ByHost(pods)[p.hostIP]| == PodsAt(pods, p.hostIP) {
      PodsAtCounts(pods, p.hostIP);
    }
  }

  lemma CandidateMeans(scan: int, pods: seq<Pod>, i: nat, readyNodes: nat, b: Bounds)
    requires 0 <= scan <= 2 && i < |pods|
    ensures pods[i].hostIP in Candidates(scan, ByHost(pods), readyNodes, b) <==> Wanted(scan, pods, i, readyNodes, b)
  {
    PodsAtCounts(pods, pods[i].hostIP);
    BelowMinMeans(pods, b);
    assert pods[i] in pods;
    assert ByHost(pods).Keys == set p | p in pods :: p.hostIP;
  }

  lemma SafeMeans(scan: int, pods: seq<Pod>, readyNodes: nat, b: Bounds, probe: Probe, h: string) returns (i: nat)
    requires 0 <= scan <= 2 && h in SafeCandidates(scan, ByHost(pods), readyNodes, b, probe)
    ensures i < |pods| && FirstOfHost(pods, i) && pods[i] == ByHost(pods)[h][0]
    ensures Wanted(scan, pods, i, readyNodes, b) && probe(scan, pods[i])
  {
    i := SomeFirst(pods, h);
    CandidateMeans(scan, pods, i, readyNodes, b);
  }

  lemma DeclinedIff(scan: int, pods: seq<Pod>, readyNodes: nat, b: Bounds, probe: Probe)
    requires 0 <= scan <= 2
    ensures SafeCandidates(scan, ByHost(pods), readyNodes, b, probe) == {} <==> Declined(scan, pods, readyNodes, b, probe)
  {
    var safe := SafeCandidates(scan, ByHost(pods), readyNodes, b, probe);
    if h :| h in safe {
      var i := SafeMeans(scan, pods, readyNodes, b, probe, h);
    } else {
      forall i | 0 <= i < |pods| && FirstOfHost(pods, i) && Wanted(scan, pods, i, readyNodes, b) ensures !probe(scan, pods[i]) {
        CandidateMeans(scan, pods, i, readyNodes, b);
        FirstIsFirst(pods, i);
        assert pods[i].hostIP !in safe;
      }
    }
  }

  /** What a pick means in terms of the listed pods. */
  lemma PickMeans(pods: seq<Pod>, readyNodes: nat, b: Bounds, probe: Probe, victim: Pod)
    requires Picks(ByHost(pods), readyNodes, b, probe, Some(victim))
    ensures TakenByRule(pods, readyNodes, b, probe, victim)
  {
    var hosts := ByHost(pods);
    var scan := if SafeCandidates(0, hosts, readyNodes, b, probe) != {} then 0
                else if SafeCandidates(1, hosts, readyNodes, b, probe) != {} then 1 else 2;
    var h :| h in SafeCandidates(scan, hosts, readyNodes, b, probe) && Some(victim) == Some(hosts[h][0]);
    var i := SafeMeans(scan, pods, readyNodes, b, probe, h);
    TakenAt(scan, pods, i, readyNodes, b, probe);
  }

  lemma TakenAt(scan: int, pods: seq<Pod>, i: nat, readyNodes: nat, b: Bounds, probe: Probe)
    requires 0 <= scan <= 2 && i < |pods| && FirstOfHost(pods, i)
    requires Wanted(scan, pods, i, readyNodes, b) && probe(scan, pods[i])
    ensures TakenByRule(pods, readyNodes, b, probe, pods[i])
  {
    assert scan == 0 || scan == 1 || scan == 2;
  }

  /** What it means that nothing is picked. */
  lemma QuietMeans(pods: seq<Pod>, readyNodes: nat, b: Bounds, probe: Probe)
    requires Picks(ByHost(pods), readyNodes, b, probe, None)
    ensures forall scan :: 0 <= scan <= 2 ==> Declined(scan, pods, readyNodes, b, probe)
  {
    NothingSafe(ByHost(pods), readyNodes, b, probe);
    DeclinedIff(0, pods, readyNodes, b, probe);
    DeclinedIff(1, pods, readyNodes, b, probe);
    DeclinedIff(2, pods, readyNodes, b, probe);
    forall scan | 0 <= scan <= 2 ensures Declined(scan, pods, readyNodes, b, probe) {
      assert scan == 0 || scan == 1 || scan == 2;
    }
  }

  lemma NothingSafe(hosts: map<string, seq<Pod>>, readyNodes: nat, b: Bounds, probe: Probe)
    requires Picks(hosts, readyNodes, b, probe, None)
    ensures SafeCandidates(0, hosts, readyNodes, b, probe) == {}
    ensures SafeCandidates(1, hosts, readyNodes, b, probe) == {}
    ensures SafeCandidates(2, hosts, readyNodes, b, probe) == {}
  {
  }

  /** A quiet pass in terms of the listed pods: the probes refused the first pod of every host that a rule is
      about. */
  lemma QuietOnPods(pods: seq<Pod>, readyNodes: nat, b: Bounds, probe: Probe)
    requires Picks(ByHost(pods), readyNodes, b, probe, None)
    ensures RefusedByProbes(pods, readyNodes, b, probe)
  {
    QuietMeans(pods, readyNodes, b, probe);
    forall i | 0 <= i < |pods| && (forall j :: 0 <= j < i ==> pods[j].hostIP != pods[i].hostIP)
      ensures !Wanted(0, pods, i, readyNodes, b) || !probe(0, pods[i])
      ensures !Wanted(1, pods, i, readyNodes, b) || !probe(1, pods[i])
      ensures !Wanted(2, pods, i, readyNodes, b) || !probe(2, pods[i])
    {
      DeclinedAt(0, pods, i, readyNodes, b, probe);
      DeclinedAt(1, pods, i, readyNodes, b, probe);
      DeclinedAt(2, pods, i, readyNodes, b, probe);
    }
  }

  lemma DeclinedAt(scan: int, pods: seq<Pod>, i: nat, readyNodes: nat, b: Bounds, probe: Probe)
    requires i < |pods| && FirstOfHost(pods, i) && Declined(scan, pods, readyNodes, b, probe)
    ensures !Wanted(scan, pods, i, readyNodes, b) || !probe(scan, pods[i])
  {
  }

  /** What a pass picks in terms of the listed pods. Whatever the rules are, no pod goes that every probe
      refuses; and a quiet pass was refused the first pod of every host above the ceiling. */
  lemma PickOnPods(pods: seq<Pod>, readyNodes: nat, b: Bounds, probe: Probe, victim: Option<Pod>)
    requires Picks(ByHost(pods), readyNodes, b, probe, victim)
    ensures if victim.Some? then TakenByRule(pods, readyNodes, b, probe, victim.value)
            else RefusedByProbes(pods, readyNodes, b, probe)
    ensures victim.Some? ==>
      && (probe(0, victim.value) || probe(1, victim.value) || probe(2, victim.value))
      && exists i :: 0 <= i < |pods| && pods[i] == victim.value && forall j :: 0 <= j < i ==> pods[j].hostIP != pods[i].hostIP
    ensures victim == None ==>
      forall i | 0 <= i < |pods| && (forall j :: 0 <= j < i ==> pods[j].hostIP != pods[i].hostIP) ::
        PodsAt(pods, pods[i].hostIP) > b.max ==> !probe(0, pods[i])
  {
    if victim.Some? {
      PickMeans(pods, readyNodes, b, probe, victim.value);
    } else {
      QuietOnPods(pods, readyNodes, b, probe);
    }
  }

  // ---------- the code ----------

  method Scan(scan: int, hosts: map<string, seq<Pod>>, readyNodes: nat, b: Bounds, belowMin: bool, probe: Probe)
    returns (victim: Option<Pod>)
    requires 0 <= scan <= 2
    requires forall h :: h in hosts ==> hosts[h] != []
    requires belowMin == BelowMin(hosts, b)
    ensures var s := SafeCandidates(scan, hosts, readyNodes, b, probe);
            if s == {} then victim == None else exists h :: h in s && victim == Some(hosts[h][0])
    // the probe has the last word on every host that the rule is about
    ensures victim.Some? ==> probe(scan, victim.value) && exists h :: h in hosts && hosts[h][0] == victim.value
    ensures victim == None ==> forall h :: h in hosts ==>
      && (scan == 0 && |hosts[h]| > b.max ==> !probe(scan, hosts[h][0]))
      && (scan == 1 && belowMin && |hosts[h]| == b.max ==> !probe(scan, hosts[h][0]))
      && (scan == 2 && |hosts| < readyNodes && |hosts[h]| > 1 ==> !probe(scan, hosts[h][0]))
  {
    var todo := hosts.Keys;
    while todo != {}
      invariant todo <= hosts.Keys
      invariant SafeCandidates(scan, hosts, readyNodes, b, probe) <= todo
      decreases todo
    {
      var h :| h in todo;
      var count := |hosts[h]|;
      var candidate :=
        if scan == 0 then count > b.max
        else if scan == 1 then belowMin && count == b.max
        else |hosts| < readyNodes && count > 1;
      if candidate && probe(scan, hosts[h][0]) {
        assert h in SafeCandidates(scan, hosts, readyNodes, b, probe);
        return Some(hosts[h][0]);
      }
      todo := todo - {h};
    }
    forall h | h in hosts ensures h in Candidates(scan, hosts, readyNodes, b) ==> !probe(scan, hosts[h][0]) {
      assert h !in SafeCandidates(scan, hosts, readyNodes, b, probe);
    }
    return None;
  }

  method AnyBelowMin(hosts: map<string, seq<Pod>>, b: Bounds) returns (belowMin: bool)
    ensures belowMin <==> BelowMin(hosts, b)
  {
    belowMin := false;
    var todo := hosts.Keys;
    while todo != {}
      invariant todo <= hosts.Keys
      invariant belowMin <==> exists h :: h in hosts && h !in todo && |hosts[h]| < b.min
      decreases todo
    {
      var h :| h in todo;
      if |hosts[h]| < b.min {
        belowMin := true;
      }
      todo := todo - {h};
    }
  }

  method ScanThrice(pods: seq<Pod>, readyNodes: nat, b: Bounds, probe: Probe) returns (victim: Option<Pod>)
    ensures Picks(ByHost(pods), readyNodes, b, probe, victim)
    ensures if victim.Some? then TakenByRule(pods, readyNodes, b, probe, victim.value)
            else RefusedByProbes(pods, readyNodes, b, probe)
    ensures victim.Some? ==>
      && (probe(0, victim.value) || probe(1, victim.value) || probe(2, victim.value))
      && exists i :: 0 <= i < |pods| && pods[i] == victim.value && forall j :: 0 <= j < i ==> pods[j].hostIP != pods[i].hostIP
    ensures victim == None ==>
      forall i | 0 <= i < |pods| && (forall j :: 0 <= j < i ==> pods[j].hostIP != pods[i].hostIP) ::
        PodsAt(pods, pods[i].hostIP) > b.max ==> !probe(0, pods[i])
  {
    var hosts := GroupByHost(pods);
    forall h | h in hosts ensures hosts[h] != [] {
      var p :| p in pods && p.hostIP == h;
      OnHostMembers(pods, h);
    }
    var belowMin := AnyBelowMin(hosts, b);
    victim := Scan(0, hosts, readyNodes, b, belowMin, probe);
    if victim == None {
      victim := Scan(1, hosts, readyNodes, b, belowMin, probe);
    }
    if victim == None {
      victim := Scan(2, hosts, readyNodes, b, belowMin, probe);
    }
    PickOnPods(pods, readyNodes, b, probe, victim);
  }

  method Choose(pods: seq<Pod>, nodes: seq<Node>, overflow: int, probe: Probe) returns (victim: Option<Pod>)
    ensures Picks(ByHost(pods), ReadyTotal(nodes), BoundsFor(|pods|, ReadyTotal(nodes), overflow), probe, victim)
    ensures var r, b := ReadyTotal(nodes), BoundsFor(|pods|, ReadyTotal(nodes), overflow);
            if victim.Some? then TakenByRule(pods, r, b, probe, victim.value) else RefusedByProbes(pods, r, b, probe)
    // whatever the rules are, no pod goes that every probe refuses
    ensures victim.Some? ==>
      && (probe(0, victim.value) || probe(1, victim.value) || probe(2, victim.value))
      && exists i :: 0 <= i < |pods| && pods[i] == victim.value && forall j :: 0 <= j < i ==> pods[j].hostIP != pods[i].hostIP
    ensures victim == None ==>
      forall i | 0 <= i < |pods| && (forall j :: 0 <= j < i ==> pods[j].hostIP != pods[i].hostIP) ::
        PodsAt(pods, pods[i].hostIP) > BoundsFor(|pods|, ReadyTotal(nodes), overflow).max ==> !probe(0, pods[i])
  {
    var masters, workers := NodeReadyCounts(nodes);
    var readyNodes := masters + workers;
    assert readyNodes == ReadyTotal(nodes);
    victim := ScanThrice(pods, readyNodes, BoundsFor(|pods|, readyNodes, overflow), probe);
  }

  /** The first pod that has been pending and unschedulable for more than five minutes. */
  predicate Stuck(pod: Pod, now: int) {
    pod.pending && exists c :: c in pod.conditions && c.podScheduled && c.isFalse
                               && now - c.lastTransition > UNSCHEDULABLE_SECONDS
  }

  function FirstStuck(pods: seq<Pod>, now: int): Option<Pod> {
    if pods == [] then None
    else if Stuck(pods[0], now) then Some(pods[0])
    else FirstStuck(pods[1..], now)
  }

  /** The last claim among the volumes, or the empty string. */
  function ClaimName(volumes: seq<Option<string>>): string {
    if volumes == [] then ""
    else if volumes[|volumes| - 1].Some? then volumes[|volumes| - 1].value
    else ClaimName(volumes[..|volumes| - 1])
  }

  /** The first pod in the list with a condition PodScheduled that has been false for over 300 seconds. */
  lemma {:induction false} FirstStuckMeans(pods: seq<Pod>, now: int)
    ensures FirstStuck(pods, now).Some? ==> exists i ::
      && 0 <= i < |pods| && FirstStuck(pods, now) == Some(pods[i]) && pods[i].pending
      && (exists c :: c in pods[i].conditions && c.podScheduled && c.isFalse && c.lastTransition + 300 < now)
      && forall j :: 0 <= j < i ==> !Stuck(pods[j], now)
    ensures FirstStuck(pods, now) == None <==>
      forall i :: 0 <= i < |pods| && pods[i].pending ==>
        forall c :: c in pods[i].conditions && c.podScheduled && c.isFalse ==> now <= c.lastTransition + 300
  {
    if pods != [] && !Stuck(pods[0], now) {
      FirstStuckMeans(pods[1..], now);
      var rest := FirstStuck(pods[1..], now);
      if rest.Some? {
        var i :| 0 <= i < |pods| - 1 && rest == Some(pods[1..][i]) && pods[1..][i].pending
              && (exists c :: c in pods[1..][i].conditions && c.podScheduled && c.isFalse && c.lastTransition + 300 < now)
              && forall j :: 0 <= j < i ==> !Stuck(pods[1..][j], now);
        assert pods[i + 1] == pods[1..][i];
        forall j | 0 <= j < i + 1 ensures !Stuck(pods[j], now) {
          assert j > 0 ==> pods[j] == pods[1..][j - 1];
        }
      }
    }
  }

  /** The claim of the last volume that has one; empty only without one or with an empty name. */
  lemma {:induction false} ClaimNameMeans(volumes: seq<Option<string>>)
    ensures (forall i :: 0 <= i < |volumes| ==> volumes[i] == None) ==> ClaimName(volumes) == ""
    ensures forall i | 0 <= i < |volumes| && volumes[i].Some? && (forall j :: i < j < |volumes| ==> volumes[j] == None) ::
      ClaimName(volumes) == volumes[i].value
  {
    if volumes != [] && volumes[|volumes| - 1] == None {
      ClaimNameMeans(volumes[..|volumes| - 1]);
    }
  }

  function WithoutPod(pods: seq<Pod>, name: string): seq<Pod> {
    if pods == [] then []
    else if pods[0].name == name then WithoutPod(pods[1..], name)
    else [pods[0]] + WithoutPod(pods[1..], name)
  }

  /** What one pass observes of the stateful set before it looks at pods. */
  datatype Readiness = ScaleUnknown | Scale(current: int, healthy: bool)

  /** The ha-minio stateful set: its pods and the claims marked for deletion. */
  class StatefulSet {
    var pods: seq<Pod>
    var released: set<string>

    /** Deletes the pod's claim, then the pod. A pod without a claim is left alone. */
    method RescheduleOnePod(pod: Pod, faults: set<Call>) returns (ok: bool)
      modifies this
      ensures ok <==> ClaimName(pod.volumes) != "" && DeleteClaim !in faults && DeletePod !in faults
      ensures pods == if ok then WithoutPod(old(pods), pod.name) else old(pods)
      ensures released == if ClaimName(pod.volumes) != "" && DeleteClaim !in faults
                          then old(released) + {ClaimName(pod.volumes)} else old(released)
      ensures (forall i :: 0 <= i < |pod.volumes| ==> pod.volumes[i] == None) ==> !ok && unchanged(this)
      ensures forall i | 0 <= i < |pod.volumes| && pod.volumes[i].Some? && pod.volumes[i].value != "" && DeleteClaim !in faults
                         && (forall j :: i < j < |pod.volumes| ==> pod.volumes[j] == None) ::
        released == old(released) + {pod.volumes[i].value}
    {
      ClaimNameMeans(pod.volumes);
      var claim := "";
      for i := 0 to |pod.volumes|
        invariant claim == ClaimName(pod.volumes[..i])
      {
        assert pod.volumes[..i + 1][..i] == pod.volumes[..i];
        if pod.volumes[i].Some? {
          claim := pod.volumes[i].value;
        }
      }
      assert pod.volumes[..|pod.volumes|] == pod.volumes;
      if claim == "" || DeleteClaim in faults {
        return false;
      }
      released := released + {claim};
      if DeletePod in faults {
        return false;
      }
      pods := WithoutPod(pods, pod.name);
      return true;
    }

    /** One pass. `victim` is the pod it tried to reschedule. */
    method MaybeRebalance(readiness: Readiness, now: int, nodes: seq<Node>, overflow: int, probe: Probe,
                          faults: set<Call>) returns (victim: Option<Pod>, ok: bool)
      modifies this
      ensures readiness == ScaleUnknown || readiness.current == 0 || !readiness.healthy
              ==> victim == None && ok && unchanged(this)
      ensures readiness.Scale? && readiness.current != 0 && readiness.healthy ==>
        && (ListPods in faults ==> victim == None && !ok)
        && (ListPods !in faults ==>
          var stuck := FirstStuck(old(pods), now);
          && (stuck.Some? ==> victim == stuck)
          && (stuck == None && ListNodes in faults ==> victim == None && !ok)
          && (stuck == None && ListNodes !in faults ==>
            Picks(ByHost(old(pods)), ReadyTotal(nodes), BoundsFor(|old(pods)|, ReadyTotal(nodes), overflow),
                  probe, victim)
            && (victim == None ==> ok)))
      // without a pod that is stuck, the one taken is the first on its host and one of its probes allows it;
      // when none is taken, the probes refused the first pod of every host that a rule is about
      ensures (forall pod :: pod in old(pods) ==> !pod.pending) && victim.Some? ==>
        && (probe(0, victim.value) || probe(1, victim.value) || probe(2, victim.value))
        && exists i :: 0 <= i < |old(pods)| && old(pods)[i] == victim.value
             && forall j :: 0 <= j < i ==> old(pods)[j].hostIP != old(pods)[i].hostIP
      ensures FirstStuck(old(pods), now) == None && victim.Some? ==>
        TakenByRule(old(pods), ReadyTotal(nodes), BoundsFor(|old(pods)|, ReadyTotal(nodes), overflow), probe, victim.value)
      ensures ok && victim == None && readiness.Scale? && readiness.current != 0 && readiness.healthy ==>
        && RefusedByProbes(old(pods), ReadyTotal(nodes), BoundsFor(|old(pods)|, ReadyTotal(nodes), overflow), probe)
        && forall i | 0 <= i < |old(pods)| && (forall j :: 0 <= j < i ==> old(pods)[j].hostIP != old(pods)[i].hostIP) ::
             PodsAt(old(pods), old(pods)[i].hostIP) > BoundsFor(|old(pods)|, ReadyTotal(nodes), overflow).max
             ==> !probe(0, old(pods)[i])
      ensures victim == None ==> unchanged(this)
      ensures victim.Some? ==>
        && (ok <==> ClaimName(victim.value.volumes) != "" && DeleteClaim !in faults && DeletePod !in faults)
        && pods == (if ok then WithoutPod(old(pods), victim.value.name) else old(pods))
        && released == if ClaimName(victim.value.volumes) != "" && DeleteClaim !in faults
                       then old(released) + {ClaimName(victim.value.volumes)} else old(released)
    {
      FirstStuckMeans(pods, now);
      if readiness == ScaleUnknown || readiness.current == 0 || !readiness.healthy {
        return None, true;
      }
      if ListPods in faults {
        return None, false;
      }
      for i := 0 to |pods|
        invariant unchanged(this)
        invariant FirstStuck(pods, now) == FirstStuck(pods[i..], now)
      {
        if Stuck(pods[i], now) {
          victim := Some(pods[i]);
          ok := RescheduleOnePod(pods[i], faults);
          return;
        }
      }
      if ListNodes in faults {
        return None, false;
      }
      victim := Choose(pods, nodes, overflow, probe);
      ok := true;
      if victim.Some? {
        ok := RescheduleOnePod(victim.value, faults);
      }
    }
  }
}
