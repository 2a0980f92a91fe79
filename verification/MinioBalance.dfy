/**
 What repeated rebalancing passes achieve: a quiet pass means a balanced cluster, every move lowers the
 sum of squared loads, so balance is reached within half the square of the number of pods, and kept.
 */
module MinioBalance {
  import opened Prelude
  import opened Nodes
  import opened Loads
  import opened MinioRebalance

  ghost function PodLoad(pods: seq<Pod>, host: string): nat {
    |OnHost(pods, host)|
  }

  ghost function LoadOf(pods: seq<Pod>, hosts: set<string>): Load {
    map h | h in hosts :: PodLoad(pods, h)
  }

  ghost predicate AllOn(pods: seq<Pod>, hosts: set<string>) {
    forall p :: p in pods ==> p.hostIP in hosts
  }

  /** The placement the balance theorems assume: ready nodes have their own addresses and run every pod. */
  ghost predicate Settled(pods: seq<Pod>, nodes: seq<Node>) {
    DistinctReadyHosts(nodes) && AllOn(pods, ReadyHosts(nodes))
  }

  ghost function Floor(p: nat, r: nat): nat requires r > 0 { p / r }

  ghost function Ceil(p: nat, r: nat): nat requires r > 0 { (p + r - 1) / r }

  /** Every ready node, also one without any pod, holds between the floor and the ceiling. */
  ghost predicate Balanced(pods: seq<Pod>, nodes: seq<Node>) {
    var r := ReadyTotal(nodes);
    r > 0 ==> forall h :: h in ReadyHosts(nodes) ==> Floor(|pods|, r) <= PodLoad(pods, h) <= Ceil(|pods|, r)
  }

  ghost predicate AllSafe(probe: Probe) {
    forall scan, p :: probe(scan, p)
  }

  // ---------- loads count pods ----------

  lemma {:induction false} OnHostAppend(a: seq<Pod>, b: seq<Pod>, host: string)
    ensures OnHost(a + b, host) == OnHost(a, host) + OnHost(b, host)
  {
    if b == [] {
      assert a + b == a;
    } else {
      assert (a + b)[..|a + b| - 1] == a + b[..|b| - 1];
      OnHostAppend(a, b[..|b| - 1], host);
    }
  }

  lemma LoadSplit(pods: seq<Pod>, i: nat, host: string)
    requires i < |pods|
    ensures PodLoad(pods, host) == PodLoad(pods[..i] + pods[i + 1..], host) + (if pods[i].hostIP == host then 1 else 0)
  {
    assert pods == pods[..i] + [pods[i]] + pods[i + 1..];
    OnHostAppend(pods[..i] + [pods[i]], pods[i + 1..], host);
    OnHostAppend(pods[..i], [pods[i]], host);
    OnHostAppend(pods[..i], pods[i + 1..], host);
    assert [pods[i]][..0] == [];
  }

  lemma {:induction false} LoadsCountPods(pods: seq<Pod>, hosts: set<string>)
    requires AllOn(pods, hosts)
    ensures Total(LoadOf(pods, hosts), hosts) == |pods|
  {
    if pods == [] {
      TotalAtMost(LoadOf(pods, hosts), hosts, 0);
      assert 0 * |hosts| == 0;
    } else {
      var front, last := pods[..|pods| - 1], pods[|pods| - 1];
      assert pods == front + [last];
      LoadsCountPods(front, hosts);
      TotalChange(LoadOf(front, hosts), LoadOf(pods, hosts), hosts, last.hostIP);
    }
  }

  /** A host is in the map exactly when it runs a pod. */
  lemma MapShowsLoads(pods: seq<Pod>, host: string)
    ensures host in ByHost(pods) <==> PodLoad(pods, host) > 0
  {
    if host in HostsOf(pods) {
      OnHostMembers(pods, host);
      var p :| p in pods && p.hostIP == host;
      assert p in OnHost(pods, host);
    } else {
      NothingElsewhere(pods, host);
    }
  }

  // ---------- the pigeonhole steps, on loads alone ----------

  lemma DivisionBounds(p: nat, r: nat)
    requires r > 0
    ensures Floor(p, r) * r <= p <= Ceil(p, r) * r
    ensures p < (Floor(p, r) + 1) * r
    ensures Floor(p, r) <= Ceil(p, r) <= Floor(p, r) + 1
    ensures Ceil(p, r) == Floor(p, r) ==> p == Floor(p, r) * r
  {
    var q, m := p / r, p % r;
    assert p == q * r + m;
    if m == 0 {
      assert p + r - 1 == q * r + (r - 1);
      QuotientIs(p + r - 1, r, q);
    } else {
      assert p + r - 1 == (q + 1) * r + (m - 1);
      QuotientIs(p + r - 1, r, q + 1);
      assert (q + 1) * r == q * r + r;
    }
  }

  lemma QuotientIs(n: nat, r: nat, q: nat)
    requires r > 0 && q * r <= n < q * r + r
    ensures n / r == q
  {
    var d := n / r;
    assert n == d * r + n % r;
    MulDistrib(d, r);
    MulDistrib(q, r);
    MulCancel(q, d + 1, r);
    MulCancel(d, q + 1, r);
  }

  lemma MulDistrib(x: int, r: int)
    ensures (x + 1) * r == x * r + r
  {
  }

  lemma MulMonotone(x: int, y: int, r: nat)
    requires x <= y
    ensures x * r <= y * r
  {
    assert (y - x) * r >= 0;
    assert y * r == x * r + (y - x) * r;
  }

  lemma MulCancel(x: int, y: int, r: nat)
    requires x * r < y * r
    ensures x < y
  {
    if y <= x {
      MulMonotone(y, x, r);
    }
  }

  /** If one host holds a and every other at least b, the total is at least a + b * (hosts - 1). */
  lemma TotalAboveOne(l: Load, a: string, b: nat)
    requires a in l && forall h :: h in l && h != a ==> l[h] >= b
    ensures Total(l, l.Keys) >= l[a] + b * (|l| - 1)
  {
    TotalSplit(l, l.Keys, a);
    TotalAtLeast(l, l.Keys - {a}, b);
    assert |l.Keys - {a}| == |l| - 1;
  }

  lemma TotalBelowOne(l: Load, a: string, b: nat)
    requires a in l && forall h :: h in l && h != a ==> l[h] <= b
    ensures Total(l, l.Keys) <= l[a] + b * (|l| - 1)
  {
    TotalSplit(l, l.Keys, a);
    TotalAtMost(l, l.Keys - {a}, b);
    assert |l.Keys - {a}| == |l| - 1;
  }

  /** An overloaded host leaves some other host at least two pods behind it. */
  lemma OverloadLeavesRoom(l: Load, a: string)
    requires a in l && l[a] > Ceil(Total(l, l.Keys), |l|)
    ensures exists b :: b in l && b != a && l[b] + 2 <= l[a]
  {
    var p, r := Total(l, l.Keys), |l|;
    var c := Ceil(p, r);
    DivisionBounds(p, r);
    if forall b :: b in l && b != a ==> l[b] + 2 > l[a] {
      TotalAboveOne(l, a, c);
      MulDistrib(r - 1, c);
    }
  }

  /** If no host is above the ceiling but one is below the floor, some host is at the ceiling and the two
      bounds differ. */
  lemma ShortageMeansFullHost(l: Load, b: string)
    requires b in l && l[b] < Floor(Total(l, l.Keys), |l|)
    requires forall h :: h in l ==> l[h] <= Ceil(Total(l, l.Keys), |l|)
    ensures exists a :: a in l && l[a] == Ceil(Total(l, l.Keys), |l|)
    ensures Floor(Total(l, l.Keys), |l|) < Ceil(Total(l, l.Keys), |l|)
  {
    var p, r := Total(l, l.Keys), |l|;
    var f, c := Floor(p, r), Ceil(p, r);
    DivisionBounds(p, r);
    MulDistrib(r - 1, f);
    if f == c {
      TotalBelowOne(l, b, f);
    } else if forall a :: a in l ==> l[a] != c {
      TotalBelowOne(l, b, f);
    }
  }

  // ---------- a quiet pass means balance ----------

  /** The facts every theorem below starts from. */
  lemma SettledLoads(pods: seq<Pod>, nodes: seq<Node>)
    requires Settled(pods, nodes)
    ensures var l := LoadOf(pods, ReadyHosts(nodes));
            Total(l, l.Keys) == |pods| && |l| == ReadyTotal(nodes)
    ensures Shows(ByHost(pods), LoadOf(pods, ReadyHosts(nodes)))
  {
    var hosts := ReadyHosts(nodes);
    ReadyHostsCounted(nodes);
    LoadsCountPods(pods, hosts);
    assert LoadOf(pods, hosts).Keys == hosts;
    forall h ensures h in ByHost(pods) <==> PodLoad(pods, h) > 0 {
      MapShowsLoads(pods, h);
    }
  }

  /** Whether a scan may take a pod from `h`, said on loads: a zero load is a ready node outside the map. */
  ghost predicate Takes(scan: int, l: Load, b: Bounds, h: string)
    requires h in l
  {
    && l[h] > 0
    && (scan == 0 ==> l[h] > b.max)
    && (scan == 1 ==> l[h] == b.max && exists t :: t in l && 0 < l[t] < b.min)
    && (scan == 2 ==> l[h] > 1 && exists t :: t in l && l[t] == 0)
  }

  /** The host map holds exactly the hosts with a positive load, with that many pods each. */
  ghost predicate Shows(g: map<string, seq<Pod>>, l: Load) {
    && (forall h :: h in g <==> h in l && l[h] > 0)
    && (forall h :: h in g ==> |g[h]| == l[h])
  }

  lemma BelowMinOnLoads(g: map<string, seq<Pod>>, l: Load, b: Bounds)
    requires Shows(g, l)
    ensures BelowMin(g, b) <==> exists t :: t in l && 0 < l[t] < b.min
  {
    if t :| t in l && 0 < l[t] < b.min {
      assert t in g && |g[t]| < b.min;
    }
  }

  lemma MissingOnLoads(g: map<string, seq<Pod>>, l: Load)
    requires Shows(g, l)
    ensures |g| < |l| <==> exists t :: t in l && l[t] == 0
  {
    if t :| t in l && l[t] == 0 {
      StrictSubsetSmaller(g.Keys, l.Keys);
    } else {
      assert g.Keys == l.Keys;
    }
  }

  lemma CandidatesOnLoads(g: map<string, seq<Pod>>, l: Load, b: Bounds, scan: int, h: string)
    requires Shows(g, l) && 0 <= scan <= 2
    ensures h in Candidates(scan, g, |l|, b) <==> h in l && Takes(scan, l, b, h)
  {
    BelowMinOnLoads(g, l, b);
    MissingOnLoads(g, l);
  }

  lemma {:induction false} StrictSubsetSmaller(a: set<string>, b: set<string>)
    requires a < b
    ensures |a| < |b|
  {
    var x :| x in b && x !in a;
    if a != {} {
      var y :| y in a;
      StrictSubsetSmaller(a - {y}, b - {y});
    }
  }

  ghost predicate NothingToTake(l: Load, b: Bounds) {
    forall scan, h :: 0 <= scan <= 2 && h in l ==> !Takes(scan, l, b, h)
  }

  lemma SafeOnLoads(g: map<string, seq<Pod>>, l: Load, b: Bounds, scan: int, probe: Probe)
    requires Shows(g, l) && AllSafe(probe) && 0 <= scan <= 2
    ensures forall h :: h in SafeCandidates(scan, g, |l|, b, probe) <==> h in l && Takes(scan, l, b, h)
  {
    forall h ensures h in SafeCandidates(scan, g, |l|, b, probe) <==> h in l && Takes(scan, l, b, h) {
      CandidatesOnLoads(g, l, b, scan, h);
    }
  }

  lemma QuietMeansNothingToTake(g: map<string, seq<Pod>>, l: Load, b: Bounds, probe: Probe, victim: Option<Pod>)
    requires Shows(g, l) && AllSafe(probe)
    requires Picks(g, |l|, b, probe, victim)
    ensures victim == None <==> NothingToTake(l, b)
  {
    SafeOnLoads(g, l, b, 0, probe);
    SafeOnLoads(g, l, b, 1, probe);
    SafeOnLoads(g, l, b, 2, probe);
    if victim == None {
      forall scan, h | 0 <= scan <= 2 && h in l ensures !Takes(scan, l, b, h) {
        assert h !in SafeCandidates(scan, g, |l|, b, probe);
      }
    }
  }

  ghost predicate Even(l: Load, b: Bounds) {
    forall h :: h in l ==> b.min <= l[h] <= b.max
  }

  ghost predicate Fair(l: Load, b: Bounds) {
    |l| > 0 && b == Bounds(Floor(Total(l, l.Keys), |l|), Ceil(Total(l, l.Keys), |l|))
  }

  lemma NothingToTakeIffEven(l: Load, b: Bounds)
    requires Fair(l, b)
    ensures NothingToTake(l, b) <==> Even(l, b)
  {
    DivisionBounds(Total(l, l.Keys), |l|);
    assert Even(l, b) ==> NothingToTake(l, b);
    if NothingToTake(l, b) {
      forall h | h in l ensures l[h] <= b.max {
        assert !Takes(0, l, b, h);
      }
      forall h | h in l ensures b.min <= l[h] {
        if l[h] < b.min {
          ShortHostIsNoticed(l, b, h);
        }
      }
    }
  }

  /** A host below the floor, with every host within the ceiling, makes the second or third scan act. */
  lemma ShortHostIsNoticed(l: Load, b: Bounds, short: string)
    requires Fair(l, b) && short in l && l[short] < b.min
    requires forall h :: h in l ==> l[h] <= b.max
    ensures exists scan, h :: 1 <= scan <= 2 && h in l && Takes(scan, l, b, h)
  {
    ShortageMeansFullHost(l, short);
    var full :| full in l && l[full] == b.max;
    assert Takes(if l[short] > 0 then 1 else 2, l, b, full);
  }

  lemma FairBounds(pods: seq<Pod>, nodes: seq<Node>, overflow: int)
    requires Settled(pods, nodes)
    ensures var l := LoadOf(pods, ReadyHosts(nodes));
            var b := BoundsFor(|pods|, ReadyTotal(nodes), overflow);
            && (|l| > 0 ==> Fair(l, b))
            && (Balanced(pods, nodes) <==> |l| == 0 || Even(l, b))
  {
    SettledLoads(pods, nodes);
    var l, r := LoadOf(pods, ReadyHosts(nodes)), ReadyTotal(nodes);
    var b := BoundsFor(|pods|, r, overflow);
    if r > 0 {
      assert b == Bounds(Floor(|pods|, r), Ceil(|pods|, r));
      assert Even(l, b) <==> forall h :: h in l ==> Floor(|pods|, r) <= PodLoad(pods, h) <= Ceil(|pods|, r);
    }
  }

  /** Quiescence is exactly balance, for every iteration order of the scans and every Go conversion of an
      infinite quotient. */
  lemma QuietIffBalanced(pods: seq<Pod>, nodes: seq<Node>, overflow: int, probe: Probe, victim: Option<Pod>)
    requires Settled(pods, nodes) && AllSafe(probe)
    requires Picks(ByHost(pods), ReadyTotal(nodes), BoundsFor(|pods|, ReadyTotal(nodes), overflow), probe, victim)
    ensures victim == None <==> Balanced(pods, nodes)
  {
    var b := BoundsFor(|pods|, ReadyTotal(nodes), overflow);
    var l := LoadOf(pods, ReadyHosts(nodes));
    SettledLoads(pods, nodes);
    FairBounds(pods, nodes, overflow);
    QuietMeansNothingToTake(ByHost(pods), l, b, probe, victim);
    if |l| > 0 {
      NothingToTakeIffEven(l, b);
    } else {
      assert forall h :: h !in l;
    }
  }

  // ---------- every move lowers the sum of squares ----------

  ghost predicate LeastLoaded(host: string, pods: seq<Pod>, hosts: set<string>) {
    host in hosts && forall h :: h in hosts ==> PodLoad(pods, host) <= PodLoad(pods, h)
  }

  /** The deleted pod comes back under its own place in the list, on a ready host that was least loaded
      while it was gone. */
  ghost predicate Replaced(pods: seq<Pod>, i: nat, after: seq<Pod>, hosts: set<string>)
    requires i < |pods|
  {
    && |after| == |pods|
    && after == pods[i := after[i]]
    && LeastLoaded(after[i].hostIP, pods[..i] + pods[i + 1..], hosts)
  }

  /** Deleting by name takes out just that pod, so `Replaced` continues what RescheduleOnePod started. */
  lemma {:induction false} DeletionSplits(pods: seq<Pod>, i: nat)
    requires i < |pods|
    requires forall j, k :: 0 <= j < k < |pods| ==> pods[j].name != pods[k].name
    ensures WithoutPod(pods, pods[i].name) == pods[..i] + pods[i + 1..]
  {
    if i == 0 {
      NothingToDelete(pods[1..], pods[0].name);
    } else {
      DeletionSplits(pods[1..], i - 1);
      assert pods[1..][i - 1] == pods[i];
      assert pods[..i] + pods[i + 1..] == [pods[0]] + (pods[1..][..i - 1] + pods[1..][i..]);
    }
  }

  lemma {:induction false} NothingToDelete(pods: seq<Pod>, name: string)
    requires forall p :: p in pods ==> p.name != name
    ensures WithoutPod(pods, name) == pods
  {
    if pods != [] {
      NothingToDelete(pods[1..], name);
    }
  }

  ghost function Imbalance(pods: seq<Pod>, nodes: seq<Node>): nat {
    SumOfSquares(LoadOf(pods, ReadyHosts(nodes)))
  }

  lemma ReplacedLoads(pods: seq<Pod>, i: nat, after: seq<Pod>, hosts: set<string>)
    requires i < |pods| && AllOn(pods, hosts) && Replaced(pods, i, after, hosts)
    ensures AllOn(after, hosts)
    ensures forall h :: PodLoad(after, h) + (if h == pods[i].hostIP then 1 else 0)
                     == PodLoad(pods, h) + (if h == after[i].hostIP then 1 else 0)
    ensures forall h :: h in hosts && h != pods[i].hostIP
                        ==> PodLoad(after, after[i].hostIP) <= PodLoad(pods, h) + 1
    ensures after[i].hostIP != pods[i].hostIP ==> PodLoad(pods, after[i].hostIP) < PodLoad(pods, pods[i].hostIP)
  {
    var rest := pods[..i] + pods[i + 1..];
    assert rest == after[..i] + after[i + 1..];
    forall h ensures PodLoad(pods, h) == PodLoad(rest, h) + (if h == pods[i].hostIP then 1 else 0)
             ensures PodLoad(after, h) == PodLoad(rest, h) + (if h == after[i].hostIP then 1 else 0)
    {
      LoadSplit(pods, i, h);
      LoadSplit(after, i, h);
    }
    forall p | p in after ensures p.hostIP in hosts {
      var k :| 0 <= k < |after| && after[k] == p;
      assert k != i ==> after[k] == pods[k];
    }
  }

  /** One pod went from `a` to `b`. */
  ghost predicate OneMoved(l: Load, m: Load, a: string, b: string) {
    && m.Keys == l.Keys && a in l && b in l && l[a] > 0
    && forall h :: h in l ==> m[h] + (if h == a then 1 else 0) == l[h] + if h == b then 1 else 0
  }

  lemma ReplacedMovesOne(pods: seq<Pod>, i: nat, after: seq<Pod>, hosts: set<string>)
    requires i < |pods| && AllOn(pods, hosts) && Replaced(pods, i, after, hosts)
    ensures AllOn(after, hosts)
    ensures OneMoved(LoadOf(pods, hosts), LoadOf(after, hosts), pods[i].hostIP, after[i].hostIP)
  {
    ReplacedLoads(pods, i, after, hosts);
    assert pods[i] in pods;
    LoadSplit(pods, i, pods[i].hostIP);
  }

  lemma OneMovedSquares(l: Load, m: Load, a: string, b: string)
    requires OneMoved(l, m, a, b)
    ensures a == b ==> SumOfSquares(m) == SumOfSquares(l)
    ensures a != b ==> SumOfSquares(m) + 2 * l[a] == SumOfSquares(l) + 2 * l[b] + 2
  {
    if a == b {
      assert l == m;
    } else {
      MoveChangesSquares(l, m, a, b);
    }
  }

  /** Whatever pod is taken, the imbalance never grows. */
  lemma MoveNeverGrows(pods: seq<Pod>, nodes: seq<Node>, i: nat, after: seq<Pod>)
    requires i < |pods| && Settled(pods, nodes) && Replaced(pods, i, after, ReadyHosts(nodes))
    ensures Settled(after, nodes)
    ensures Imbalance(after, nodes) <= Imbalance(pods, nodes)
  {
    var hosts := ReadyHosts(nodes);
    ReplacedLoads(pods, i, after, hosts);
    ReplacedMovesOne(pods, i, after, hosts);
    OneMovedSquares(LoadOf(pods, hosts), LoadOf(after, hosts), pods[i].hostIP, after[i].hostIP);
  }

  /** A host a scan takes from leaves some other host at least two pods behind it. */
  lemma TakenHostLeavesRoom(l: Load, b: Bounds, scan: int, a: string)
    requires Fair(l, b) && 0 <= scan <= 2 && a in l && Takes(scan, l, b, a)
    requires scan > 0 ==> forall h :: h in l ==> !Takes(0, l, b, h)
    ensures exists t :: t in l && t != a && l[t] + 2 <= l[a]
  {
    DivisionBounds(Total(l, l.Keys), |l|);
    if scan == 0 {
      OverloadLeavesRoom(l, a);
    } else if scan == 1 {
      var t :| t in l && 0 < l[t] < b.min;
      forall h | h in l ensures l[h] <= b.max {
        assert !Takes(0, l, b, h);
      }
      ShortageMeansFullHost(l, t);
      assert l[t] + 2 <= l[a];
    } else {
      var t :| t in l && l[t] == 0;
      assert l[t] + 2 <= l[a];
    }
  }

  lemma PickIsTaken(g: map<string, seq<Pod>>, l: Load, b: Bounds, probe: Probe, victim: Pod) returns (scan: int, a: string)
    requires Shows(g, l) && AllSafe(probe) && Picks(g, |l|, b, probe, Some(victim))
    ensures 0 <= scan <= 2 && a in l && Takes(scan, l, b, a)
    ensures scan > 0 ==> forall h :: h in l ==> !Takes(0, l, b, h)
    ensures a in g && g[a] != [] && victim == g[a][0]
  {
    SafeOnLoads(g, l, b, 0, probe);
    SafeOnLoads(g, l, b, 1, probe);
    SafeOnLoads(g, l, b, 2, probe);
    scan := if SafeCandidates(0, g, |l|, b, probe) != {} then 0
            else if SafeCandidates(1, g, |l|, b, probe) != {} then 1 else 2;
    a :| a in SafeCandidates(scan, g, |l|, b, probe) && victim == g[a][0];
  }

  /** With every probe passing, the pod a pass picks sits on a host that leaves room elsewhere. */
  lemma PickLeavesRoom(pods: seq<Pod>, nodes: seq<Node>, overflow: int, probe: Probe, victim: Pod)
    requires Settled(pods, nodes) && AllSafe(probe)
    requires Picks(ByHost(pods), ReadyTotal(nodes), BoundsFor(|pods|, ReadyTotal(nodes), overflow), probe, Some(victim))
    ensures victim in pods
    ensures exists t :: t in ReadyHosts(nodes) && t != victim.hostIP
                        && PodLoad(pods, t) + 2 <= PodLoad(pods, victim.hostIP)
  {
    var b := BoundsFor(|pods|, ReadyTotal(nodes), overflow);
    var l := LoadOf(pods, ReadyHosts(nodes));
    SettledLoads(pods, nodes);
    FairBounds(pods, nodes, overflow);
    var scan, a := PickIsTaken(ByHost(pods), l, b, probe, victim);
    TakenHostLeavesRoom(l, b, scan, a);
    var t :| t in l && t != a && l[t] + 2 <= l[a];
    OnHostMembers(pods, a);
    assert victim in OnHost(pods, a);
  }

  lemma PickLowersImbalance(pods: seq<Pod>, nodes: seq<Node>, overflow: int, probe: Probe, i: nat, after: seq<Pod>)
    requires i < |pods| && Settled(pods, nodes) && AllSafe(probe)
    requires Picks(ByHost(pods), ReadyTotal(nodes), BoundsFor(|pods|, ReadyTotal(nodes), overflow), probe, Some(pods[i]))
    requires Replaced(pods, i, after, ReadyHosts(nodes))
    ensures Imbalance(after, nodes) + 2 <= Imbalance(pods, nodes)
  {
    var hosts := ReadyHosts(nodes);
    PickLeavesRoom(pods, nodes, overflow, probe, pods[i]);
    GapIsHalved(pods, i, after, hosts);
  }

  /** Taking from a host that some other is two pods behind lowers the sum of squares by two or more. */
  lemma GapIsHalved(pods: seq<Pod>, i: nat, after: seq<Pod>, hosts: set<string>)
    requires i < |pods| && AllOn(pods, hosts) && Replaced(pods, i, after, hosts)
    requires exists t :: t in hosts && t != pods[i].hostIP && PodLoad(pods, t) + 2 <= PodLoad(pods, pods[i].hostIP)
    ensures SumOfSquares(LoadOf(after, hosts)) + 2 <= SumOfSquares(LoadOf(pods, hosts))
  {
    var a, b := pods[i].hostIP, after[i].hostIP;
    ReplacedLoads(pods, i, after, hosts);
    ReplacedMovesOne(pods, i, after, hosts);
    OneMovedSquares(LoadOf(pods, hosts), LoadOf(after, hosts), a, b);
    var t :| t in hosts && t != a && PodLoad(pods, t) + 2 <= PodLoad(pods, a);
    assert PodLoad(after, b) <= PodLoad(pods, t) + 1;
  }

  // ---------- whole runs ----------

  /** One pass, all probes passing, and the rescheduling that follows it. */
  ghost predicate Pass(before: seq<Pod>, after: seq<Pod>, nodes: seq<Node>, overflow: int) {
    exists probe, victim ::
      && AllSafe(probe)
      && Picks(ByHost(before), ReadyTotal(nodes), BoundsFor(|before|, ReadyTotal(nodes), overflow), probe, victim)
      && Moved(before, victim, after, nodes)
  }

  ghost predicate Moved(before: seq<Pod>, victim: Option<Pod>, after: seq<Pod>, nodes: seq<Node>) {
    if victim == None then after == before
    else exists i :: 0 <= i < |before| && before[i] == victim.value && Replaced(before, i, after, ReadyHosts(nodes))
  }

  lemma PassOutcome(before: seq<Pod>, after: seq<Pod>, nodes: seq<Node>, overflow: int)
    requires Settled(before, nodes) && Pass(before, after, nodes, overflow)
    ensures Settled(after, nodes)
    ensures Balanced(before, nodes) ==> after == before
    ensures !Balanced(before, nodes) ==> Imbalance(after, nodes) + 2 <= Imbalance(before, nodes)
  {
    var probe, victim :|
      && AllSafe(probe)
      && Picks(ByHost(before), ReadyTotal(nodes), BoundsFor(|before|, ReadyTotal(nodes), overflow), probe, victim)
      && Moved(before, victim, after, nodes);
    QuietIffBalanced(before, nodes, overflow, probe, victim);
    if victim.Some? {
      var i :| 0 <= i < |before| && before[i] == victim.value && Replaced(before, i, after, ReadyHosts(nodes));
      MoveNeverGrows(before, nodes, i, after);
      PickLowersImbalance(before, nodes, overflow, probe, i, after);
    }
  }

  ghost predicate Run(trace: seq<seq<Pod>>, nodes: seq<Node>, overflow: int) {
    && trace != []
    && Settled(trace[0], nodes)
    && forall k :: 0 <= k < |trace| - 1 ==> Pass(trace[k], trace[k + 1], nodes, overflow)
  }

  lemma ImbalanceBound(pods: seq<Pod>, nodes: seq<Node>)
    requires Settled(pods, nodes)
    ensures Imbalance(pods, nodes) <= |pods| * |pods|
  {
    SettledLoads(pods, nodes);
    var l := LoadOf(pods, ReadyHosts(nodes));
    SquaresAtMostSquareOfTotal(l, l.Keys);
  }

  lemma RunTail(trace: seq<seq<Pod>>, nodes: seq<Node>, overflow: int)
    requires Run(trace, nodes, overflow) && |trace| > 1
    ensures Run(trace[1..], nodes, overflow)
  {
    assert Pass(trace[0], trace[0 + 1], nodes, overflow);
    PassOutcome(trace[0], trace[1], nodes, overflow);
    forall k | 0 <= k < |trace[1..]| - 1 ensures Pass(trace[1..][k], trace[1..][k + 1], nodes, overflow) {
      assert Pass(trace[k + 1], trace[k + 1 + 1], nodes, overflow);
    }
  }

  /** Once balanced, a run never moves a pod again. */
  lemma {:induction false} BalanceStays(trace: seq<seq<Pod>>, nodes: seq<Node>, overflow: int)
    requires Run(trace, nodes, overflow) && Balanced(trace[0], nodes)
    ensures forall j :: 0 <= j < |trace| ==> trace[j] == trace[0]
  {
    if |trace| > 1 {
      assert Pass(trace[0], trace[0 + 1], nodes, overflow);
      PassOutcome(trace[0], trace[1], nodes, overflow);
      RunTail(trace, nodes, overflow);
      BalanceStays(trace[1..], nodes, overflow);
      forall j | 0 <= j < |trace| ensures trace[j] == trace[0] {
        if j > 0 {
          assert trace[j] == trace[1..][j - 1];
        }
      }
    }
  }

  /** The moves of a run are at most half the imbalance it starts with; then it is balanced and stays so. */
  lemma {:induction false} MovesBounded(trace: seq<seq<Pod>>, nodes: seq<Node>, overflow: int) returns (k: nat)
    requires Run(trace, nodes, overflow)
    requires 2 * (|trace| - 1) > Imbalance(trace[0], nodes)
    ensures k < |trace| && 2 * k <= Imbalance(trace[0], nodes)
    ensures Balanced(trace[k], nodes)
    ensures forall j :: k <= j < |trace| ==> trace[j] == trace[k]
  {
    if Balanced(trace[0], nodes) {
      BalanceStays(trace, nodes, overflow);
      k := 0;
    } else {
      assert Pass(trace[0], trace[0 + 1], nodes, overflow);
      PassOutcome(trace[0], trace[1], nodes, overflow);
      RunTail(trace, nodes, overflow);
      var rest := trace[1..];
      var m := MovesBounded(rest, nodes, overflow);
      k := m + 1;
      forall j | k <= j < |trace| ensures trace[j] == trace[k] {
        assert trace[j] == rest[j - 1];
      }
    }
  }

  /** Rebalancing terminates in balance after at most half the square of the number of pods. */
  lemma RebalancingConverges(trace: seq<seq<Pod>>, nodes: seq<Node>, overflow: int)
    requires Run(trace, nodes, overflow)
    requires 2 * (|trace| - 1) > |trace[0]| * |trace[0]|
    ensures exists k :: 0 <= k < |trace| && 2 * k <= |trace[0]| * |trace[0]| && Balanced(trace[k], nodes)
                        && forall j :: k <= j < |trace| ==> trace[j] == trace[k]
  {
    ImbalanceBound(trace[0], nodes);
    var k := MovesBounded(trace, nodes, overflow);
  }
}
