/** Kubernetes nodes as the operator reads them: taints, role labels and addresses. */
module Nodes {
  import opened Prelude

  const MASTER_ROLE_LABEL := "node-role.kubernetes.io/master"
  const CONTROL_PLANE_ROLE_LABEL := "node-role.kubernetes.io/control-plane"
  const UNREACHABLE_TAINT := "node.kubernetes.io/unreachable"
  const NOT_READY_TAINT := "node.kubernetes.io/not-ready"
  const NETWORK_UNAVAILABLE_TAINT := "node.kubernetes.io/network-unavailable"
  const UNSCHEDULABLE_TAINT := "node.kubernetes.io/unschedulable"
  const INTERNAL_IP := "InternalIP"

  /** `timeAdded` is None for the zero time. */
  datatype Taint = Taint(key: string, timeAdded: Option<int>)

  datatype Address = Address(kind: string, address: string)

  datatype Node = Node(name: string, labels: map<string, string>, taints: seq<Taint>, addresses: seq<Address>)

  predicate BlocksReadiness(key: string) {
    || key == NOT_READY_TAINT
    || key == UNREACHABLE_TAINT
    || key == NETWORK_UNAVAILABLE_TAINT
    || key == UNSCHEDULABLE_TAINT
  }

  predicate IsReady(node: Node) {
    forall t :: t in node.taints ==> !BlocksReadiness(t.key)
  }

  predicate IsMaster(node: Node) {
    MASTER_ROLE_LABEL in node.labels || CONTROL_PLANE_ROLE_LABEL in node.labels
  }

  /** The first address of kind InternalIP, or the empty string. */
  function FirstInternal(addresses: seq<Address>): string {
    if addresses == [] then ""
    else if addresses[0].kind == INTERNAL_IP then addresses[0].address
    else FirstInternal(addresses[1..])
  }

  function InternalIP(node: Node): string {
    FirstInternal(node.addresses)
  }

  /** The first entry of kind InternalIP gives the address, whatever other kinds come before it. */
  lemma {:induction false} FirstInternalMeans(addresses: seq<Address>)
    ensures forall i | 0 <= i < |addresses| && addresses[i].kind == "InternalIP" && (forall j :: 0 <= j < i ==> addresses[j].kind != "InternalIP") ::
      FirstInternal(addresses) == addresses[i].address
    ensures (forall i :: 0 <= i < |addresses| ==> addresses[i].kind != "InternalIP") ==> FirstInternal(addresses) == ""
  {
    if addresses != [] && addresses[0].kind != INTERNAL_IP {
      var rest := addresses[1..];
      FirstInternalMeans(rest);
      forall i | 0 <= i < |addresses| && addresses[i].kind == "InternalIP" && (forall j :: 0 <= j < i ==> addresses[j].kind != "InternalIP")
        ensures FirstInternal(addresses) == addresses[i].address
      {
        assert rest[i - 1] == addresses[i] && forall j :: 0 <= j < i - 1 ==> rest[j] == addresses[j + 1];
      }
    }
  }

  /** A ready node has none of four taints; a master has one of two role labels, whatever their values. */
  lemma ReadyMasterMeans(node: Node)
    ensures IsReady(node) <==> forall i :: 0 <= i < |node.taints| ==>
      && node.taints[i].key != "node.kubernetes.io/not-ready" && node.taints[i].key != "node.kubernetes.io/unreachable"
      && node.taints[i].key != "node.kubernetes.io/network-unavailable" && node.taints[i].key != "node.kubernetes.io/unschedulable"
    ensures IsMaster(node) <==>
      "node-role.kubernetes.io/master" in node.labels || "node-role.kubernetes.io/control-plane" in node.labels
  {
    assert forall t :: t in node.taints <==> exists i :: 0 <= i < |node.taints| && node.taints[i] == t;
  }

  predicate ReadyIn(node: Node, master: bool) {
    IsReady(node) && IsMaster(node) == master
  }

  /** The number of ready masters (or of ready workers). */
  function ReadyCount(nodes: seq<Node>, master: bool): nat {
    if nodes == [] then 0
    else ReadyCount(nodes[..|nodes| - 1], master) + (if ReadyIn(nodes[|nodes| - 1], master) then 1 else 0)
  }

  function ReadyTotal(nodes: seq<Node>): nat {
    ReadyCount(nodes, true) + ReadyCount(nodes, false)
  }

  method NodeReadyCounts(nodes: seq<Node>) returns (masters: nat, workers: nat)
    ensures masters == ReadyCount(nodes, true)
    ensures workers == ReadyCount(nodes, false)
  {
    masters, workers := 0, 0;
    for i := 0 to |nodes|
      invariant masters == ReadyCount(nodes[..i], true)
      invariant workers == ReadyCount(nodes[..i], false)
    {
      assert nodes[..i + 1][..i] == nodes[..i];
      if !IsReady(nodes[i]) {
        continue;
      }
      if IsMaster(nodes[i]) {
        masters := masters + 1;
      } else {
        workers := workers + 1;
      }
    }
    assert nodes[..|nodes|] == nodes;
  }

  lemma {:induction false} ReadyCountAppend(a: seq<Node>, b: seq<Node>, master: bool)
    ensures ReadyCount(a + b, master) == ReadyCount(a, master) + ReadyCount(b, master)
  {
    if b == [] {
      assert a + b == a;
    } else {
      var c := b[..|b| - 1];
      assert (a + b)[..|a + b| - 1] == a + c;
      ReadyCountAppend(a, c, master);
    }
  }

  /** Taking one node out lowers exactly the count that node belongs to. */
  lemma ReadyCountRemove(nodes: seq<Node>, i: nat, master: bool)
    requires i < |nodes|
    ensures ReadyCount(nodes[..i] + nodes[i + 1..], master) + (if ReadyIn(nodes[i], master) then 1 else 0)
         == ReadyCount(nodes, master)
  {
    assert nodes == nodes[..i] + [nodes[i]] + nodes[i + 1..];
    ReadyCountAppend(nodes[..i] + [nodes[i]], nodes[i + 1..], master);
    ReadyCountAppend(nodes[..i], [nodes[i]], master);
    ReadyCountAppend(nodes[..i], nodes[i + 1..], master);
    assert [nodes[i]][..0] == [];
  }

  predicate UniqueNames(nodes: seq<Node>) {
    forall i, j :: 0 <= i < j < |nodes| ==> nodes[i].name != nodes[j].name
  }

  /** The host addresses of the ready nodes. */
  function ReadyHosts(nodes: seq<Node>): set<string> {
    set n | n in nodes && IsReady(n) :: InternalIP(n)
  }

  predicate DistinctReadyHosts(nodes: seq<Node>) {
    forall i, j :: 0 <= i < j < |nodes| && IsReady(nodes[i]) && IsReady(nodes[j])
      ==> InternalIP(nodes[i]) != InternalIP(nodes[j])
  }

  lemma ReadyHostsAppend(front: seq<Node>, last: Node)
    ensures ReadyHosts(front + [last]) == ReadyHosts(front) + (if IsReady(last) then {InternalIP(last)} else {})
  {
    forall n ensures n in front + [last] <==> n in front || n == last {}
  }

  lemma LastHostIsNew(front: seq<Node>, last: Node)
    requires DistinctReadyHosts(front + [last]) && IsReady(last)
    ensures InternalIP(last) !in ReadyHosts(front)
  {
    var nodes := front + [last];
    forall n | n in front && IsReady(n) ensures InternalIP(n) != InternalIP(last) {
      var k :| 0 <= k < |front| && front[k] == n;
      assert nodes[k] == n && nodes[|front|] == last;
    }
  }

  /** When ready nodes have addresses of their own, counting ready nodes counts ready hosts. */
  lemma {:induction false} ReadyHostsCounted(nodes: seq<Node>)
    requires DistinctReadyHosts(nodes)
    ensures |ReadyHosts(nodes)| == ReadyTotal(nodes)
  {
    if nodes == [] {
      assert ReadyHosts(nodes) == {};
    } else {
      var last, front := nodes[|nodes| - 1], nodes[..|nodes| - 1];
      assert nodes == front + [last];
      ReadyHostsCounted(front);
      ReadyHostsAppend(front, last);
      if IsReady(last) {
        LastHostIsNew(front, last);
      }
    }
  }
}
