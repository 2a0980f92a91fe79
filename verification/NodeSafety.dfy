/**
 Ready-node counts over both purge paths, and the Ceph storage list after a reconcile pass.
 */
module NodeSafety {
  import opened Prelude
  import opened Nodes
  import opened KubeadmStatus
  import opened NodePurge
  import opened NodeReconcile

  // ---------- deleting one node ----------

  ghost predicate NodesFrom(some: seq<Node>, all: seq<Node>) {
    forall n :: n in some ==> n in all
  }

  /** How many nodes of a role the deletion takes. */
  ghost function Taken(nodes: seq<Node>, name: string, master: bool): nat {
    var node := FindNode(nodes, name);
    if node.Some? && ReadyIn(node.value, master) then 1 else 0
  }

  lemma {:induction false} WithoutNodeCounts(nodes: seq<Node>, name: string, master: bool)
    requires UniqueNames(nodes)
    ensures ReadyCount(WithoutNode(nodes, name), master) + Taken(nodes, name, master) == ReadyCount(nodes, master)
  {
    if nodes != [] {
      var first, rest := nodes[0], nodes[1..];
      assert nodes == [first] + rest;
      ReadyCountAppend([first], rest, master);
      assert [first][..0] == [];
      if first.name == name {
        NothingAfter(nodes);
        NothingToTake(rest, name);
      } else {
        WithoutNodeCounts(rest, name, master);
        ReadyCountAppend([first], WithoutNode(rest, name), master);
      }
    }
  }

  lemma NothingAfter(nodes: seq<Node>)
    requires UniqueNames(nodes) && nodes != []
    ensures forall n :: n in nodes[1..] ==> n.name != nodes[0].name
  {
    forall n | n in nodes[1..] ensures n.name != nodes[0].name {
      var k :| 0 <= k < |nodes| - 1 && nodes[1..][k] == n;
      assert nodes[k + 1] == n;
    }
  }

  lemma UniqueNode(nodes: seq<Node>, a: Node, b: Node)
    requires UniqueNames(nodes) && a in nodes && b in nodes && a.name == b.name
    ensures a == b
  {
    var i :| 0 <= i < |nodes| && nodes[i] == a;
    var j :| 0 <= j < |nodes| && nodes[j] == b;
  }

  function Minimum(cfg: Config, master: bool): int {
    if master then cfg.minReadyMasters else cfg.minReadyWorkers
  }

  /** Going from `before` to `after` takes no role from its configured minimum to below it. */
  ghost predicate KeepsMinimum(before: seq<Node>, after: seq<Node>, cfg: Config) {
    forall master :: ReadyCount(before, master) >= Minimum(cfg, master)
                     ==> ReadyCount(after, master) >= Minimum(cfg, master)
  }

  /** A deletion drops a role below its minimum exactly when it takes a ready node of a role that is at the
      minimum. */
  lemma DeletionDropsIff(nodes: seq<Node>, name: string, master: bool, cfg: Config)
    requires UniqueNames(nodes) && ReadyCount(nodes, master) >= Minimum(cfg, master)
    ensures ReadyCount(WithoutNode(nodes, name), master) < Minimum(cfg, master)
       <==> ReadyCount(nodes, master) == Minimum(cfg, master)
            && exists n :: n in nodes && n.name == name && ReadyIn(n, master)
  {
    WithoutNodeCounts(nodes, name, master);
    FindNodeIn(nodes, name);
    if n :| n in nodes && n.name == name && ReadyIn(n, master) {
      UniqueNode(nodes, n, FindNode(nodes, name).value);
    }
  }

  // ---------- manual purges ----------

  /** Exactly when a manual purge takes a role below its minimum, whatever list its guards saw: it is not
      refused, none of the calls it makes fails, and it takes a ready node of a role that is at the minimum. */
  lemma ManualPurgeDropsIff(s: State, listed: seq<Node>, name: string, cfg: Config, version: RookVersion, faults: set<Fault>,
                            master: bool)
    requires UniqueNames(s.nodes) && ReadyCount(s.nodes, master) >= Minimum(cfg, master)
    ensures var t := ManuallyPurged(s, listed, name, cfg, version, faults).0;
            ReadyCount(t.nodes, master) < Minimum(cfg, master)
            <==> !Refused(listed, name, cfg) && !(cfg.maintainStorage && version == Failing) && CallsSucceed(s, name, faults)
                 && ReadyCount(s.nodes, master) == Minimum(cfg, master)
                 && exists n :: n in s.nodes && n.name == name && ReadyIn(n, master)
  {
    PurgedNodes(s, name, cfg.maintainStorage && version == Known, faults);
    PurgeSucceedsIff(s, name, cfg.maintainStorage && version == Known, faults);
    DeletionDropsIff(s.nodes, name, master, cfg);
  }

  /** With a current list a manual purge, whatever it does and wherever it fails, keeps both minimums. */
  lemma ManualPurgeKeepsMinimum(s: State, name: string, cfg: Config, version: RookVersion, faults: set<Fault>)
    requires UniqueNames(s.nodes)
    ensures KeepsMinimum(s.nodes, ManuallyPurged(s, s.nodes, name, cfg, version, faults).0.nodes, cfg)
  {
    forall master | ReadyCount(s.nodes, master) >= Minimum(cfg, master)
      ensures ReadyCount(ManuallyPurged(s, s.nodes, name, cfg, version, faults).0.nodes, master) >= Minimum(cfg, master)
    {
      ManualPurgeDropsIff(s, s.nodes, name, cfg, version, faults, master);
    }
  }

  /** Two manual purges that list at the same time: neither is refused, and together they take the workers
      below the minimum. */
  lemma ManualPurgesInterleave() returns (s: State, cfg: Config)
    ensures UniqueNames(s.nodes) && ReadyCount(s.nodes, false) > cfg.minReadyWorkers == 1
    ensures var first := ManuallyPurged(s, s.nodes, "a", cfg, NotFound, {});
            var second := ManuallyPurged(first.0, s.nodes, "b", cfg, NotFound, {});
            first.1 && second.1 && ReadyCount(second.0.nodes, false) < cfg.minReadyWorkers
  {
    var a, b := Worker("a", false), Worker("b", false);
    cfg := Config(true, 0, 1, 60, false, "", "");
    s := State([a, b], Absent, [], []);
    TwoWorkers(a, b);
    assert !Refused(s.nodes, "a", cfg) && !Refused(s.nodes, "b", cfg);
    var first := ManuallyPurged(s, s.nodes, "a", cfg, NotFound, {}).0;
    assert FindNode([a, b], "a") == Some(a) && first.nodes == WithoutNode([a, b], "a");
    assert [a, b][1..] == [b] && [b][1..] == [];
    NothingToTake([b], "a");
    assert first.nodes == [b];
    assert b in first.nodes && FindNode([b], "b") == Some(b);
    ManualPurgeDropsIff(first, s.nodes, "b", cfg, NotFound, {}, false);
  }

  lemma TwoWorkers(a: Node, b: Node)
    requires !IsMaster(a) && !IsMaster(b) && IsReady(a) && IsReady(b)
    ensures ReadyCount([a, b], false) == 2 && ReadyCount([b], false) == 1
  {
    assert [a, b][..1] == [a] && [a][..0] == [] && [b][..0] == [];
    assert ReadyCount([a], false) == 1;
  }

  // ---------- automatic purges ----------

  lemma {:induction false} DeadIsNotReady(node: Node, now: int, cfg: Config)
    requires IsDead(node, now, cfg)
    ensures !IsReady(node)
  {
    UnreachableTaintThere(node.taints);
  }

  lemma {:induction false} UnreachableTaintThere(taints: seq<Taint>)
    requires UnreachableSince(taints).Some?
    ensures exists t :: t in taints && t.key == UNREACHABLE_TAINT
  {
    if !(taints[0].key == UNREACHABLE_TAINT && taints[0].timeAdded.Some?) {
      UnreachableTaintThere(taints[1..]);
      var t :| t in taints[1..] && t.key == UNREACHABLE_TAINT;
      assert t in taints;
    } else {
      assert taints[0] in taints;
    }
  }

  /** Deleting nodes that were listed and not ready leaves both counts alone. */
  ghost predicate SameCounts(a: seq<Node>, b: seq<Node>) {
    ReadyCount(a, true) == ReadyCount(b, true) && ReadyCount(a, false) == ReadyCount(b, false)
  }

  /** Reconciling the current nodes purges any number of them and changes neither count, after any prefix of
      the pass and under any failures. */
  lemma {:induction false} AutoPurgesKeepCounts(s: State, nodes: seq<Node>, now: int, cfg: Config, masters: nat,
                                                workers: nat, rook: bool, faults: NodeFaults)
    requires UniqueNames(s.nodes) && NodesFrom(nodes, s.nodes)
    ensures var t := PassOver(s, nodes, now, cfg, masters, workers, rook, faults).0;
            SameCounts(t.nodes, s.nodes) && UniqueNames(t.nodes) && NodesFrom(t.nodes, s.nodes)
  {
    if nodes != [] {
      var front, node := nodes[..|nodes| - 1], nodes[|nodes| - 1];
      AutoPurgesKeepCounts(s, front, now, cfg, masters, workers, rook, faults);
      var t := PassOver(s, front, now, cfg, masters, workers, rook, faults).0;
      if AutoPurges(node, now, cfg, masters, workers) {
        DeadIsNotReady(node, now, cfg);
        PurgedNodes(t, node.name, cfg.maintainStorage && rook, faults(node.name));
        WithoutNodeKeeps(t.nodes, node.name);
        WithoutNodeCounts(t.nodes, node.name, true);
        WithoutNodeCounts(t.nodes, node.name, false);
        FindNodeIn(t.nodes, node.name);
        if FindNode(t.nodes, node.name).Some? {
          UniqueNode(s.nodes, node, FindNode(t.nodes, node.name).value);
        }
      }
    }
  }

  // ---------- runs mixing everything ----------

  /** Anything may change the nodes between purges, as long as names stay unique; each purge has its own list
      of nodes, current or not. */
  datatype Action =
    | Change(nodes: seq<Node>)
    | Auto(listed: seq<Node>, now: int, rook: bool, nodeFaults: NodeFaults)
    | Manual(listed: seq<Node>, name: string, version: RookVersion, faults: set<Fault>)

  ghost function Act(s: State, a: Action, cfg: Config): State {
    match a
    case Change(nodes) => s.(nodes := nodes)
    case Auto(listed, now, rook, f) => Pass(s, listed, now, cfg, rook, f).0
    case Manual(listed, name, version, f) => ManuallyPurged(s, listed, name, cfg, version, f).0
  }

  ghost function RunActions(s: State, actions: seq<Action>, cfg: Config): State {
    if actions == [] then s
    else Act(RunActions(s, actions[..|actions| - 1], cfg), actions[|actions| - 1], cfg)
  }

  ghost predicate ChangesKeepNamesUnique(actions: seq<Action>) {
    forall a :: a in actions && a.Change? ==> UniqueNames(a.nodes)
  }

  lemma {:induction false} RunKeepsNamesUnique(s: State, actions: seq<Action>, cfg: Config)
    requires UniqueNames(s.nodes) && ChangesKeepNamesUnique(actions)
    ensures UniqueNames(RunActions(s, actions, cfg).nodes)
  {
    if actions != [] {
      var front, last := actions[..|actions| - 1], actions[|actions| - 1];
      assert last in actions;
      assert ChangesKeepNamesUnique(front);
      RunKeepsNamesUnique(s, front, cfg);
      var t := RunActions(s, front, cfg);
      match last
      case Change(nodes) =>
      case Auto(listed, now, rook, f) =>
        PassTakes(t, listed, now, cfg, ReadyCount(listed, true), ReadyCount(listed, false), rook, f);
        WithoutAllKeeps(t.nodes, PurgedNames(t, listed, now, cfg, ReadyCount(listed, true), ReadyCount(listed, false), rook, f));
      case Manual(listed, name, version, f) =>
        PurgedNodes(t, name, cfg.maintainStorage && version == Known, f);
        WithoutNodeKeeps(t.nodes, name);
    }
  }

  /** In any run, with any lists before, the next purge of either kind that has a current list takes no role
      below its minimum, and such an automatic pass changes neither count. */
  lemma PurgesAreSafe(s: State, actions: seq<Action>, next: Action, cfg: Config)
    requires UniqueNames(s.nodes) && ChangesKeepNamesUnique(actions) && !next.Change?
    requires next.listed == RunActions(s, actions, cfg).nodes
    ensures var before, after := RunActions(s, actions, cfg), Act(RunActions(s, actions, cfg), next, cfg);
            && KeepsMinimum(before.nodes, after.nodes, cfg)
            && (next.Auto? ==> SameCounts(before.nodes, after.nodes))
  {
    RunKeepsNamesUnique(s, actions, cfg);
    var t := RunActions(s, actions, cfg);
    match next
    case Auto(_, now, rook, f) =>
      AutoPurgesKeepCounts(t, t.nodes, now, cfg, ReadyCount(t.nodes, true), ReadyCount(t.nodes, false), rook, f);
    case Manual(_, name, version, f) =>
      ManualPurgeKeepsMinimum(t, name, cfg, version, f);
  }

  // ---------- passes over any list ----------

  /** The names whose purge succeeds somewhere in the pass. */
  function PurgedNames(s: State, listed: seq<Node>, now: int, cfg: Config, masters: nat, workers: nat, rook: bool,
                       faults: NodeFaults): set<string>
  {
    if listed == [] then {}
    else
      var front, node := listed[..|listed| - 1], listed[|listed| - 1];
      var t := PassOver(s, front, now, cfg, masters, workers, rook, faults).0;
      var names := PurgedNames(s, front, now, cfg, masters, workers, rook, faults);
      if AutoPurges(node, now, cfg, masters, workers)
         && Purged(t, node.name, cfg.maintainStorage && rook, faults(node.name)).1 then names + {node.name}
      else names
  }

  function WithoutAll(nodes: seq<Node>, names: set<string>): seq<Node> {
    if nodes == [] then []
    else if nodes[0].name in names then WithoutAll(nodes[1..], names)
    else [nodes[0]] + WithoutAll(nodes[1..], names)
  }

  /** How many ready nodes of a role have one of the names. */
  function ReadyAmong(nodes: seq<Node>, names: set<string>, master: bool): nat {
    if nodes == [] then 0
    else ReadyAmong(nodes[1..], names, master) + if nodes[0].name in names && ReadyIn(nodes[0], master) then 1 else 0
  }

  lemma {:induction false} WithoutAllKeeps(nodes: seq<Node>, names: set<string>)
    ensures forall n :: n in WithoutAll(nodes, names) <==> n in nodes && n.name !in names
    ensures UniqueNames(nodes) ==> UniqueNames(WithoutAll(nodes, names))
  {
    if nodes != [] {
      var rest := nodes[1..];
      WithoutAllKeeps(rest, names);
      if UniqueNames(nodes) {
        assert UniqueNames(rest);
        forall n | n in rest ensures n.name != nodes[0].name {
          var k :| 0 <= k < |rest| && rest[k] == n;
          assert nodes[k + 1] == n;
        }
      }
    }
  }

  lemma {:induction false} WithoutOneMore(nodes: seq<Node>, names: set<string>, name: string)
    ensures WithoutNode(WithoutAll(nodes, names), name) == WithoutAll(nodes, names + {name})
  {
    if nodes != [] {
      WithoutOneMore(nodes[1..], names, name);
    }
  }

  lemma {:induction false} WithoutNone(nodes: seq<Node>)
    ensures WithoutAll(nodes, {}) == nodes
  {
    if nodes != [] {
      WithoutNone(nodes[1..]);
    }
  }

  lemma {:induction false} WithoutAllCounts(nodes: seq<Node>, names: set<string>, master: bool)
    ensures ReadyCount(WithoutAll(nodes, names), master) + ReadyAmong(nodes, names, master) == ReadyCount(nodes, master)
  {
    if nodes != [] {
      var first, rest := [nodes[0]], nodes[1..];
      assert nodes == first + rest && first[..0] == [];
      WithoutAllCounts(rest, names, master);
      ReadyCountAppend(first, rest, master);
      ReadyCountAppend(first, WithoutAll(rest, names), master);
    }
  }

  /** A pass over any list, with any failures, leaves exactly the current nodes whose purge did not succeed. */
  lemma {:induction false} PassTakes(s: State, listed: seq<Node>, now: int, cfg: Config, masters: nat, workers: nat,
                                     rook: bool, faults: NodeFaults)
    ensures PassOver(s, listed, now, cfg, masters, workers, rook, faults).0.nodes
         == WithoutAll(s.nodes, PurgedNames(s, listed, now, cfg, masters, workers, rook, faults))
  {
    if listed == [] {
      WithoutNone(s.nodes);
    } else {
      var front, node := listed[..|listed| - 1], listed[|listed| - 1];
      PassTakes(s, front, now, cfg, masters, workers, rook, faults);
      if AutoPurges(node, now, cfg, masters, workers) {
        PurgedNodes(PassOver(s, front, now, cfg, masters, workers, rook, faults).0, node.name, cfg.maintainStorage && rook,
                    faults(node.name));
        WithoutOneMore(s.nodes, PurgedNames(s, front, now, cfg, masters, workers, rook, faults), node.name);
      }
    }
  }

  function AutoPurgedNames(listed: seq<Node>, now: int, cfg: Config, masters: nat, workers: nat): set<string> {
    set n | n in listed && AutoPurges(n, now, cfg, masters, workers) :: n.name
  }

  /** In a list of unique names, the purges that succeed are those not reported as failed. */
  lemma {:induction false} SucceededIffNotFailed(s: State, listed: seq<Node>, now: int, cfg: Config, masters: nat, workers: nat,
                                                 rook: bool, faults: NodeFaults)
    requires UniqueNames(listed)
    ensures var failed := PassOver(s, listed, now, cfg, masters, workers, rook, faults).1;
            && PurgedNames(s, listed, now, cfg, masters, workers, rook, faults)
               == AutoPurgedNames(listed, now, cfg, masters, workers) - failed
            && failed <= AutoPurgedNames(listed, now, cfg, masters, workers)
  {
    if listed != [] {
      var front, node := listed[..|listed| - 1], listed[|listed| - 1];
      SucceededIffNotFailed(s, front, now, cfg, masters, workers, rook, faults);
      LastAutoPurged(listed, now, cfg, masters, workers);
    }
  }

  lemma LastAutoPurged(listed: seq<Node>, now: int, cfg: Config, masters: nat, workers: nat)
    requires UniqueNames(listed) && listed != []
    ensures var before, node := AutoPurgedNames(listed[..|listed| - 1], now, cfg, masters, workers), listed[|listed| - 1];
            && node.name !in before
            && AutoPurgedNames(listed, now, cfg, masters, workers)
               == before + if AutoPurges(node, now, cfg, masters, workers) then {node.name} else {}
  {
    var front, node := listed[..|listed| - 1], listed[|listed| - 1];
    forall n ensures n in listed <==> n in front || n == node {
      assert listed == front + [node];
    }
    forall n | n in front ensures n.name != node.name {
      var k :| 0 <= k < |front| && front[k] == n;
      assert listed[k] == n;
    }
  }

  /** What a pass over any list does to a role, however old the list, whatever fails, with or without Rook: it
      takes the nodes that are ready by now, are listed as dead, and whose purge does not fail. The role drops
      below its minimum if and only if these are more than there are above the minimum. */
  lemma StaleListDropsBelowIff(s: State, listed: seq<Node>, now: int, cfg: Config, rook: bool, faults: NodeFaults, master: bool)
    requires UniqueNames(listed)
    ensures var (t, failed) := Pass(s, listed, now, cfg, rook, faults);
            var names := AutoPurgedNames(listed, now, cfg, ReadyCount(listed, true), ReadyCount(listed, false)) - failed;
            && ReadyCount(t.nodes, master) == ReadyCount(s.nodes, master) - ReadyAmong(s.nodes, names, master)
            && (ReadyCount(t.nodes, master) < Minimum(cfg, master)
                <==> ReadyAmong(s.nodes, names, master) > ReadyCount(s.nodes, master) - Minimum(cfg, master))
  {
    var masters, workers := ReadyCount(listed, true), ReadyCount(listed, false);
    PassTakes(s, listed, now, cfg, masters, workers, rook, faults);
    SucceededIffNotFailed(s, listed, now, cfg, masters, workers, rook, faults);
    WithoutAllCounts(s.nodes, PurgedNames(s, listed, now, cfg, masters, workers, rook, faults), master);
  }

  lemma {:induction false} NothingFails(s: State, listed: seq<Node>, now: int, cfg: Config, masters: nat, workers: nat, rook: bool,
                                        faults: NodeFaults)
    requires s.status == Absent && forall name :: faults(name) == {}
    ensures var (t, failed) := PassOver(s, listed, now, cfg, masters, workers, rook, faults);
            failed == {} && t.status == Absent
  {
    if listed != [] {
      NothingFails(s, listed[..|listed| - 1], now, cfg, masters, workers, rook, faults);
    }
  }

  lemma ThreeNodes(a: Node, b: Node, c: Node, master: bool)
    ensures ReadyCount([a, b, c], master) == (if ReadyIn(a, master) then 1 else 0) + (if ReadyIn(b, master) then 1 else 0)
                                             + (if ReadyIn(c, master) then 1 else 0)
  {
    var one, two, three := [a], [a, b], [a, b, c];
    assert one[..0] == [] && two[..1] == one && three[..2] == two;
    assert ReadyCount(one, master) == if ReadyIn(a, master) then 1 else 0;
    assert ReadyCount(two, master) == ReadyCount(one, master) + if ReadyIn(b, master) then 1 else 0;
  }

  lemma ThreeAmong(a: Node, b: Node, c: Node, names: set<string>, master: bool)
    ensures ReadyAmong([a, b, c], names, master)
         == (if a.name in names && ReadyIn(a, master) then 1 else 0) + (if b.name in names && ReadyIn(b, master) then 1 else 0)
            + (if c.name in names && ReadyIn(c, master) then 1 else 0)
  {
    var one, two, three := [c], [b, c], [a, b, c];
    assert one[1..] == [] && two[1..] == one && three[1..] == two;
    assert ReadyAmong(one, names, master) == if c.name in names && ReadyIn(c, master) then 1 else 0;
    assert ReadyAmong(two, names, master)
        == ReadyAmong(one, names, master) + if b.name in names && ReadyIn(b, master) then 1 else 0;
  }

  function Worker(name: string, dead: bool): (n: Node)
    ensures !IsMaster(n) && (IsReady(n) <==> !dead) && n.name == name
    ensures forall now, cfg: Config :: IsDead(n, now, cfg) <==> dead && 0 < now - cfg.toleration
  {
    var since := Taint(UNREACHABLE_TAINT, Some(0));
    assert since in [since];
    Node(name, map[], if dead then [since] else [], [])
  }

  /** Three workers as listed, and as they are by the time of the purge. */
  function WitnessListed(): (nodes: seq<Node>)
    ensures UniqueNames(nodes)
  {
    [Worker("a", true), Worker("b", true), Worker("c", false)]
  }

  function WitnessNow(): (nodes: seq<Node>)
    ensures UniqueNames(nodes)
  {
    [Worker("a", false), Worker("b", false), Worker("c", true)]
  }

  /** Such a case exists, from above the minimum: two workers dead in the list and back by the time of the
      purge, another one gone. */
  lemma StaleListWitness() returns (s: State, listed: seq<Node>, cfg: Config)
    ensures UniqueNames(s.nodes) && UniqueNames(listed) && |listed| == |s.nodes|
    ensures forall k :: 0 <= k < |listed| ==> listed[k].name == s.nodes[k].name
    ensures ReadyCount(s.nodes, false) > cfg.minReadyWorkers == 1
    ensures ReadyCount(Pass(s, listed, 1000, cfg, false, _ => {}).0.nodes, false) == 0
  {
    var faults: NodeFaults := _ => {};
    cfg := Config(true, 0, 1, 60, false, "", "");
    listed, s := WitnessListed(), State(WitnessNow(), Absent, [], []);
    NothingFails(s, listed, 1000, cfg, ReadyCount(listed, true), ReadyCount(listed, false), false, faults);
    var names := AutoPurgedNames(listed, 1000, cfg, ReadyCount(listed, true), ReadyCount(listed, false));
    WitnessNames(cfg, names);
    assert names - {} == names;
    WitnessCounts(names);
    StaleListDropsBelowIff(s, listed, 1000, cfg, false, faults, false);
  }

  lemma WitnessCounts(names: set<string>)
    requires "a" in names && "b" in names
    ensures ReadyCount(WitnessNow(), false) == 2 && ReadyAmong(WitnessNow(), names, false) == 2
  {
    ThreeNodes(Worker("a", false), Worker("b", false), Worker("c", true), false);
    ThreeAmong(Worker("a", false), Worker("b", false), Worker("c", true), names, false);
  }

  lemma WitnessNames(cfg: Config, names: set<string>)
    requires cfg == Config(true, 0, 1, 60, false, "", "")
    requires var listed := WitnessListed();
             names == AutoPurgedNames(listed, 1000, cfg, ReadyCount(listed, true), ReadyCount(listed, false))
    ensures "a" in names && "b" in names
  {
    var listed := WitnessListed();
    ThreeNodes(listed[0], listed[1], listed[2], false);
    assert AutoPurges(listed[0], 1000, cfg, ReadyCount(listed, true), ReadyCount(listed, false));
    assert AutoPurges(listed[1], 1000, cfg, ReadyCount(listed, true), ReadyCount(listed, false));
    assert listed[0] in listed && listed[1] in listed;
  }

  // ---------- the storage list ----------

  function KeptStorage(storage: seq<StorageNode>, gone: set<string>): seq<StorageNode> {
    if storage == [] then []
    else
      var front := KeptStorage(storage[..|storage| - 1], gone);
      if storage[|storage| - 1].name in gone then front else front + [storage[|storage| - 1]]
  }

  lemma {:induction false} WithoutKept(storage: seq<StorageNode>, gone: set<string>, name: string)
    ensures WithoutStorage(KeptStorage(storage, gone), name) == KeptStorage(storage, gone + {name})
  {
    if storage != [] {
      var front, last := storage[..|storage| - 1], storage[|storage| - 1];
      WithoutKept(front, gone, name);
      if last.name !in gone {
        assert KeptStorage(storage, gone)[..|KeptStorage(storage, gone)| - 1] == KeptStorage(front, gone);
      }
    }
  }

  lemma {:induction false} KeepAll(storage: seq<StorageNode>)
    ensures KeptStorage(storage, {}) == storage
  {
    if storage != [] {
      KeepAll(storage[..|storage| - 1]);
    }
  }

  lemma {:induction false} KeptMembers(storage: seq<StorageNode>, gone: set<string>)
    ensures forall n :: n in KeptStorage(storage, gone) <==> n in storage && n.name !in gone
  {
    if storage != [] {
      var front, last := storage[..|storage| - 1], storage[|storage| - 1];
      assert storage == front + [last];
      KeptMembers(front, gone);
    }
  }

  /** The listed nodes whose automatic purge reaches the storage list. */
  function Unlisted(nodes: seq<Node>, now: int, cfg: Config, masters: nat, workers: nat, faults: NodeFaults): set<string> {
    set n | n in nodes && AutoPurges(n, now, cfg, masters, workers)
            && GetNode !in faults(n.name) && PurgeOsd !in faults(n.name) :: n.name
  }

  lemma {:induction false} PassStorage(s: State, nodes: seq<Node>, now: int, cfg: Config, masters: nat, workers: nat,
                                       faults: NodeFaults)
    requires cfg.maintainStorage
    ensures PassOver(s, nodes, now, cfg, masters, workers, true, faults).0.storage
         == KeptStorage(s.storage, Unlisted(nodes, now, cfg, masters, workers, faults))
  {
    if nodes == [] {
      assert Unlisted(nodes, now, cfg, masters, workers, faults) == {};
      KeepAll(s.storage);
    } else {
      var front, node := nodes[..|nodes| - 1], nodes[|nodes| - 1];
      assert nodes == front + [node];
      PassStorage(s, front, now, cfg, masters, workers, faults);
      var before := Unlisted(front, now, cfg, masters, workers, faults);
      var all := Unlisted(nodes, now, cfg, masters, workers, faults);
      var name := node.name;
      if AutoPurges(node, now, cfg, masters, workers) && GetNode !in faults(name) && PurgeOsd !in faults(name) {
        assert all == before + {name};
        WithoutKept(s.storage, before, name);
      } else {
        assert all == before;
      }
      PurgedStorage(PassOver(s, front, now, cfg, masters, workers, true, faults).0, name, faults(name));
    }
  }

  lemma PurgedStorage(s: State, name: string, faults: set<Fault>)
    ensures Purged(s, name, true, faults).0.storage
         == if GetNode in faults || PurgeOsd in faults then s.storage else WithoutStorage(s.storage, name)
  {
  }

  ghost predicate NoDuplicates(storage: seq<StorageNode>) {
    forall i, j :: 0 <= i < j < |storage| ==> storage[i].name != storage[j].name
  }

  lemma {:induction false} KeptNoDuplicates(storage: seq<StorageNode>, gone: set<string>)
    requires NoDuplicates(storage)
    ensures NoDuplicates(KeptStorage(storage, gone))
  {
    if storage != [] {
      var front, last := storage[..|storage| - 1], storage[|storage| - 1];
      KeptNoDuplicates(front, gone);
      KeptMembers(front, gone);
      forall n | n in KeptStorage(front, gone) ensures n.name != last.name {
        var k :| 0 <= k < |front| && front[k] == n;
        assert storage[k] == n;
      }
    }
  }

  /** Nodes the final step appends: ready, matching the selector and not in the list. */
  function Appended(storage: seq<StorageNode>, nodes: seq<Node>, selector: string): seq<StorageNode> {
    if nodes == [] then []
    else
      var front := Appended(storage, nodes[..|nodes| - 1], selector);
      var node := nodes[|nodes| - 1];
      if ShouldUseNodeForStorage(node, [], selector, false) && !Names(storage, node.name)
      then front + [StorageNode(node.name, "")] else front
  }

  lemma {:induction false} AppendedIsNew(storage: seq<StorageNode>, nodes: seq<Node>, selector: string)
    ensures NewEntries(storage, StorageCandidates(nodes, storage, selector, false)) == Appended(storage, nodes, selector)
  {
    if nodes != [] {
      var front := nodes[..|nodes| - 1];
      AppendedIsNew(storage, front, selector);
      var names := StorageCandidates(nodes, storage, selector, false);
      if ShouldUseNodeForStorage(nodes[|nodes| - 1], storage, selector, false) {
        assert names[..|names| - 1] == StorageCandidates(front, storage, selector, false);
      }
    }
  }

  lemma {:induction false} AppendedMembers(storage: seq<StorageNode>, nodes: seq<Node>, selector: string)
    ensures forall e :: e in Appended(storage, nodes, selector) ==>
              e.config == "" && !Names(storage, e.name) && exists n :: n in nodes && IsReady(n) && n.name == e.name
    ensures UniqueNames(nodes) ==> NoDuplicates(Appended(storage, nodes, selector))
  {
    if nodes != [] {
      var front, last := nodes[..|nodes| - 1], nodes[|nodes| - 1];
      assert nodes == front + [last];
      AppendedMembers(storage, front, selector);
      if UniqueNames(nodes) {
        forall e | e in Appended(storage, front, selector) ensures e.name != last.name {
          var n :| n in front && IsReady(n) && n.name == e.name;
          var k :| 0 <= k < |front| && front[k] == n;
          assert nodes[k] == n;
        }
      }
    }
  }

  lemma {:induction false} AppendedAfterKept(storage: seq<StorageNode>, gone: set<string>, nodes: seq<Node>, selector: string)
    requires forall n :: n in nodes && IsReady(n) ==> n.name !in gone
    ensures Appended(KeptStorage(storage, gone), nodes, selector) == Appended(storage, nodes, selector)
  {
    if nodes != [] {
      var front, last := nodes[..|nodes| - 1], nodes[|nodes| - 1];
      assert last in nodes;
      AppendedAfterKept(storage, gone, front, selector);
      KeptMembers(storage, gone);
      if IsReady(last) && Names(storage, last.name) {
        var e :| e in storage && e.name == last.name;
        assert e in KeptStorage(storage, gone);
      }
    }
  }

  /** What a pass that maintains an unmanaged storage list leaves of it: the old entries, in order, without
      the nodes it purged, then the ready matching nodes that had no entry. */
  ghost function StorageAfter(s: State, listed: seq<Node>, now: int, cfg: Config, faults: NodeFaults): seq<StorageNode> {
    WithReadyNodes(Pass(s, listed, now, cfg, true, faults).0.storage, listed, cfg.storageLabel)
  }

  lemma StorageListAfterReconcile(s: State, listed: seq<Node>, now: int, cfg: Config, faults: NodeFaults)
    requires UniqueNames(listed) && NoDuplicates(s.storage) && cfg.maintainStorage
    ensures var gone := Unlisted(listed, now, cfg, ReadyCount(listed, true), ReadyCount(listed, false), faults);
            var after := StorageAfter(s, listed, now, cfg, faults);
            && after == KeptStorage(s.storage, gone) + Appended(s.storage, listed, cfg.storageLabel)
            && NoDuplicates(after)
            && (forall name :: name in gone ==> !Names(after, name))
  {
    var masters, workers := ReadyCount(listed, true), ReadyCount(listed, false);
    var gone := Unlisted(listed, now, cfg, masters, workers, faults);
    var kept, more := KeptStorage(s.storage, gone), Appended(s.storage, listed, cfg.storageLabel);
    PassStorage(s, listed, now, cfg, masters, workers, faults);
    forall n | n in listed && IsReady(n) ensures n.name !in gone {
      if m :| m in listed && AutoPurges(m, now, cfg, masters, workers) && m.name == n.name {
        DeadIsNotReady(m, now, cfg);
        UniqueNode(listed, m, n);
      }
    }
    AppendedIsNew(kept, listed, cfg.storageLabel);
    AppendedAfterKept(s.storage, gone, listed, cfg.storageLabel);
    KeptNoDuplicates(s.storage, gone);
    KeptMembers(s.storage, gone);
    AppendedMembers(s.storage, listed, cfg.storageLabel);
    assert StorageAfter(s, listed, now, cfg, faults) == kept + more;
    forall e | e in more ensures e.name !in gone && !Names(kept, e.name) {
      var n :| n in listed && IsReady(n) && n.name == e.name;
    }
    NothingTwice(kept, more);
  }

  lemma NothingTwice(kept: seq<StorageNode>, more: seq<StorageNode>)
    requires NoDuplicates(kept) && NoDuplicates(more) && forall e :: e in more ==> !Names(kept, e.name)
    ensures NoDuplicates(kept + more)
  {
    var all := kept + more;
    forall i, j | 0 <= i < j < |all| ensures all[i].name != all[j].name {
      if i < |kept| <= j {
        assert all[i] == kept[i] && all[j] == more[j - |kept|];
        assert kept[i] in kept && more[j - |kept|] in more;
      } else if i >= |kept| {
        assert all[i] == more[i - |kept|] && all[j] == more[j - |kept|];
      }
    }
  }
}
