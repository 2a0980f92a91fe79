/**
 Replication over many reconcile passes: sizes and daemon counts only ever go up, to the largest target a
 pass got through, while the block pool may come down on a full pass.
 */
module CephRatchet {
  import opened Prelude
  import opened JsonPatch
  import opened CephReplication

  datatype Bounds = Bounds(minReplication: int, maxReplication: int)

  /** The replication level for a number of storage nodes. */
  function Factor(numNodes: int, b: Bounds): int {
    var raised := if numNodes < b.minReplication then b.minReplication else numNodes;
    if raised > b.maxReplication then b.maxReplication else raised
  }

  lemma FactorInBounds(numNodes: int, b: Bounds)
    ensures Factor(numNodes, b) <= b.maxReplication
    ensures b.minReplication <= b.maxReplication ==> Factor(numNodes, b) >= b.minReplication
    ensures b.minReplication <= numNodes <= b.maxReplication ==> Factor(numNodes, b) == numNodes
  {
  }

  /** `version` is finding out the Ceph version, `device` the commands for the device health pool. */
  datatype PassFaults = PassFaults(version: bool, block: Faults, filesystem: Faults, objectStore: Faults, device: bool)

  /** The device health pool has no resource of its own: it is set from Rook 1.4 on, on a full pass or when
      another pool was. */
  predicate DeviceDue(rook14: bool, full: bool, block: Report, fs: Report, store: Report) {
    rook14 && (full || block.updated || fs.updated || store.updated)
  }

  /** One pass over the pools. Nothing that fails stops the others, and any failure is reported at the end. */
  method AdjustPoolReplicationLevels(rook: Rook, rook14: bool, numNodes: int, b: Bounds, full: bool, f: PassFaults)
    returns (block: Report, fs: Report, store: Report, device: bool, ok: bool)
    modifies rook
    ensures rook.cluster == old(rook.cluster)
    ensures BlockOutcome(old(rook.blockPool), rook.blockPool, Factor(numNodes, b), full, f.block, block)
    ensures RaiseOutcome(old(rook.filesystem), rook.filesystem,
                         if old(rook.filesystem).Some? then FilesystemSizes(old(rook.filesystem).value) else [],
                         Factor(numNodes, b), full, f.filesystem, fs)
    ensures RaiseOutcome(old(rook.objectStore), rook.objectStore, OBJECT_STORE_SIZES, Factor(numNodes, b), full, f.objectStore, store)
    ensures device <==> DeviceDue(rook14, full, block, fs, store) && !f.device
    ensures ok <==> !f.version && block.ok && fs.ok && store.ok && (DeviceDue(rook14, full, block, fs, store) ==> !f.device)
  {
    var factor := numNodes;
    if factor < b.minReplication {
      factor := b.minReplication;
    }
    if factor > b.maxReplication {
      factor := b.maxReplication;
    }
    ok := !f.version;
    block := rook.SetBlockPoolReplication(factor, full, f.block);
    ok := ok && block.ok;
    var didUpdate := block.updated;
    fs := rook.SetFilesystemReplication(factor, full, f.filesystem);
    ok := ok && fs.ok;
    didUpdate := didUpdate || fs.updated;
    store := rook.SetObjectStoreReplication(factor, full, f.objectStore);
    ok := ok && store.ok;
    didUpdate := didUpdate || store.updated;
    device := false;
    if rook14 && (full || didUpdate) {
      device := !f.device;
      ok := ok && device;
    }
  }

  // ---------- a ratchet of numbers ----------

  /** The target of one pass and whether the pass reported success. */
  datatype Target = Target(level: int, ok: bool)

  /** A pass raises the value to its target or leaves it; a successful pass raises it. */
  ghost predicate RatchetStep(v: int, w: int, t: Target) {
    (w == v || w == Max(v, t.level)) && (t.ok ==> w == Max(v, t.level))
  }

  ghost predicate RatchetRun(values: seq<int>, targets: seq<Target>) {
    && |values| == |targets| + 1
    && forall i :: 0 <= i < |targets| ==> RatchetStep(values[i], values[i + 1], targets[i])
  }

  /** The last value is at least the first and at least every target of a successful pass, and it is the first
      value or one of the targets: the largest of those that took effect. */
  lemma {:induction false} RatchetIsMaximum(values: seq<int>, targets: seq<Target>)
    requires RatchetRun(values, targets)
    ensures var last := values[|targets|];
            && last >= values[0]
            && (forall t :: t in targets && t.ok ==> last >= t.level)
            && (last == values[0] || exists t :: t in targets && t.level == last)
  {
    if targets != [] {
      var n := |targets| - 1;
      assert RatchetRun(values[..n + 1], targets[..n]) by {
        forall i | 0 <= i < n ensures RatchetStep(values[..n + 1][i], values[..n + 1][i + 1], targets[..n][i]) {
          assert RatchetStep(values[i], values[i + 1], targets[i]);
        }
      }
      RatchetIsMaximum(values[..n + 1], targets[..n]);
      assert RatchetStep(values[n], values[n + 1], targets[n]);
      assert targets == targets[..n] + [targets[n]];
      assert targets[n] in targets;
    }
  }

  // ---------- pools ----------

  /** One pass over a resource whose listed sizes are raised. */
  datatype Pass = Pass(level: int, full: bool, faults: Faults, report: Report)

  /** The states of one resource over some passes, with the same pools throughout. */
  ghost predicate PoolRun(docs: seq<Json>, paths: seq<Pointer>, passes: seq<Pass>) {
    && |docs| == |passes| + 1
    && forall i :: 0 <= i < |passes| ==>
         RaiseOutcome(Some(docs[i]), Some(docs[i + 1]), paths, passes[i].level, passes[i].full, passes[i].faults, passes[i].report)
  }

  function TargetsOf(passes: seq<Pass>): seq<Target> {
    seq(|passes|, i requires 0 <= i < |passes| => Target(passes[i].level, passes[i].report.ok))
  }

  function SizesOver(docs: seq<Json>, p: Pointer): seq<int> {
    seq(|docs|, i requires 0 <= i < |docs| => Size(docs[i], p))
  }

  lemma RaiseIsRatchetStep(before: Json, after: Json, paths: seq<Pointer>, p: Pointer, pass: Pass)
    requires p in paths
    requires RaiseOutcome(Some(before), Some(after), paths, pass.level, pass.full, pass.faults, pass.report)
    ensures RatchetStep(Size(before, p), Size(after, p), Target(pass.level, pass.report.ok))
  {
  }

  /** Every listed pool of a filesystem or an object store ends at the largest of its first size and the
      levels of the passes that took effect, whatever fails in between. */
  lemma PoolRatchet(docs: seq<Json>, paths: seq<Pointer>, passes: seq<Pass>, p: Pointer)
    requires PoolRun(docs, paths, passes) && p in paths
    ensures var first, last := Size(docs[0], p), Size(docs[|passes|], p);
            && last >= first
            && (forall pass :: pass in passes && pass.report.ok ==> last >= pass.level)
            && (last == first || exists pass :: pass in passes && pass.level == last)
  {
    var values, targets := SizesOver(docs, p), TargetsOf(passes);
    forall i | 0 <= i < |passes| ensures RatchetStep(values[i], values[i + 1], targets[i]) {
      RaiseIsRatchetStep(docs[i], docs[i + 1], paths, p, passes[i]);
    }
    RatchetIsMaximum(values, targets);
    forall pass | pass in passes && pass.report.ok ensures values[|passes|] >= pass.level {
      var i :| 0 <= i < |passes| && passes[i] == pass;
      assert targets[i] in targets;
    }
    if values[|passes|] != values[0] {
      var t :| t in targets && t.level == values[|passes|];
      var i :| 0 <= i < |targets| && targets[i] == t;
      assert passes[i] in passes;
    }
  }

  /** With levels taken from node counts no pool grows beyond the configured maximum. */
  lemma PoolsStayWithinMaximum(docs: seq<Json>, paths: seq<Pointer>, passes: seq<Pass>, counts: seq<int>, b: Bounds, p: Pointer)
    requires PoolRun(docs, paths, passes) && p in paths && |counts| == |passes|
    requires forall i :: 0 <= i < |passes| ==> passes[i].level == Factor(counts[i], b)
    ensures Size(docs[|passes|], p) <= Max(Size(docs[0], p), b.maxReplication)
  {
    PoolRatchet(docs, paths, passes, p);
    if pass :| pass in passes && pass.level == Size(docs[|passes|], p) {
      var i :| 0 <= i < |passes| && passes[i] == pass;
      FactorInBounds(counts[i], b);
    }
  }

  // ---------- mon and mgr counts ----------

  datatype CountPass = CountPass(target: int, faults: Faults, ok: bool)

  ghost predicate CountRun(docs: seq<Json>, path: Pointer, passes: seq<CountPass>) {
    && |docs| == |passes| + 1
    && forall i :: 0 <= i < |passes| ==>
         CountOutcome(Some(docs[i]), Some(docs[i + 1]), path, passes[i].target, passes[i].faults, passes[i].ok)
  }

  lemma CountIsRatchetStep(before: Json, after: Json, path: Pointer, pass: CountPass)
    requires CountOutcome(Some(before), Some(after), path, pass.target, pass.faults, pass.ok)
    ensures RatchetStep(Size(before, path), Size(after, path), Target(pass.target, pass.ok))
  {
    assert path in [path];
  }

  /** Daemon counts ratchet in the same way. */
  lemma CountRatchet(docs: seq<Json>, path: Pointer, passes: seq<CountPass>)
    requires CountRun(docs, path, passes)
    ensures var first, last := Size(docs[0], path), Size(docs[|passes|], path);
            && last >= first
            && (forall pass :: pass in passes && pass.ok ==> last >= pass.target)
            && (last == first || exists pass :: pass in passes && pass.target == last)
  {
    var values := SizesOver(docs, path);
    var targets := seq(|passes|, i requires 0 <= i < |passes| => Target(passes[i].target, passes[i].ok));
    forall i | 0 <= i < |passes| ensures RatchetStep(values[i], values[i + 1], targets[i]) {
      CountIsRatchetStep(docs[i], docs[i + 1], path, passes[i]);
    }
    RatchetIsMaximum(values, targets);
    forall pass | pass in passes && pass.ok ensures values[|passes|] >= pass.target {
      var i :| 0 <= i < |passes| && passes[i] == pass;
      assert targets[i] in targets;
    }
    if values[|passes|] != values[0] {
      var t :| t in targets && t.level == values[|passes|];
      var i :| 0 <= i < |targets| && targets[i] == t;
      assert passes[i] in passes;
    }
  }

  // ---------- the block pool ----------

  ghost predicate BlockRun(docs: seq<Json>, passes: seq<Pass>) {
    && |docs| == |passes| + 1
    && forall i :: 0 <= i < |passes| ==>
         BlockOutcome(Some(docs[i]), Some(docs[i + 1]), passes[i].level, passes[i].full, passes[i].faults, passes[i].report)
  }

  /** The block pool comes down only on a full pass, and then to exactly the level. A successful full pass
      always ends at the level. */
  lemma BlockPoolDecreasesOnlyWhenFull(before: Json, after: Json, pass: Pass)
    requires pass.level >= 0
    requires BlockOutcome(Some(before), Some(after), pass.level, pass.full, pass.faults, pass.report)
    ensures Size(after, BLOCK_SIZE) < Size(before, BLOCK_SIZE) ==> pass.full && Size(after, BLOCK_SIZE) == pass.level
    ensures pass.full && pass.report.ok ==> Size(after, BLOCK_SIZE) == pass.level
  {
  }

  /** From a successful full pass on, until the next full one, the block pool is the largest level that took
      effect: the ratchet restarts at each full pass. */
  lemma BlockPoolRatchetsBetweenFullPasses(docs: seq<Json>, passes: seq<Pass>)
    requires BlockRun(docs, passes) && passes != [] && passes[0].full && passes[0].report.ok
    requires forall i :: 0 <= i < |passes| ==> passes[i].level >= 0 && (passes[i].full <==> i == 0)
    ensures var last := Size(docs[|passes|], BLOCK_SIZE);
            && (forall pass :: pass in passes && pass.report.ok ==> last >= pass.level)
            && (exists pass :: pass in passes && pass.level == last)
  {
    var values, targets := SizesOver(docs, BLOCK_SIZE)[1..], TargetsOf(passes)[1..];
    assert BlockOutcome(Some(docs[0]), Some(docs[0 + 1]), passes[0].level, true, passes[0].faults, passes[0].report);
    forall i | 0 <= i < |targets| ensures RatchetStep(values[i], values[i + 1], targets[i]) {
      assert BlockOutcome(Some(docs[i + 1]), Some(docs[i + 1 + 1]), passes[i + 1].level, passes[i + 1].full,
                          passes[i + 1].faults, passes[i + 1].report);
    }
    RatchetIsMaximum(values, targets);
    forall pass | pass in passes && pass.report.ok ensures values[|targets|] >= pass.level {
      var i :| 0 <= i < |passes| && passes[i] == pass;
      if i > 0 {
        assert targets[i - 1] in targets;
      }
    }
    if values[|targets|] == values[0] {
      assert passes[0] in passes;
    } else {
      var t :| t in targets && t.level == values[|targets|];
      var i :| 0 <= i < |targets| && targets[i] == t;
      assert passes[i + 1] in passes;
    }
  }
}
