/**
 Ceph replication (pkg/cluster/rook_ceph.go, pkg/ekcoops/operator.go): which JSON patches a pass generates
 for the custom resources, and what they make of the pool sizes and daemon counts.
 */
module CephReplication {
  import opened Prelude
  import opened JsonPatch

  const MAX_MON_COUNT := 3
  const MIN_MON_COUNT := 1
  const MAX_MGR_COUNT := 2
  const MIN_MGR_COUNT := 1

  // ---------- locations ----------

  const DATA_POOLS: Pointer := [Key("spec"), Key("dataPools")]
  const SIZE_TAIL: Pointer := [Key("replicated"), Key("size")]
  const METADATA_SIZE: Pointer := [Key("spec"), Key("metadataPool")] + SIZE_TAIL
  const DATA_POOL_SIZE: Pointer := [Key("spec"), Key("dataPool")] + SIZE_TAIL
  const BLOCK_SIZE: Pointer := [Key("spec")] + SIZE_TAIL
  const MON_COUNT: Pointer := [Key("spec"), Key("mon"), Key("count")]
  const MGR_COUNT: Pointer := [Key("spec"), Key("mgr"), Key("count")]

  function DataSizeAt(i: nat): Pointer {
    DATA_POOLS + [Index(i)] + SIZE_TAIL
  }

  function DataSizes(n: nat): seq<Pointer> {
    seq(n, i requires 0 <= i < n => DataSizeAt(i))
  }

  /** The sizes a filesystem patch may raise, in the order the code visits them. */
  function FilesystemSizes(doc: Json): seq<Pointer> {
    DataSizes(Length(doc, DATA_POOLS)) + [METADATA_SIZE]
  }

  const OBJECT_STORE_SIZES: seq<Pointer> := [DATA_POOL_SIZE, METADATA_SIZE]

  /** The locations as the patches spell them. */
  lemma LocationsSpelledOut()
    ensures forall i: nat :: DataSizeAt(i) == [Key("spec"), Key("dataPools"), Index(i), Key("replicated"), Key("size")]
    ensures METADATA_SIZE == [Key("spec"), Key("metadataPool"), Key("replicated"), Key("size")]
    ensures DATA_POOL_SIZE == [Key("spec"), Key("dataPool"), Key("replicated"), Key("size")]
    ensures BLOCK_SIZE == [Key("spec"), Key("replicated"), Key("size")]
    ensures MON_COUNT == [Key("spec"), Key("mon"), Key("count")] && MGR_COUNT == [Key("spec"), Key("mgr"), Key("count")]
  {
  }

  // ---------- numbers ----------

  /** A number the typed client decodes: missing means 0. */
  function Size(doc: Json, path: Pointer): int {
    match Lookup(doc, path)
    case Some(Num(n)) => n
    case _ => 0
  }

  /** The conversion of a Go int to uint. */
  function ToUint(level: int): int {
    if level < 0 then level + 0x1_0000_0000_0000_0000 else level
  }

  /** The typed client reads the resource: the sizes present are non-negative numbers. */
  predicate Decodes(doc: Json, paths: seq<Pointer>) {
    forall p :: p in paths ==> Lookup(doc, p).Some? ==> Lookup(doc, p).value.Num? && Lookup(doc, p).value.n >= 0
  }

  predicate SpelledOut(doc: Json, path: Pointer) {
    Lookup(doc, path).Some? && Lookup(doc, path).value.Num? && Lookup(doc, path).value.n >= 0
  }

  // ---------- raising ----------

  /** A patch that raises to `level` every listed size below it. */
  function Raises(doc: Json, paths: seq<Pointer>, level: int): seq<Operation> {
    if paths == [] then []
    else
      var front := Raises(doc, paths[..|paths| - 1], level);
      var p := paths[|paths| - 1];
      if Size(doc, p) < level then front + [Replace(p, Num(ToUint(level)))] else front
  }

  /** Every size below the level is spelled out in the document, so that it can be replaced. */
  predicate Raisable(doc: Json, paths: seq<Pointer>, level: int) {
    forall p :: p in paths && Size(doc, p) < level ==> Lookup(doc, p).Some?
  }

  /** `after` is `before` with the listed sizes at least `level`, and nothing else different. */
  ghost predicate Raised(before: Json, after: Json, paths: seq<Pointer>, level: int) {
    && (forall p :: p in paths ==> Size(after, p) == Max(Size(before, p), level))
    && (forall q :: (forall p :: p in paths && Size(before, p) < level ==> Apart(p, q)) ==> Lookup(after, q) == Lookup(before, q))
  }

  lemma {:induction false} RaisesMembers(doc: Json, paths: seq<Pointer>, level: int)
    ensures forall o :: o in Raises(doc, paths, level) <==>
              o.path in paths && Size(doc, o.path) < level && o.value == Num(ToUint(level))
    ensures PairwiseApart(paths) ==> PairwiseApart(Paths(Raises(doc, paths, level)))
  {
    if paths != [] {
      var front, last := paths[..|paths| - 1], paths[|paths| - 1];
      assert paths == front + [last];
      RaisesMembers(doc, front, level);
      if PairwiseApart(paths) {
        var ops := Raises(doc, front, level);
        assert PairwiseApart(front) by {
          forall i, j | 0 <= i < j < |front| ensures Apart(front[i], front[j]) {
            assert Apart(paths[i], paths[j]);
          }
        }
        forall k | 0 <= k < |ops| ensures Apart(Paths(ops)[k], last) {
          assert ops[k] in ops;
          var i :| 0 <= i < |front| && front[i] == ops[k].path;
          assert Apart(paths[i], paths[|front|]);
        }
        AppendApart(ops, Replace(last, Num(ToUint(level))));
      }
    }
  }

  lemma AppendApart(ops: seq<Operation>, last: Operation)
    requires PairwiseApart(Paths(ops))
    requires forall k :: 0 <= k < |ops| ==> Apart(Paths(ops)[k], last.path)
    ensures PairwiseApart(Paths(ops + [last]))
  {
    var all := Paths(ops + [last]);
    forall i, j | 0 <= i < j < |all| ensures Apart(all[i], all[j]) {
      assert all[i] == Paths(ops)[i];
      if j < |ops| {
        assert all[j] == Paths(ops)[j];
      }
    }
  }

  /** A generated patch list applies if and only if every size below the level is there, and then makes each
      listed size the larger of its old value and the level, and changes nothing else. */
  lemma RaisesMeaning(doc: Json, paths: seq<Pointer>, level: int)
    requires PairwiseApart(paths) && Decodes(doc, paths)
    ensures Apply(doc, Raises(doc, paths, level)).Some? <==> Raisable(doc, paths, level)
    ensures Raisable(doc, paths, level) ==> Raised(doc, Apply(doc, Raises(doc, paths, level)).value, paths, level)
  {
    var ops := Raises(doc, paths, level);
    RaisesMembers(doc, paths, level);
    ApplyMeaning(doc, ops);
    forall p | p in paths && Size(doc, p) < level ensures Replace(p, Num(ToUint(level))) in ops {
      assert Replace(p, Num(ToUint(level))).path == p;
    }
    if Raisable(doc, paths, level) {
      var after := Apply(doc, ops).value;
      forall p | p in paths ensures Size(after, p) == Max(Size(doc, p), level) {
        if Size(doc, p) < level {
          assert Lookup(after, p) == Some(Num(ToUint(level)));
        } else {
          forall o | o in ops ensures Apart(o.path, p) {
            DistinctApart(paths, o.path, p);
          }
        }
      }
    }
  }

  lemma DistinctApart(paths: seq<Pointer>, p: Pointer, q: Pointer)
    requires PairwiseApart(paths) && p in paths && q in paths && p != q
    ensures Apart(p, q)
  {
    var i :| 0 <= i < |paths| && paths[i] == p;
    var j :| 0 <= j < |paths| && paths[j] == q;
    if i < j {
      assert Apart(paths[i], paths[j]);
    } else {
      assert Apart(paths[j], paths[i]);
    }
  }

  lemma {:induction false} RaisesNothingIff(doc: Json, paths: seq<Pointer>, level: int)
    ensures Raises(doc, paths, level) == [] <==> forall p :: p in paths ==> Size(doc, p) >= level
  {
    if paths != [] {
      var front, last := paths[..|paths| - 1], paths[|paths| - 1];
      assert paths == front + [last];
      RaisesNothingIff(doc, front, level);
    }
  }

  /** A second pass at the same level finds nothing to raise. */
  lemma NothingLeftToRaise(before: Json, after: Json, paths: seq<Pointer>, level: int)
    requires Raised(before, after, paths, level)
    ensures Raises(after, paths, level) == []
  {
    RaisesNothingIff(after, paths, level);
  }

  // ---------- the locations are apart ----------

  lemma FilesystemSizesApart(n: nat)
    ensures PairwiseApart(DataSizes(n) + [METADATA_SIZE])
  {
    var paths := DataSizes(n) + [METADATA_SIZE];
    forall i, j | 0 <= i < j < |paths| ensures Apart(paths[i], paths[j]) {
      assert paths[i][1] == Key("dataPools") && paths[i][2] == Index(i);
      if j < n {
        assert paths[j][2] == Index(j);
      } else {
        assert paths[j][1] == Key("metadataPool");
      }
    }
  }

  lemma ObjectStoreSizesApart()
    ensures PairwiseApart(OBJECT_STORE_SIZES)
  {
    assert DATA_POOL_SIZE[1] == Key("dataPool") && METADATA_SIZE[1] == Key("metadataPool");
  }

  lemma InsideOrApart(n: nat, p: Pointer)
    requires p in DataSizes(n) + [METADATA_SIZE]
    ensures DATA_POOLS < p || Apart(p, DATA_POOLS)
  {
    if p == METADATA_SIZE {
      assert METADATA_SIZE[1] != DATA_POOLS[1];
    } else {
      var i :| 0 <= i < n && p == DataSizes(n)[i];
      assert DataSizeAt(i)[..2] == DATA_POOLS;
    }
  }

  /** Raising sizes does not change how many data pools there are. */
  lemma FilesystemShape(doc: Json, level: int)
    requires Apply(doc, Raises(doc, FilesystemSizes(doc), level)).Some?
    ensures FilesystemSizes(Apply(doc, Raises(doc, FilesystemSizes(doc), level)).value) == FilesystemSizes(doc)
  {
    var n := Length(doc, DATA_POOLS);
    var ops := Raises(doc, FilesystemSizes(doc), level);
    RaisesMembers(doc, FilesystemSizes(doc), level);
    forall o | o in ops ensures DATA_POOLS < o.path || Apart(o.path, DATA_POOLS) {
      InsideOrApart(n, o.path);
    }
    ApplyKeepsLength(doc, ops, DATA_POOLS);
  }

  // ---------- the code ----------

  /** What a call on one resource reports: whether it updated it, and whether it succeeded. */
  datatype Report = Report(updated: bool, ok: bool)

  /** `get` fails reading the resource, `patch` fails writing it, `exec` fails a ceph command afterwards. */
  datatype Faults = Faults(get: bool, patch: bool, exec: bool)

  /** The outcome of raising the listed sizes: nothing to do; done; or failed without any change. */
  ghost predicate RaiseOutcome(before: Option<Json>, after: Option<Json>, paths: seq<Pointer>, level: int, full: bool,
                               f: Faults, r: Report)
  {
    if f.get || before == None || !Decodes(before.value, paths) then
      after == before && !r.updated && (r.ok <==> before == None && !f.get)
    else
      var doc := before.value;
      var needed := exists p :: p in paths && Size(doc, p) < level;
      if !needed && !full then after == before && r == Report(false, true)
      else if f.patch || !Raisable(doc, paths, level) then after == before && r == Report(false, false)
      else after.Some? && Raised(doc, after.value, paths, level) && r == Report(!f.exec, !f.exec)
  }

  lemma FilesystemRaise(doc: Json, level: int)
    requires Decodes(doc, FilesystemSizes(doc))
    ensures var paths := FilesystemSizes(doc);
            var patched := Apply(doc, Raises(doc, paths, level));
            && (patched.Some? <==> Raisable(doc, paths, level))
            && (patched.Some? ==> Raised(doc, patched.value, paths, level) && FilesystemSizes(patched.value) == paths)
            && (Raises(doc, paths, level) == [] <==> !exists p :: p in paths && Size(doc, p) < level)
  {
    FilesystemSizesApart(Length(doc, DATA_POOLS));
    RaisesMeaning(doc, FilesystemSizes(doc), level);
    RaisesNothingIff(doc, FilesystemSizes(doc), level);
    if Raisable(doc, FilesystemSizes(doc), level) {
      FilesystemShape(doc, level);
    }
  }

  lemma RaisesLast(doc: Json, paths: seq<Pointer>, p: Pointer, level: int)
    ensures Raises(doc, paths + [p], level)
         == Raises(doc, paths, level) + if Size(doc, p) < level then [Replace(p, Num(ToUint(level)))] else []
  {
    assert (paths + [p])[..|paths + [p]| - 1] == paths;
  }

  /** The patch list of a filesystem: its data pools in order, then the metadata pool. */
  method FilesystemPatches(doc: Json, level: int) returns (patches: seq<Operation>)
    ensures patches == Raises(doc, FilesystemSizes(doc), level)
  {
    var n := Length(doc, DATA_POOLS);
    patches := [];
    for i := 0 to n
      invariant patches == Raises(doc, DataSizes(i), level)
    {
      assert DataSizes(i + 1) == DataSizes(i) + [DataSizeAt(i)];
      RaisesLast(doc, DataSizes(i), DataSizeAt(i), level);
      if Size(doc, DataSizeAt(i)) < level {
        patches := patches + [Replace(DataSizeAt(i), Num(ToUint(level)))];
      }
    }
    RaisesLast(doc, DataSizes(n), METADATA_SIZE, level);
    if Size(doc, METADATA_SIZE) < level {
      patches := patches + [Replace(METADATA_SIZE, Num(ToUint(level)))];
    }
  }

  /** The patch list of an object store: its data pool, then the metadata pool. */
  method ObjectStorePatches(doc: Json, level: int) returns (patches: seq<Operation>)
    ensures patches == Raises(doc, OBJECT_STORE_SIZES, level)
  {
    patches := [];
    RaisesLast(doc, [], DATA_POOL_SIZE, level);
    assert [] + [DATA_POOL_SIZE] == [DATA_POOL_SIZE];
    if Size(doc, DATA_POOL_SIZE) < level {
      patches := patches + [Replace(DATA_POOL_SIZE, Num(ToUint(level)))];
    }
    RaisesLast(doc, [DATA_POOL_SIZE], METADATA_SIZE, level);
    if Size(doc, METADATA_SIZE) < level {
      patches := patches + [Replace(METADATA_SIZE, Num(ToUint(level)))];
    }
  }

  lemma ObjectStoreRaise(doc: Json, level: int)
    requires Decodes(doc, OBJECT_STORE_SIZES)
    ensures var patched := Apply(doc, Raises(doc, OBJECT_STORE_SIZES, level));
            && (patched.Some? <==> Raisable(doc, OBJECT_STORE_SIZES, level))
            && (patched.Some? ==> Raised(doc, patched.value, OBJECT_STORE_SIZES, level))
    ensures Raises(doc, OBJECT_STORE_SIZES, level) == [] <==> forall p :: p in OBJECT_STORE_SIZES ==> Size(doc, p) >= level
  {
    ObjectStoreSizesApart();
    RaisesMeaning(doc, OBJECT_STORE_SIZES, level);
    RaisesNothingIff(doc, OBJECT_STORE_SIZES, level);
  }

  /** The Rook resources; None is a resource that does not exist. */
  class Rook {
    var filesystem: Option<Json>
    var objectStore: Option<Json>
    var blockPool: Option<Json>
    var cluster: Option<Json>

    method SetFilesystemReplication(level: int, full: bool, f: Faults) returns (r: Report)
      modifies this`filesystem
      ensures RaiseOutcome(old(filesystem), filesystem, if old(filesystem).Some? then FilesystemSizes(old(filesystem).value) else [],
                           level, full, f, r)
      ensures old(filesystem).Some? && filesystem.Some? ==> FilesystemSizes(filesystem.value) == FilesystemSizes(old(filesystem).value)
      // without failures every size spelled out is at the level or above afterwards
      ensures f == Faults(false, false, false) && old(filesystem).Some? &&
              (forall p :: p in FilesystemSizes(old(filesystem).value) ==> SpelledOut(old(filesystem).value, p)) ==>
        && r.ok && filesystem.Some?
        && (full ==> r.updated)
        && forall p :: p in FilesystemSizes(old(filesystem).value) ==>
             Size(filesystem.value, p) == Max(Size(old(filesystem).value, p), level)
    {
      if f.get {
        return Report(false, false);
      }
      if filesystem == None {
        return Report(false, true);
      }
      var doc := filesystem.value;
      if !Decodes(doc, FilesystemSizes(doc)) {
        return Report(false, false);
      }
      FilesystemRaise(doc, level);
      var patches := FilesystemPatches(doc, level);
      if patches == [] && !full {
        return Report(false, true);
      }
      var patched := Apply(doc, patches);
      if f.patch || patched == None {
        return Report(false, false);
      }
      filesystem := patched;
      return Report(!f.exec, !f.exec);
    }

    method SetObjectStoreReplication(level: int, full: bool, f: Faults) returns (r: Report)
      modifies this`objectStore
      ensures RaiseOutcome(old(objectStore), objectStore, OBJECT_STORE_SIZES, level, full, f, r)
      ensures f == Faults(false, false, false) && old(objectStore).Some? &&
              SpelledOut(old(objectStore).value, DATA_POOL_SIZE) && SpelledOut(old(objectStore).value, METADATA_SIZE) ==>
        && r.ok && objectStore.Some?
        && (full ==> r.updated)
        && Size(objectStore.value, DATA_POOL_SIZE) == Max(Size(old(objectStore).value, DATA_POOL_SIZE), level)
        && Size(objectStore.value, METADATA_SIZE) == Max(Size(old(objectStore).value, METADATA_SIZE), level)
    {
      if f.get {
        return Report(false, false);
      }
      if objectStore == None {
        return Report(false, true);
      }
      var doc := objectStore.value;
      if !Decodes(doc, OBJECT_STORE_SIZES) {
        return Report(false, false);
      }
      ObjectStoreRaise(doc, level);
      var patches := ObjectStorePatches(doc, level);
      if patches == [] && !full {
        return Report(false, true);
      }
      var patched := Apply(doc, patches);
      if f.patch || patched == None {
        return Report(false, false);
      }
      objectStore := patched;
      return Report(!f.exec, !f.exec);
    }

    /** Unlike the others, a full pass sets the block pool to the level even when it is higher. */
    method SetBlockPoolReplication(level: int, full: bool, f: Faults) returns (r: Report)
      modifies this`blockPool
      ensures BlockOutcome(old(blockPool), blockPool, level, full, f, r)
      ensures f == Faults(false, false, false) && old(blockPool).Some? && SpelledOut(old(blockPool).value, BLOCK_SIZE) && level >= 0 ==>
        && r.ok && blockPool.Some?
        && (full ==> r.updated)
        && Size(blockPool.value, BLOCK_SIZE) == if full then level else Max(Size(old(blockPool).value, BLOCK_SIZE), level)
    {
      if f.get {
        return Report(false, false);
      }
      if blockPool == None {
        return Report(false, true);
      }
      var doc := blockPool.value;
      if !Decodes(doc, [BLOCK_SIZE]) {
        return Report(false, false);
      }
      if !(Size(doc, BLOCK_SIZE) < level || full) {
        return Report(false, true);
      }
      var patches := [Replace(BLOCK_SIZE, Num(ToUint(level)))];
      BlockPatch(doc, level);
      var patched := Apply(doc, patches);
      if f.patch || patched == None {
        return Report(false, false);
      }
      blockPool := patched;
      return Report(!f.exec, !f.exec);
    }

    method ReconcileMonCount(nodeCount: int, f: Faults) returns (ok: bool)
      modifies this`cluster
      ensures CountOutcome(old(cluster), cluster, MON_COUNT, MonTarget(nodeCount), f, ok)
      // three mons from three nodes on, else one, and never fewer than there were
      ensures ok ==>
        && old(cluster).Some? && cluster.Some?
        && Size(cluster.value, MON_COUNT) == Max(Size(old(cluster).value, MON_COUNT), if nodeCount >= 3 then 3 else 1)
      ensures !f.get && !f.patch && old(cluster).Some? && SpelledOut(old(cluster).value, MON_COUNT) ==> ok
    {
      var desired := if nodeCount < MAX_MON_COUNT then MIN_MON_COUNT else MAX_MON_COUNT;
      if f.get || cluster == None || !Decodes(cluster.value, [MON_COUNT]) {
        return false;
      }
      if Size(cluster.value, MON_COUNT) >= desired {
        return true;
      }
      CountPatch(cluster.value, MON_COUNT, desired);
      var patched := Apply(cluster.value, [Replace(MON_COUNT, Num(desired))]);
      if f.patch || patched == None {
        return false;
      }
      cluster := patched;
      return true;
    }

    /** `supported` says whether the Rook version is at least 1.9. */
    method ReconcileMgrCount(supported: bool, nodeCount: int, f: Faults) returns (ok: bool)
      modifies this`cluster
      ensures !supported ==> ok && cluster == old(cluster)
      ensures supported ==> CountOutcome(old(cluster), cluster, MGR_COUNT, MgrTarget(nodeCount), f, ok)
      // two mgrs from two nodes on, else one, and never fewer than there were
      ensures supported && ok ==>
        && old(cluster).Some? && cluster.Some?
        && Size(cluster.value, MGR_COUNT) == Max(Size(old(cluster).value, MGR_COUNT), if nodeCount >= 2 then 2 else 1)
      ensures supported && !f.get && !f.patch && old(cluster).Some? && SpelledOut(old(cluster).value, MGR_COUNT) ==> ok
    {
      if !supported {
        return true;
      }
      var desired := if nodeCount < MAX_MGR_COUNT then MIN_MGR_COUNT else MAX_MGR_COUNT;
      if f.get || cluster == None || !Decodes(cluster.value, [MGR_COUNT]) {
        return false;
      }
      if Size(cluster.value, MGR_COUNT) >= desired {
        return true;
      }
      CountPatch(cluster.value, MGR_COUNT, desired);
      var patched := Apply(cluster.value, [Replace(MGR_COUNT, Num(desired))]);
      if f.patch || patched == None {
        return false;
      }
      cluster := patched;
      return true;
    }
  }

  /** One mon below three nodes, three from then on; one mgr below two nodes, two from then on. */
  function MonTarget(nodeCount: int): int {
    if nodeCount < MAX_MON_COUNT then MIN_MON_COUNT else MAX_MON_COUNT
  }

  function MgrTarget(nodeCount: int): int {
    if nodeCount < MAX_MGR_COUNT then MIN_MGR_COUNT else MAX_MGR_COUNT
  }

  ghost predicate BlockOutcome(before: Option<Json>, after: Option<Json>, level: int, full: bool, f: Faults, r: Report) {
    if f.get || before == None || !Decodes(before.value, [BLOCK_SIZE]) then
      after == before && !r.updated && (r.ok <==> before == None && !f.get)
    else if Size(before.value, BLOCK_SIZE) >= level && !full then after == before && r == Report(false, true)
    else if f.patch || Lookup(before.value, BLOCK_SIZE) == None then after == before && r == Report(false, false)
    else
      && after.Some?
      && Size(after.value, BLOCK_SIZE) == ToUint(level)
      && (forall q :: Apart(BLOCK_SIZE, q) ==> Lookup(after.value, q) == Lookup(before.value, q))
      && r == Report(!f.exec, !f.exec)
  }

  ghost predicate CountOutcome(before: Option<Json>, after: Option<Json>, path: Pointer, target: int, f: Faults, ok: bool) {
    if f.get || before == None || !Decodes(before.value, [path]) then after == before && !ok
    else if Size(before.value, path) >= target then after == before && ok
    else if f.patch || Lookup(before.value, path) == None then after == before && !ok
    else ok && after.Some? && Raised(before.value, after.value, [path], target)
  }

  lemma OnePatch(doc: Json, path: Pointer, value: Json)
    ensures var after := Apply(doc, [Replace(path, value)]);
            && (after.Some? <==> Lookup(doc, path).Some?)
            && (after.Some? ==>
                  && Lookup(after.value, path) == Some(value)
                  && forall q :: Apart(path, q) ==> Lookup(after.value, q) == Lookup(doc, q))
  {
    var ops := [Replace(path, value)];
    assert Replace(path, value) in ops;
    ApplyMeaning(doc, ops);
    if Apply(doc, ops).Some? {
      forall q | Apart(path, q) ensures Lookup(Apply(doc, ops).value, q) == Lookup(doc, q) {
        assert forall o :: o in ops ==> Apart(o.path, q);
      }
    }
  }

  lemma BlockPatch(doc: Json, level: int)
    ensures var after := Apply(doc, [Replace(BLOCK_SIZE, Num(ToUint(level)))]);
            && (after.Some? <==> Lookup(doc, BLOCK_SIZE).Some?)
            && (after.Some? ==>
                  && Size(after.value, BLOCK_SIZE) == ToUint(level)
                  && forall q :: Apart(BLOCK_SIZE, q) ==> Lookup(after.value, q) == Lookup(doc, q))
  {
    OnePatch(doc, BLOCK_SIZE, Num(ToUint(level)));
  }

  lemma CountPatch(doc: Json, path: Pointer, target: int)
    requires Size(doc, path) < target
    ensures var after := Apply(doc, [Replace(path, Num(target))]);
            && (after.Some? <==> Lookup(doc, path).Some?)
            && (after.Some? ==> Raised(doc, after.value, [path], target))
  {
    OnePatch(doc, path, Num(target));
    assert path in [path];
  }
}
