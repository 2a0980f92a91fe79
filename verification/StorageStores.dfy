/**
 What becomes of the consumers' data in a storage migration. Each bucket belongs to one consumer; a consumer
 should find, where it looks, exactly what it has stored.
 */
module StorageStores {
  import opened Prelude
  import opened ObjectSync
  import opened Services
  import opened StorageMachine
  import Clients = MinioMigration

  /** Which consumer a bucket belongs to. */
  type Owner = string -> Consumer

  function BucketOf(op: Clients.Op): string {
    match op
    case PutObject(b, _, _) => b
    case RemoveObject(b, _) => b
    case MakeBucket(b) => b
    case RemoveBucket(b) => b
  }

  /** Consumers write to their own buckets only. */
  predicate Proper(a: Action, owner: Owner) {
    a.Write? ==> owner(BucketOf(a.op)) == a.consumer
  }

  function At(store: Store, b: string): Option<Bucket> {
    if b in store then Some(store[b]) else None
  }

  /** Where the consumer of a bucket looks for it: in Rook, or in the pods that the MinIO service selected last. */
  function Home(c: Cluster, owner: Owner, b: string): Store {
    if owner(b) in c.onRook then c.rook else StoreOf(c.minio, c.minio.used)
  }

  /** Every consumer finds exactly what was accepted from it. */
  ghost predicate Faithful(s: State, owner: Owner) {
    forall b :: At(s.accepted, b) == At(Home(s.cluster, owner, b), b)
  }

  predicate AllProper(schedule: seq<Action>, owner: Owner) {
    forall k :: 0 <= k < |schedule| ==> Proper(schedule[k], owner)
  }

  ghost predicate ProperlyLeads(owner: Owner, s: State, t: State) {
    exists schedule :: Leads(s, schedule, t) && AllProper(schedule, owner)
  }

  lemma ProperlyThen(owner: Owner, s: State, m: State, a: Action)
    requires ProperlyLeads(owner, s, m) && Enabled(m, a) && Proper(a, owner)
    ensures ProperlyLeads(owner, s, Next(m, a))
  {
    var schedule :| Leads(s, schedule, m) && AllProper(schedule, owner);
    LeadsThen(s, schedule, m, a);
    AllProperThen(schedule, a, owner);
  }

  lemma AllProperThen(schedule: seq<Action>, a: Action, owner: Owner)
    requires AllProper(schedule, owner) && Proper(a, owner)
    ensures AllProper(schedule + [a], owner)
  {
  }

  // ---------- single buckets ----------

  function ApplyTo(bucket: Option<Bucket>, op: Clients.Op): Option<Bucket> {
    match op
    case PutObject(_, k, o) => if bucket.Some? then Some(bucket.value[k := o]) else None
    case RemoveObject(_, k) => if bucket.Some? then Some(bucket.value - {k}) else None
    case MakeBucket(_) => if bucket.Some? then bucket else Some(map[])
    case RemoveBucket(_) => None
  }

  lemma ApplyAt(store: Store, op: Clients.Op, b: string)
    ensures At(Clients.Apply(store, op), b) == if b == BucketOf(op) then ApplyTo(At(store, b), op) else At(store, b)
  {
  }

  lemma OverlayAt(src: Store, dst: Store, b: string)
    ensures At(Overlay(src, dst), b) == if b in src || b in dst then Some(In(dst, b) + In(src, b)) else None
  {
  }

  /** `store` holds all of the bucket `b` of `part`, unchanged. */
  predicate HoldsBucket(store: Store, part: Store, b: string) {
    b in part ==> b in store && forall k :: k in part[b] ==> k in store[b] && store[b][k] == part[b][k]
  }

  lemma OverlayKeepsIff(src: Store, dst: Store, b: string)
    ensures At(Overlay(src, dst), b) == At(dst, b) <==> HoldsBucket(dst, src, b)
  {
    if b in src && b in dst {
      var all := dst[b] + src[b];
      if HoldsBucket(dst, src, b) {
        assert all == dst[b];
      } else if all == dst[b] {
        assert forall k :: k in src[b] ==> k in all && all[k] == src[b][k];
      }
    } else if b in dst {
      assert dst[b] + In(src, b) == dst[b];
    }
  }

  /** `rest` holds nothing in the bucket `b` beyond what `all` holds there. */
  predicate NothingExtra(rest: Store, all: Store, b: string) {
    b in rest ==> b in all && rest[b].Keys <= all[b].Keys
  }

  lemma OverlayIsSourceIff(src: Store, dst: Store, b: string)
    ensures At(Overlay(src, dst), b) == At(src, b) <==> NothingExtra(dst, src, b)
  {
    if b in src && b in dst {
      var all := dst[b] + src[b];
      assert all.Keys == dst[b].Keys + src[b].Keys;
      if NothingExtra(dst, src, b) {
        assert all == src[b];
      }
    } else if b in src {
      assert In(dst, b) + src[b] == src[b];
    }
  }

  lemma PartialAt(src: Store, before: Store, mid: Store, b: string)
    requires Partial(src, before, mid)
    ensures b !in src ==> At(mid, b) == At(before, b)
    ensures NothingExtra(before, src, b) ==> NothingExtra(mid, src, b)
  {
    if b in mid {
      assert PartialBucket(In(src, b), In(before, b), mid[b]);
      if b !in src {
        assert b in before && mid[b] == before[b];
      }
    }
  }

  // ---------- which steps keep accepted writes ----------

  predicate HasItem(store: Store, src: Store, item: Item) {
    match item
    case NewBucket(b) => b in store
    case OneObject(b, k) => b in src && k in src[b] && b in store && k in store[b] && store[b][k] == src[b][k]
  }

  lemma CopyItemIdleIff(src: Store, rook: Store, item: Item)
    requires CanCopy(src, rook, item)
    ensures forall b :: b != item.bucket ==> At(CopyItem(src, rook, item), b) == At(rook, b)
    ensures At(CopyItem(src, rook, item), item.bucket) == At(rook, item.bucket) <==> HasItem(rook, src, item)
  {
    if item.OneObject? && HasItem(rook, src, item) {
      assert rook[item.bucket][item.key := src[item.bucket][item.key]] == rook[item.bucket];
    }
  }

  /** One call of a copy keeps the accepted writes if and only if the bucket belongs to a consumer that is still
      on MinIO, or Rook has the very object already. */
  lemma CopyKeepsAcceptedIff(s: State, i: nat, item: Item, owner: Owner)
    requires Faithful(s, owner) && Enabled(s, Copy(i, item))
    ensures var src := StoreOf(s.cluster.minio, s.migrations[i].place.source);
            Faithful(Next(s, Copy(i, item)), owner) <==> owner(item.bucket) !in s.cluster.onRook || HasItem(s.cluster.rook, src, item)
  {
    var t, src := Next(s, Copy(i, item)), StoreOf(s.cluster.minio, s.migrations[i].place.source);
    CopyItemIdleIff(src, s.cluster.rook, item);
    assert At(t.accepted, item.bucket) == At(Home(s.cluster, owner, item.bucket), item.bucket);
    forall b | b != item.bucket ensures At(t.accepted, b) == At(Home(t.cluster, owner, b), b) {
    }
  }

  /** Rook holds the buckets of a consumer exactly as it finds them in MinIO. */
  ghost predicate CopiedFor(c: Cluster, consumer: Consumer, owner: Owner) {
    forall b :: owner(b) == consumer ==> At(c.rook, b) == At(StoreOf(c.minio, c.minio.used), b)
  }

  /** Switching a consumer keeps the accepted writes if and only if it is on Rook already or Rook holds exactly
      its buckets as it finds them in MinIO. */
  lemma SwitchKeepsAcceptedIff(s: State, i: nat, owner: Owner)
    requires Faithful(s, owner) && i < |s.migrations| && s.migrations[i].place.Switching?
    ensures var consumer := ConsumerAt(s.migrations[i].place.done);
            Faithful(Worked(s, i, Good), owner) <==> consumer in s.cluster.onRook || CopiedFor(s.cluster, consumer, owner)
  {
    var t, consumer := Worked(s, i, Good), ConsumerAt(s.migrations[i].place.done);
    if consumer in s.cluster.onRook {
      assert t.cluster.onRook == s.cluster.onRook;
    }
    forall b ensures owner(b) != consumer ==> At(t.accepted, b) == At(Home(t.cluster, owner, b), b) {
    }
    forall b ensures owner(b) == consumer && consumer !in s.cluster.onRook
                     ==> (At(t.accepted, b) == At(Home(t.cluster, owner, b), b) <==> At(s.cluster.rook, b) == At(StoreOf(s.cluster.minio, s.cluster.minio.used), b))
    {
    }
  }

  /** The stores agree on the buckets of the consumers that are still on MinIO. */
  ghost predicate Agree(c: Cluster, x: Store, y: Store, owner: Owner) {
    forall b :: owner(b) !in c.onRook ==> At(x, b) == At(y, b)
  }

  /** A call of a managing reconcile keeps the accepted writes if and only if the store its service selects from
      then on, or the one it writes to, is for the consumers on MinIO what they used before. */
  lemma ManageKeepsAcceptedIff(s: State, r: nat, step: HaStep, owner: Owner)
    requires Faithful(s, owner) && Enabled(s, Manage(r, step))
    ensures var m, n := s.cluster.minio, Managed(s.cluster.minio, step);
            Faithful(Next(s, Manage(r, step)), owner) <==> Agree(s.cluster, StoreOf(n, n.used), StoreOf(m, m.used), owner)
  {
    var t, m, n := Next(s, Manage(r, step)), s.cluster.minio, Managed(s.cluster.minio, step);
    forall b ensures At(t.accepted, b) == At(Home(t.cluster, owner, b), b)
                     <==> owner(b) in s.cluster.onRook || At(StoreOf(n, n.used), b) == At(StoreOf(m, m.used), b)
    {
    }
  }

  /** A write goes where its consumer looks for it. */
  lemma WriteKeepsAccepted(s: State, consumer: Consumer, op: Clients.Op, owner: Owner)
    requires Faithful(s, owner) && owner(BucketOf(op)) == consumer
    requires ServiceFits(s.cluster.minio) && (consumer in s.cluster.onRook || Writable(s.cluster.minio))
    ensures Faithful(Written(s, consumer, op), owner)
  {
    var t := Written(s, consumer, op);
    forall b ensures At(t.accepted, b) == At(Home(t.cluster, owner, b), b) {
      ApplyAt(s.accepted, op, b);
      ApplyAt(s.cluster.rook, op, b);
      ApplyAt(s.cluster.minio.single, op, b);
      ApplyAt(s.cluster.minio.ha, op, b);
    }
  }

  /** What a step must not do. */
  ghost predicate Harmless(s: State, a: Action, owner: Owner)
    requires Enabled(s, a)
  {
    var c := s.cluster;
    match a
    case Copy(i, item) =>
      owner(item.bucket) !in c.onRook || HasItem(c.rook, StoreOf(c.minio, s.migrations[i].place.source), item)
    case Work(i, Good) =>
      (match s.migrations[i].place
       case Switching(done) => ConsumerAt(done) in c.onRook || CopiedFor(c, ConsumerAt(done), owner)
       case _ => true)
    case Manage(r, step) => Agree(c, StoreOf(Managed(c.minio, step), Managed(c.minio, step).used), StoreOf(c.minio, c.minio.used), owner)
    case _ => true
  }

  /** Every other step leaves the objects where they are, or writes where the consumer looks. */
  lemma OthersKeepAccepted(s: State, a: Action, owner: Owner)
    requires Faithful(s, owner) && ServiceFits(s.cluster.minio) && Enabled(s, a) && Proper(a, owner)
    requires !a.Copy? && !a.Manage? && !(a.Work? && a.outcome == Good && s.migrations[a.i].place.Switching?)
    ensures Faithful(Next(s, a), owner)
  {
    if a.Write? {
      WriteKeepsAccepted(s, a.consumer, a.op, owner);
    } else {
      SameObjects(s, a);
    }
  }

  lemma SameObjects(s: State, a: Action)
    requires Enabled(s, a) && !a.Write?
    requires !a.Copy? && !a.Manage? && !(a.Work? && a.outcome == Good && s.migrations[a.i].place.Switching?)
    ensures var t := Next(s, a);
            && t.cluster.rook == s.cluster.rook && t.cluster.onRook == s.cluster.onRook && t.accepted == s.accepted
            && t.cluster.minio.used == s.cluster.minio.used && t.cluster.minio.single == s.cluster.minio.single
            && t.cluster.minio.ha == s.cluster.minio.ha
  {
    if a.Work? {
      WorkMovesNothing(s.migrations[a.i].place, s.cluster);
    } else {
      OthersMoveNothing(s, a);
    }
  }

  lemma WorkMovesNothing(p: Place, c: Cluster)
    ensures var d := ClusterAfter(p, c);
            && d.rook == c.rook && (!p.Switching? ==> d.onRook == c.onRook) && d.minio.used == c.minio.used
            && d.minio.single == c.minio.single && d.minio.ha == c.minio.ha
  {
  }

  lemma OthersMoveNothing(s: State, a: Action)
    requires Enabled(s, a) && !a.Write? && !a.Copy? && !a.Manage? && !a.Work?
    ensures Next(s, a).cluster == s.cluster && Next(s, a).accepted == s.accepted
  {
  }

  /** Exactly which steps of any thread keep the accepted writes. */
  lemma StepKeepsAcceptedIff(s: State, a: Action, owner: Owner)
    requires Faithful(s, owner) && ServiceFits(s.cluster.minio) && Enabled(s, a) && Proper(a, owner)
    ensures Faithful(Next(s, a), owner) <==> Harmless(s, a, owner)
  {
    match a
    case Copy(i, item) => CopyKeepsAcceptedIff(s, i, item, owner);
    case Manage(r, step) => ManageKeepsAcceptedIff(s, r, step, owner);
    case Work(i, Good) =>
      if s.migrations[i].place.Switching? {
        SwitchKeepsAcceptedIff(s, i, owner);
      } else {
        OthersKeepAccepted(s, a, owner);
      }
    case _ => OthersKeepAccepted(s, a, owner);
  }

  // ---------- whole runs ----------

  /** A store holds no bucket of a consumer on Rook, which a copy of it could revert. */
  ghost predicate NothingToRevert(c: Cluster, src: Store, owner: Owner) {
    forall b :: b in src ==> owner(b) !in c.onRook
  }

  /** The stateful set still holds every object of the old pod, for the consumers on MinIO. */
  ghost predicate NothingToRevertHa(c: Cluster, owner: Owner) {
    forall b :: owner(b) !in c.onRook ==> HoldsBucket(c.minio.ha, c.minio.single, b)
  }

  /** What has to hold when a copy begins, when a consumer is switched, and when the service is: the moments at
      which it can be looked up. */
  ghost predicate Cautious(s: State, a: Action, owner: Owner)
    requires Enabled(s, a)
  {
    var c := s.cluster;
    match a
    case Work(i, Good) =>
      (match s.migrations[i].place
       case Frozen(source) => NothingToRevert(c, StoreOf(c.minio, source), owner)
       case Switching(done) => ConsumerAt(done) in c.onRook || CopiedFor(c, ConsumerAt(done), owner)
       case _ => true)
    case Manage(_, TurnOff) => c.minio.used == HaPods ==> NothingToRevertHa(c, owner)
    case Manage(_, RepairService) => c.minio.statefulSet ==> Agree(c, c.minio.ha, StoreOf(c.minio, c.minio.used), owner)
    case Manage(_, TurnOn) => c.minio.statefulSet ==> Agree(c, c.minio.ha, StoreOf(c.minio, c.minio.used), owner)
    case _ => true
  }

  /** The copies under way do no harm to whatever is written meanwhile. */
  ghost predicate CopiesClean(s: State, owner: Owner) {
    && (HolderPlace(s).Copying? ==> forall item :: item in HolderPlace(s).todo ==> owner(item.bucket) !in s.cluster.onRook)
    && (SomeSyncing(s) && s.cluster.minio.used == HaPods ==> NothingToRevertHa(s.cluster, owner))
  }

  predicate SomeSyncing(s: State) {
    exists r :: 0 <= r < |s.reconciles| && s.reconciles[r].Managing? && s.reconciles[r].stage == Syncing
  }

  lemma PartialIdle(src: Store, before: Store, mid: Store, b: string)
    requires Partial(src, before, mid) && HoldsBucket(before, src, b)
    ensures At(mid, b) == At(before, b)
  {
    if b in mid {
      assert PartialBucket(In(src, b), In(before, b), mid[b]);
      if b in before {
        assert mid[b] == before[b];
      }
    }
  }

  lemma CautiousManage(s: State, r: nat, step: HaStep, owner: Owner)
    requires CopiesClean(s, owner) && Enabled(s, Manage(r, step)) && Cautious(s, Manage(r, step), owner)
    ensures Harmless(s, Manage(r, step), owner)
  {
    var c := s.cluster;
    match step
    case CopyPart(mid) =>
      assert SomeSyncing(s);
      if c.minio.used == HaPods {
        forall b | owner(b) !in c.onRook ensures At(mid, b) == At(c.minio.ha, b) {
          PartialIdle(c.minio.single, c.minio.ha, mid, b);
        }
      }
    case CopyAll =>
      assert SomeSyncing(s);
      if c.minio.used == HaPods {
        forall b | owner(b) !in c.onRook ensures At(Overlay(c.minio.single, c.minio.ha), b) == At(c.minio.ha, b) {
          OverlayKeepsIff(c.minio.single, c.minio.ha, b);
        }
      }
    case _ =>
  }

  lemma CautiousIsHarmless(s: State, a: Action, owner: Owner)
    requires Valid(s) && CopiesClean(s, owner) && Enabled(s, a) && Cautious(s, a, owner)
    ensures Harmless(s, a, owner)
  {
    match a
    case Copy(i, item) => assert s.migrations[i].place == HolderPlace(s);
    case Manage(r, step) => CautiousManage(s, r, step, owner);
    case _ =>
  }

  lemma ListingBuckets(src: Store, item: Item)
    requires item in Listing(src)
    ensures item.bucket in src
  {
  }

  /** The migration's own copy stays clean: its list is fixed when it begins. */
  lemma TodoStaysClean(s: State, a: Action, owner: Owner)
    requires Valid(s) && CopiesClean(s, owner) && Enabled(s, a) && Cautious(s, a, owner)
    ensures var t := Next(s, a);
            HolderPlace(t).Copying? ==> forall item :: item in HolderPlace(t).todo ==> owner(item.bucket) !in t.cluster.onRook
  {
    if a.Work? {
      WorkTodo(s, a.i, a.outcome, owner);
    } else if a.Pick? || a.Copy? {
      assert s.migrations[a.i].place == HolderPlace(s);
    } else {
      SamePlace(s, a);
    }
  }

  lemma SamePlace(s: State, a: Action)
    requires LocksValid(s) && Enabled(s, a) && !a.Work? && !a.Pick? && !a.Copy?
    ensures HolderPlace(Next(s, a)) == HolderPlace(s) && Next(s, a).cluster.onRook == s.cluster.onRook
  {
  }

  lemma WorkTodo(s: State, i: nat, outcome: Outcome, owner: Owner)
    requires LocksValid(s) && PausesValid(s) && Enabled(s, Work(i, outcome)) && Cautious(s, Work(i, outcome), owner)
    requires HolderPlace(s).Copying? ==> s.migrations[i].place == HolderPlace(s)
    ensures var t := Worked(s, i, outcome);
            HolderPlace(t).Copying? ==> forall item :: item in HolderPlace(t).todo ==> owner(item.bucket) !in t.cluster.onRook
  {
    WorkKeepsLocks(s, i, outcome);
    var p := s.migrations[i].place;
    if p.Frozen? && outcome == Good {
      forall item | item in Listing(StoreOf(s.cluster.minio, p.source)) ensures owner(item.bucket) !in s.cluster.onRook {
        ListingBuckets(StoreOf(s.cluster.minio, p.source), item);
      }
    }
  }

  lemma HaStaysClean(s: State, a: Action, owner: Owner)
    requires Valid(s) && CopiesClean(s, owner) && Enabled(s, a) && Cautious(s, a, owner) && Proper(a, owner)
    ensures var t := Next(s, a); SomeSyncing(t) && t.cluster.minio.used == HaPods ==> NothingToRevertHa(t.cluster, owner)
  {
    match a
    case Manage(r, step) => ManageStaysClean(s, r, step, owner);
    case Write(consumer, op) => WriteStaysClean(s, consumer, op, owner);
    case _ => OthersStayClean(s, a, owner);
  }

  lemma OthersStayClean(s: State, a: Action, owner: Owner)
    requires Valid(s) && CopiesClean(s, owner) && Enabled(s, a) && !a.Manage? && !a.Write?
    ensures var t := Next(s, a); SomeSyncing(t) && t.cluster.minio.used == HaPods ==> NothingToRevertHa(t.cluster, owner)
  {
    var c, d := s.cluster, Next(s, a).cluster;
    if SomeSyncing(Next(s, a)) {
      assert SomeSyncing(s);
      assert c.onRook <= d.onRook && d.minio.ha == c.minio.ha && d.minio.single == c.minio.single && d.minio.used == c.minio.used;
    }
  }

  lemma WriteStaysClean(s: State, consumer: Consumer, op: Clients.Op, owner: Owner)
    requires Valid(s) && CopiesClean(s, owner) && Enabled(s, Write(consumer, op))
    ensures var t := Written(s, consumer, op); SomeSyncing(t) && t.cluster.minio.used == HaPods ==> NothingToRevertHa(t.cluster, owner)
  {
    var t := Written(s, consumer, op);
    if SomeSyncing(t) {
      assert SomeSyncing(s);
      assert s.cluster.minio.service == Nowhere;
    }
  }

  lemma ManageStaysClean(s: State, r: nat, step: HaStep, owner: Owner)
    requires Valid(s) && CopiesClean(s, owner) && Enabled(s, Manage(r, step)) && Cautious(s, Manage(r, step), owner)
    ensures var t := Next(s, Manage(r, step)); SomeSyncing(t) && t.cluster.minio.used == HaPods ==> NothingToRevertHa(t.cluster, owner)
  {
    var c, t := s.cluster, Next(s, Manage(r, step));
    if SomeSyncing(t) && t.cluster.minio.used == HaPods {
      assert step.TurnOff? || step.CopyPart?;
      if step.CopyPart? {
        assert SomeSyncing(s);
        forall b | owner(b) !in c.onRook ensures HoldsBucket(step.mid, c.minio.single, b) {
          PartialIdle(c.minio.single, c.minio.ha, step.mid, b);
        }
      }
    }
  }

  ghost predicate CautiouslyLeads(owner: Owner, s: State, schedule: seq<Action>, t: State) {
    if schedule == [] then s == t
    else
      var front, last := schedule[..|schedule| - 1], schedule[|schedule| - 1];
      exists m :: CautiouslyLeads(owner, s, front, m) && Enabled(m, last) && Proper(last, owner) && Cautious(m, last, owner) && t == Next(m, last)
  }

  /** Over any schedule of migrations that fail anywhere, reconciles that move MinIO itself, and writes, every
      consumer finds exactly what was accepted from it, if at the beginning of each copy there is nothing in its
      source that it could revert, and at each switch of a consumer or of the service the store switched to is
      what the consumers used before. */
  lemma {:induction false} RunsKeepAccepted(owner: Owner, s: State, schedule: seq<Action>, t: State)
    requires CautiouslyLeads(owner, s, schedule, t) && Valid(s) && Faithful(s, owner) && CopiesClean(s, owner)
    ensures Valid(t) && Faithful(t, owner) && CopiesClean(t, owner)
  {
    if schedule != [] {
      var front, last := schedule[..|schedule| - 1], schedule[|schedule| - 1];
      var m :| CautiouslyLeads(owner, s, front, m) && Enabled(m, last) && Proper(last, owner) && Cautious(m, last, owner) && t == Next(m, last);
      RunsKeepAccepted(owner, s, front, m);
      CautiousStep(m, last, owner);
    }
  }

  lemma CautiousStep(s: State, a: Action, owner: Owner)
    requires Valid(s) && Faithful(s, owner) && CopiesClean(s, owner) && Enabled(s, a) && Proper(a, owner) && Cautious(s, a, owner)
    ensures Valid(Next(s, a)) && Faithful(Next(s, a), owner) && CopiesClean(Next(s, a), owner)
  {
    StepKeepsValid(s, a);
    CautiousIsHarmless(s, a, owner);
    StepKeepsAcceptedIff(s, a, owner);
    TodoStaysClean(s, a, owner);
    HaStaysClean(s, a, owner);
  }

  /** While accepted writes are where their consumers look, no migration deletes anything of MinIO before all of
      them are in Rook. */
  lemma DeletesOnlyWhatRookHas(s: State, a: Action, owner: Owner)
    requires Reachable(s) && Faithful(s, owner) && Enabled(s, a) && a.Work?
    requires Deletes(s.cluster.minio, Next(s, a).cluster.minio)
    ensures forall b :: At(s.cluster.rook, b) == At(s.accepted, b)
  {
    ReachableValid(s);
    assert s.migrations[a.i].place == HolderPlace(s);
    assert s.cluster.onRook == EVERYONE;
    forall b ensures At(s.cluster.rook, b) == At(s.accepted, b) {
      assert owner(b) in EVERYONE by {
        assert owner(b) == Registry || owner(b) == Velero || owner(b) == Kotsadm;
      }
    }
  }
}
