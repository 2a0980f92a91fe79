/**
 When a storage migration cannot lose accepted writes: the conditions at the moment it turns the service off,
 and that they suffice under every schedule.
 */
module StorageLossless {
  import opened Prelude
  import opened Services
  import opened ObjectSync
  import opened StorageMachine
  import opened StorageStores
  import Clients = MinioMigration

  /** Migration `i` has picked the pods it will copy from and turned the service off. */
  predicate OffAt(s: State, i: nat, source: Pods) {
    i < |s.migrations| && s.migrations[i].place == Frozen(source) && s.cluster.minio.service == Nowhere
  }

  /** Whatever is scheduled next: when migration `i` comes to its first delete, every accepted write is where
      its consumer looks, which is then in Rook. */
  ghost predicate Lossless(s: State, i: nat, owner: Owner) {
    forall t :: ProperlyLeads(owner, s, t) && i < |t.migrations| && t.migrations[i].place == Redirected ==> Faithful(t, owner)
  }

  /** Some consumer still uses MinIO. */
  ghost predicate SomeOnMinio(c: Cluster, owner: Owner) {
    exists b :: owner(b) !in c.onRook
  }

  predicate MayTurnOn(r: Reconcile) {
    r.Checked? || r.Entered? || (r.Managing? && (r.stage == Found || r.stage == Syncing || r.stage == Synced))
  }

  /** A reconcile has passed its pause check and can still turn the service on for the stateful set. */
  predicate CanTurnOn(s: State) {
    s.cluster.minio.statefulSet && exists r :: 0 <= r < |s.reconciles| && MayTurnOn(s.reconciles[r])
  }

  predicate MayMove(r: Reconcile, deployment: bool) {
    (r.Managing? && r.stage == Syncing) || (deployment && (r.Checked? || r.Entered? || (r.Managing? && r.stage == Found)))
  }

  /** A reconcile has passed its pause check and can still copy the old pod's data to the stateful set. */
  predicate CanMoveToHa(s: State) {
    s.cluster.minio.statefulSet && exists r :: 0 <= r < |s.reconciles| && MayMove(s.reconciles[r], s.cluster.minio.deployment)
  }

  /** Rook overridden by the pods copied from is what the consumers on MinIO used last. */
  ghost predicate CopyYieldsUsed(c: Cluster, source: Pods, owner: Owner) {
    Agree(c, Overlay(StoreOf(c.minio, source), c.rook), StoreOf(c.minio, c.minio.used), owner)
  }

  /** Rook holds nothing of the consumers on MinIO that they have since removed or never stored. */
  ghost predicate NoLeftovers(c: Cluster, owner: Owner) {
    forall b :: owner(b) !in c.onRook ==> NothingExtra(c.rook, StoreOf(c.minio, c.minio.used), b)
  }

  /** What that means when the pods copied from are those used last, and when Rook is still without these
      buckets: then it means that both pods hold the same for these consumers. */
  lemma CopyYieldsUsedIff(c: Cluster, source: Pods, owner: Owner)
    ensures source == c.minio.used ==> (CopyYieldsUsed(c, source, owner) <==> NoLeftovers(c, owner))
    ensures (forall b :: owner(b) !in c.onRook ==> b !in c.rook)
            ==> (CopyYieldsUsed(c, source, owner) <==> Agree(c, StoreOf(c.minio, source), StoreOf(c.minio, c.minio.used), owner))
  {
    var src := StoreOf(c.minio, source);
    forall b ensures At(Overlay(src, c.rook), b) == At(src, b) <==> NothingExtra(c.rook, src, b) {
      OverlayIsSourceIff(src, c.rook, b);
    }
  }

  /** The three conditions that decide. */
  ghost predicate NoInterference(s: State, source: Pods, owner: Owner) {
    && (SomeOnMinio(s.cluster, owner) ==> !CanTurnOn(s))
    && (source == HaPods && s.cluster.minio.single != map[] ==> !CanMoveToHa(s))
  }

  ghost predicate SafeToCopy(s: State, source: Pods, owner: Owner) {
    && NoInterference(s, source, owner)
    && NothingToRevert(s.cluster, StoreOf(s.cluster.minio, source), owner)
    && CopyYieldsUsed(s.cluster, source, owner)
  }

  // ---------- the invariant ----------

  predicate BeforeDelete(p: Place) {
    p.Frozen? || p.Copying? || p.Switching? || p == Redirected
  }

  predicate Later(p: Place) {
    p == StatefulSetGone || p == DeploymentGone || p.Resuming? || p.ObjectsEnd? || InVolumes(p) || p == Leaving || p == Ended
  }

  /** What is no longer to be done is in Rook. */
  ghost predicate Progress(c: Cluster, source: Pods, todo: set<Item>) {
    forall item :: item in Listing(StoreOf(c.minio, source)) ==> item in todo || HasItem(c.rook, StoreOf(c.minio, source), item)
  }

  ghost predicate SafeCluster(p: Place, c: Cluster, owner: Owner) {
    match p
    case Frozen(source) => NothingToRevert(c, StoreOf(c.minio, source), owner) && CopyYieldsUsed(c, source, owner)
    case Copying(source, todo) =>
      && NothingToRevert(c, StoreOf(c.minio, source), owner) && CopyYieldsUsed(c, source, owner)
      && todo <= Listing(StoreOf(c.minio, source)) && Progress(c, source, todo)
    case Switching(_) => Agree(c, c.rook, StoreOf(c.minio, c.minio.used), owner)
    case _ => true
  }

  ghost predicate Quiet(s: State, p: Place, owner: Owner) {
    && (SomeOnMinio(s.cluster, owner) ==> !Writable(s.cluster.minio) && !CanTurnOn(s))
    && ((p.Frozen? || p.Copying?) && p.source == HaPods && s.cluster.minio.single != map[] ==> !CanMoveToHa(s))
  }

  ghost predicate Safe(s: State, i: nat, owner: Owner) {
    && i < |s.migrations| && BeforeDelete(s.migrations[i].place)
    && Faithful(s, owner)
    && SafeCluster(s.migrations[i].place, s.cluster, owner)
    && Quiet(s, s.migrations[i].place, owner)
  }

  // ---------- steps of the migration ----------

  lemma ItemAbsorbed(src: Store, rook: Store, item: Item, b: string)
    requires item in Listing(src) && CanCopy(src, rook, item)
    ensures At(Overlay(src, CopyItem(src, rook, item)), b) == At(Overlay(src, rook), b)
  {
    var more := CopyItem(src, rook, item);
    OverlayAt(src, rook, b);
    OverlayAt(src, more, b);
    if b == item.bucket && item.OneObject? {
      assert rook[b][item.key := src[b][item.key]] + src[b] == rook[b] + src[b];
    }
  }

  lemma ItemDone(src: Store, rook: Store, item: Item, other: Item)
    requires item in Listing(src) && CanCopy(src, rook, item)
    ensures HasItem(CopyItem(src, rook, item), src, item)
    ensures HasItem(rook, src, other) ==> HasItem(CopyItem(src, rook, item), src, other)
  {
  }

  lemma CopyIsSafe(s: State, i: nat, item: Item, owner: Owner)
    requires Safe(s, i, owner) && Enabled(s, Copy(i, item))
    ensures Safe(Next(s, Copy(i, item)), i, owner)
  {
    var c, d, p := s.cluster, Next(s, Copy(i, item)).cluster, s.migrations[i].place;
    var src := StoreOf(c.minio, p.source);
    ListingBuckets(src, item);
    CopyKeepsAcceptedIff(s, i, item, owner);
    forall b | owner(b) !in c.onRook ensures At(Overlay(src, d.rook), b) == At(StoreOf(c.minio, c.minio.used), b) {
      ItemAbsorbed(src, c.rook, item, b);
    }
    forall other | other in Listing(src) ensures other in p.todo - {item} || HasItem(d.rook, src, other) {
      ItemDone(src, c.rook, item, other);
    }
  }

  lemma AllHeld(c: Cluster, source: Pods, b: string)
    requires Progress(c, source, {})
    ensures HoldsBucket(c.rook, StoreOf(c.minio, source), b)
  {
    var src := StoreOf(c.minio, source);
    if b in src {
      assert NewBucket(b) in Listing(src);
      forall k | k in src[b] ensures k in c.rook[b] && c.rook[b][k] == src[b][k] {
        assert OneObject(b, k) in Listing(src);
      }
    }
  }

  lemma CopyEndsSafe(s: State, i: nat, owner: Owner)
    requires Safe(s, i, owner) && s.migrations[i].place.Copying? && s.migrations[i].place.todo == {}
    ensures Safe(Worked(s, i, Good), i, owner)
  {
    var c, source := s.cluster, s.migrations[i].place.source;
    forall b | owner(b) !in c.onRook ensures At(c.rook, b) == At(StoreOf(c.minio, c.minio.used), b) {
      AllHeld(c, source, b);
      OverlayKeepsIff(StoreOf(c.minio, source), c.rook, b);
    }
  }

  lemma SwitchIsSafe(s: State, i: nat, owner: Owner)
    requires Safe(s, i, owner) && s.migrations[i].place.Switching?
    ensures Safe(Worked(s, i, Good), i, owner)
  {
    SwitchKeepsAcceptedIff(s, i, owner);
    var t := Worked(s, i, Good);
    assert s.cluster.onRook <= t.cluster.onRook;
    assert Agree(t.cluster, t.cluster.rook, StoreOf(t.cluster.minio, t.cluster.minio.used), owner);
  }

  lemma WorkIsSafe(s: State, i: nat, outcome: Outcome, owner: Owner)
    requires Safe(s, i, owner) && Enabled(s, Work(i, outcome))
    ensures Later(Worked(s, i, outcome).migrations[i].place) || Safe(Worked(s, i, outcome), i, owner)
  {
    var p := s.migrations[i].place;
    if outcome == Good && p.Switching? {
      SwitchIsSafe(s, i, owner);
    } else if outcome == Good && p.Copying? {
      CopyEndsSafe(s, i, owner);
    } else if outcome == Good && p.Frozen? {
      CopyBeginsSafe(s, i, owner);
    }
  }

  lemma CopyBeginsSafe(s: State, i: nat, owner: Owner)
    requires Safe(s, i, owner) && s.migrations[i].place.Frozen?
    ensures Safe(Worked(s, i, Good), i, owner)
  {
  }

  // ---------- steps of others ----------

  lemma OtherBucketItem(src: Store, x: Store, y: Store, item: Item)
    requires HasItem(x, src, item) && At(x, item.bucket) == At(y, item.bucket)
    ensures HasItem(y, src, item)
  {
  }

  lemma WriteIsSafe(s: State, i: nat, consumer: Consumer, op: Clients.Op, owner: Owner)
    requires Safe(s, i, owner) && ServiceFits(s.cluster.minio) && Enabled(s, Write(consumer, op)) && owner(BucketOf(op)) == consumer
    ensures Safe(Written(s, consumer, op), i, owner)
  {
    WriteKeepsAccepted(s, consumer, op, owner);
    assert consumer in s.cluster.onRook;
    var c, d, p := s.cluster, Written(s, consumer, op).cluster, s.migrations[i].place;
    forall b | owner(b) !in c.onRook ensures At(d.rook, b) == At(c.rook, b) {
      ApplyAt(c.rook, op, b);
    }
    if p.Frozen? || p.Copying? {
      WriteLeavesCopy(c, d, p.source, owner);
    }
    if p.Copying? {
      var src := StoreOf(c.minio, p.source);
      forall item | item in Listing(src) && item !in p.todo ensures HasItem(d.rook, src, item) {
        ListingBuckets(src, item);
        OtherBucketItem(src, c.rook, d.rook, item);
      }
    }
  }

  lemma WriteLeavesCopy(c: Cluster, d: Cluster, source: Pods, owner: Owner)
    requires CopyYieldsUsed(c, source, owner) && d == c.(rook := d.rook)
    requires forall b :: owner(b) !in c.onRook ==> At(d.rook, b) == At(c.rook, b)
    ensures CopyYieldsUsed(d, source, owner)
  {
    var src := StoreOf(c.minio, source);
    forall b | owner(b) !in c.onRook ensures At(Overlay(src, d.rook), b) == At(Overlay(src, c.rook), b) {
      OverlayAt(src, c.rook, b);
      OverlayAt(src, d.rook, b);
      assert At(d.rook, b) == At(c.rook, b);
    }
  }

  predicate OfReconciles(a: Action) {
    a.Tick? || a.CheckPause? || a.TryLock? || a.LookUp? || a.Leave? || a.Manage?
  }

  lemma ReconcileLeaves(s: State, a: Action)
    requires s.pauses.minio && Enabled(s, a) && OfReconciles(a)
    ensures var t := Next(s, a);
            && t.migrations == s.migrations && t.accepted == s.accepted
            && t.cluster == s.cluster.(minio := t.cluster.minio) && t.cluster.minio.single == s.cluster.minio.single
            && (!CanTurnOn(s) ==> !CanTurnOn(t)) && (!CanMoveToHa(s) ==> !CanMoveToHa(t))
  {
    if a.Manage? {
      ManageLeaves(s, a.r, a.step);
    } else {
      EnteringLeaves(s, a);
    }
  }

  lemma EnteringLeaves(s: State, a: Action)
    requires s.pauses.minio && Enabled(s, a) && OfReconciles(a) && !a.Manage?
    ensures var t := Next(s, a);
            && t.cluster == s.cluster && (!CanTurnOn(s) ==> !CanTurnOn(t)) && (!CanMoveToHa(s) ==> !CanMoveToHa(t))
  {
  }

  lemma ManageLeaves(s: State, r: nat, step: HaStep)
    requires Enabled(s, Manage(r, step))
    ensures var t := Next(s, Manage(r, step)); (!CanTurnOn(s) ==> !CanTurnOn(t)) && (!CanMoveToHa(s) ==> !CanMoveToHa(t))
  {
  }

  /** Without overlap the stores and what is used stay as they are, and nobody can write. */
  lemma NoTurnOnLeaves(s: State, a: Action)
    requires Enabled(s, a) && OfReconciles(a) && !CanTurnOn(s)
    ensures var m, n := s.cluster.minio, Next(s, a).cluster.minio;
            n.ha == m.ha && n.used == m.used && (!Writable(m) ==> !Writable(n))
  {
  }

  lemma NoMoveLeaves(s: State, a: Action)
    requires Enabled(s, a) && OfReconciles(a) && (!CanMoveToHa(s) || s.cluster.minio.single == map[])
    ensures Next(s, a).cluster.minio.ha == s.cluster.minio.ha
  {
    if a.Manage? && (a.step.CopyPart? || a.step.CopyAll?) {
      assert MayMove(s.reconciles[a.r], s.cluster.minio.deployment);
      NothingOver(s.cluster.minio.ha);
      if a.step.CopyPart? {
        forall b | b in a.step.mid ensures a.step.mid[b] == s.cluster.minio.ha[b] {
          PartialAt(map[], s.cluster.minio.ha, a.step.mid, b);
        }
      }
    }
  }

  lemma ReconcileIsSafe(s: State, i: nat, a: Action, owner: Owner)
    requires Safe(s, i, owner) && s.pauses.minio && Enabled(s, a) && OfReconciles(a)
    ensures Safe(Next(s, a), i, owner)
  {
    var t, p := Next(s, a), s.migrations[i].place;
    ReconcileLeaves(s, a);
    if SomeOnMinio(s.cluster, owner) {
      NoTurnOnLeaves(s, a);
      assert t.cluster.minio.ha == s.cluster.minio.ha && t.cluster.minio.used == s.cluster.minio.used;
    } else {
      if (p.Frozen? || p.Copying?) && p.source == HaPods {
        NoMoveLeaves(s, a);
      }
      assert forall b :: owner(b) in s.cluster.onRook;
    }
  }

  lemma HolderOnly(s: State, i: nat, j: nat)
    requires LocksValid(s) && i < |s.migrations| && j < |s.migrations| && Holds(s.migrations[i].place)
    requires s.migrations[j].place != Ended && (s.migrations[j].place == Queued ==> s.lock == None)
    ensures j == i
  {
  }

  lemma ApproveIsSafe(s: State, i: nat, owner: Owner)
    requires Safe(s, i, owner)
    ensures Safe(Next(s, Approve), i, owner)
  {
  }

  lemma StepIsSafe(s: State, i: nat, a: Action, owner: Owner)
    requires Valid(s) && Safe(s, i, owner) && Enabled(s, a) && Proper(a, owner)
    ensures i < |Next(s, a).migrations|
    ensures Later(Next(s, a).migrations[i].place) || Safe(Next(s, a), i, owner)
  {
    assert s.lock == Some(i) && s.pauses.minio;
    match a
    case Work(j, outcome) =>
      HolderOnly(s, i, j);
      WorkIsSafe(s, i, outcome, owner);
    case Copy(j, item) =>
      HolderOnly(s, i, j);
      CopyIsSafe(s, i, item, owner);
    case Pick(j, _) => HolderOnly(s, i, j);
    case Write(consumer, op) => WriteIsSafe(s, i, consumer, op, owner);
    case Approve => ApproveIsSafe(s, i, owner);
    case _ => ReconcileIsSafe(s, i, a, owner);
  }

  lemma LaterStaysLater(s: State, i: nat, a: Action)
    requires i < |s.migrations| && Later(s.migrations[i].place) && Enabled(s, a)
    ensures i < |Next(s, a).migrations| && Later(Next(s, a).migrations[i].place)
  {
  }

  lemma {:induction false} SafeForLong(s: State, i: nat, schedule: seq<Action>, t: State, owner: Owner)
    requires Valid(s) && Safe(s, i, owner) && Leads(s, schedule, t) && AllProper(schedule, owner)
    ensures Valid(t) && i < |t.migrations| && (Later(t.migrations[i].place) || Safe(t, i, owner))
  {
    if schedule != [] {
      var front, last := schedule[..|schedule| - 1], schedule[|schedule| - 1];
      var m :| Leads(s, front, m) && Enabled(m, last) && t == Next(m, last);
      SafeForLong(s, i, front, m, owner);
      StepKeepsValid(m, last);
      assert Proper(last, owner) && AllProper(front, owner);
      if Later(m.migrations[i].place) {
        LaterStaysLater(m, i, last);
      } else {
        StepIsSafe(m, i, last, owner);
      }
    }
  }

  lemma SafeIsLossless(s: State, i: nat, owner: Owner)
    requires Valid(s) && Safe(s, i, owner)
    ensures Lossless(s, i, owner)
  {
    forall t | ProperlyLeads(owner, s, t) && i < |t.migrations| && t.migrations[i].place == Redirected ensures Faithful(t, owner) {
      SafeAtDelete(s, i, t, owner);
    }
  }

  lemma SafeAtDelete(s: State, i: nat, t: State, owner: Owner)
    requires Valid(s) && Safe(s, i, owner)
    requires ProperlyLeads(owner, s, t) && i < |t.migrations| && t.migrations[i].place == Redirected
    ensures Faithful(t, owner)
  {
    var schedule :| Leads(s, schedule, t) && AllProper(schedule, owner);
    SafeForLong(s, i, schedule, t, owner);
  }

  lemma SafeToCopyIsLossless(s: State, i: nat, source: Pods, owner: Owner)
    requires Valid(s) && OffAt(s, i, source) && Faithful(s, owner) && SafeToCopy(s, source, owner)
    ensures Lossless(s, i, owner)
  {
    SafeIsLossless(s, i, owner);
  }
}
