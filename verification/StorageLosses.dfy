/**
 When a storage migration loses accepted writes: each of the conditions of StorageLossless is needed, and runs
 from the start in which a migration after a stopped HA switch, and a repeated one, lose writes.
 */
module StorageLosses {
  import opened Prelude
  import opened Services
  import opened ObjectSync
  import opened StorageMachine
  import opened StorageStores
  import opened StorageLossless
  import opened StorageWalks
  import Clients = MinioMigration

  lemma HereAlready(owner: Owner, s: State)
    ensures ProperlyLeads(owner, s, s)
  {
    assert Leads(s, [], s);
  }

  // ---------- schedules one after the other ----------

  lemma {:induction false} LeadsOn(s: State, first: seq<Action>, m: State, second: seq<Action>, t: State)
    requires Leads(s, first, m) && Leads(m, second, t)
    ensures Leads(s, first + second, t)
  {
    if second == [] {
      assert first + second == first;
    } else {
      var front, last := second[..|second| - 1], second[|second| - 1];
      var n :| Leads(m, front, n) && Enabled(n, last) && t == Next(n, last);
      LeadsOn(s, first, m, front, n);
      LeadsThen(s, first + front, n, last);
      Regrouped(first, second);
    }
  }

  lemma Regrouped(first: seq<Action>, second: seq<Action>)
    requires second != []
    ensures first + second[..|second| - 1] + [second[|second| - 1]] == first + second
  {
  }

  /** Migration `i` walks on its own. */
  lemma WalksOn(owner: Owner, s: State, m: State, i: nat, trail: Trail) returns (t: State)
    requires ProperlyLeads(owner, s, m) && Walk(trail) && Sees(m, i, First(trail))
    ensures ProperlyLeads(owner, s, t) && Sees(t, i, Last(trail)) && SameOthers(m, t)
  {
    var first :| Leads(s, first, m) && AllProper(first, owner);
    var second;
    second, t := WalkIsSchedule(m, i, trail);
    LeadsOn(s, first, m, second, t);
    assert AllProper(first + second, owner);
  }

  function ViewOf(s: State, i: nat): View
    requires i < |s.migrations|
  {
    View(s.migrations[i].place, s.status, s.pauses, s.cluster)
  }

  lemma Stand(s: State, i: nat) returns (t: Trail)
    requires i < |s.migrations| && s.lock == Some(i) && Holds(s.migrations[i].place)
    ensures Walk(t) && First(t) == Last(t) == ViewOf(s, i) && Sees(s, i, First(t))
  {
    t := [ViewOf(s, i)];
  }

  /** A copy that is not disturbed. */
  lemma CopiesOn(owner: Owner, s: State, m: State, i: nat, source: Pods) returns (t: State)
    requires ProperlyLeads(owner, s, m) && i < |m.migrations| && m.lock == Some(i) && m.migrations[i].place == Frozen(source)
    ensures ProperlyLeads(owner, s, t) && SameOthers(m, t) && Sees(t, i, AllCopied(ViewOf(m, i), source))
  {
    var trail := Stand(m, i);
    trail := CopyTrail(trail, source);
    t := WalksOn(owner, s, m, i, trail);
  }

  lemma SwitchesOn(owner: Owner, s: State, m: State, i: nat) returns (t: State)
    requires ProperlyLeads(owner, s, m) && i < |m.migrations| && m.lock == Some(i) && m.migrations[i].place == Switching(0)
    ensures ProperlyLeads(owner, s, t) && i < |t.migrations| && t.migrations[i].place == Redirected
    ensures t.cluster == m.cluster.(onRook := EVERYONE) && t.accepted == m.accepted
  {
    var trail := Stand(m, i);
    trail := SwitchTrail(trail);
    t := WalksOn(owner, s, m, i, trail);
  }

  /** A copy that is not disturbed, and the switch of every consumer. */
  lemma CopyAndSwitch(owner: Owner, s: State, m: State, i: nat, source: Pods) returns (t: State)
    requires ProperlyLeads(owner, s, m) && i < |m.migrations| && m.lock == Some(i) && m.migrations[i].place == Frozen(source)
    ensures ProperlyLeads(owner, s, t) && i < |t.migrations| && t.migrations[i].place == Redirected
    ensures t.cluster == m.cluster.(onRook := EVERYONE, rook := Overlay(StoreOf(m.cluster.minio, source), m.cluster.rook))
    ensures t.accepted == m.accepted
  {
    var c := CopiesOn(owner, s, m, i, source);
    t := SwitchesOn(owner, s, c, i);
  }

  lemma EveryoneOwns(owner: Owner, b: string)
    ensures owner(b) in EVERYONE
  {
    assert owner(b) == Registry || owner(b) == Velero || owner(b) == Kotsadm;
  }

  /** With every consumer on Rook, accepted writes are safe if and only if Rook is what was accepted. */
  lemma FaithfulOnRook(t: State, owner: Owner)
    requires t.cluster.onRook == EVERYONE
    ensures Faithful(t, owner) <==> forall b :: At(t.accepted, b) == At(t.cluster.rook, b)
  {
    forall b ensures Home(t.cluster, owner, b) == t.cluster.rook {
      EveryoneOwns(owner, b);
    }
  }

  /** Rook still holds every object of the pods copied from, for the consumers switched before. */
  ghost predicate CopyHarmless(c: Cluster, source: Pods, owner: Owner) {
    forall b :: owner(b) in c.onRook ==> HoldsBucket(c.rook, StoreOf(c.minio, source), b)
  }

  /** A migration that goes undisturbed from turning the service off to its first delete keeps the accepted
      writes if and only if Rook still holds every object of the pods it copies from for the consumers switched
      before, and these pods over Rook are what the other consumers used last. */
  lemma UndisturbedKeepsIff(owner: Owner, s: State, i: nat, source: Pods) returns (t: State)
    requires OffAt(s, i, source) && s.lock == Some(i) && Faithful(s, owner)
    ensures ProperlyLeads(owner, s, t) && i < |t.migrations| && t.migrations[i].place == Redirected
    ensures t.accepted == s.accepted && t.cluster.onRook == EVERYONE
    ensures Faithful(t, owner) <==> CopyHarmless(s.cluster, source, owner) && CopyYieldsUsed(s.cluster, source, owner)
  {
    HereAlready(owner, s);
    t := CopyAndSwitch(owner, s, s, i, source);
    FaithfulOnRook(t, owner);
    var c, src := s.cluster, StoreOf(s.cluster.minio, source);
    forall b ensures At(t.accepted, b) == At(t.cluster.rook, b)
                     <==> if owner(b) in c.onRook then HoldsBucket(c.rook, src, b) else At(Overlay(src, c.rook), b) == At(StoreOf(c.minio, c.minio.used), b)
    {
      OverlayKeepsIff(src, c.rook, b);
      assert At(t.accepted, b) == At(Home(c, owner, b), b);
    }
  }

  // ---------- the conditions are needed ----------

  /** A consumer that is on Rook already removes a bucket that the pods still have, and the copy brings it back. */
  lemma RevertsLose(owner: Owner, s: State, m: State, i: nat, source: Pods, b: string)
    requires ProperlyLeads(owner, s, m) && i < |m.migrations| && m.lock == Some(i) && m.migrations[i].place == Frozen(source)
    requires b in StoreOf(m.cluster.minio, source) && owner(b) in m.cluster.onRook
    ensures !Lossless(s, i, owner)
  {
    var op := Clients.RemoveBucket(b);
    ProperlyThen(owner, s, m, Write(owner(b), op));
    var n := Written(m, owner(b), op);
    var t := CopyAndSwitch(owner, s, n, i, source);
    FaithfulOnRook(t, owner);
    OverlayAt(StoreOf(n.cluster.minio, source), n.cluster.rook, b);
    assert At(t.accepted, b) == None && At(t.cluster.rook, b).Some?;
  }

  /** Whoever has passed the check gets to manage, the others giving up. */
  lemma Enters(owner: Owner, s: State, m: State, r: nat) returns (t: State)
    requires ProperlyLeads(owner, s, m) && LocksValid(m) && m.cluster.minio.statefulSet
    requires r < |m.reconciles| && (m.reconciles[r].Checked? || Inside(m.reconciles[r]))
    ensures ProperlyLeads(owner, s, t) && t == m.(reconciles := t.reconciles, minioLock := t.minioLock)
    ensures r < |t.reconciles| && t.reconciles[r].Managing?
    ensures t.reconciles[r].stage == if m.reconciles[r].Managing? then m.reconciles[r].stage else Found
  {
    t := m;
    if t.reconciles[r].Checked? {
      if t.minioLock.Some? {
        var q := t.minioLock.value;
        ProperlyThen(owner, s, t, Leave(q));
        t := Next(t, Leave(q));
      }
      ProperlyThen(owner, s, t, TryLock(r));
      t := Next(t, TryLock(r));
    }
    if t.reconciles[r].Entered? {
      ProperlyThen(owner, s, t, LookUp(r));
      t := Next(t, LookUp(r));
    }
  }

  /** A managing reconcile makes one more call. */
  lemma Manages(owner: Owner, s: State, m: State, r: nat, step: HaStep) returns (t: State)
    requires ProperlyLeads(owner, s, m) && Enabled(m, Manage(r, step))
    ensures ProperlyLeads(owner, s, t) && t == Next(m, Manage(r, step))
    ensures r < |t.reconciles| && t.reconciles[r].Managing? && t.reconciles[r].stage == StageAfter(m.reconciles[r].stage, step)
    ensures t.cluster == m.cluster.(minio := Managed(m.cluster.minio, step))
    ensures t.migrations == m.migrations && t.lock == m.lock && t.accepted == m.accepted
  {
    ProperlyThen(owner, s, m, Manage(r, step));
    t := Next(m, Manage(r, step));
  }

  /** It copies the old pod's data to the stateful set. */
  lemma Moves(owner: Owner, s: State, m: State, r: nat) returns (t: State)
    requires ProperlyLeads(owner, s, m) && r < |m.reconciles| && m.reconciles[r].Managing? && m.cluster.minio.statefulSet
    requires m.reconciles[r].stage == Syncing || (m.reconciles[r].stage == Found && m.cluster.minio.deployment)
    ensures ProperlyLeads(owner, s, t) && t.migrations == m.migrations && t.lock == m.lock && t.accepted == m.accepted
    ensures r < |t.reconciles| && t.reconciles[r].Managing? && t.reconciles[r].stage == Synced
    ensures t.cluster.rook == m.cluster.rook && t.cluster.onRook == m.cluster.onRook && t.cluster.minio.statefulSet
    ensures t.cluster.minio.single == m.cluster.minio.single && t.cluster.minio.ha == Overlay(m.cluster.minio.single, m.cluster.minio.ha)
  {
    t := m;
    if t.reconciles[r].stage == Found {
      t := Manages(owner, s, t, r, TurnOff);
    }
    t := Manages(owner, s, t, r, CopyAll);
  }

  /** It turns the service on for the stateful set. */
  lemma TurnsOn(owner: Owner, s: State, m: State, r: nat) returns (t: State)
    requires ProperlyLeads(owner, s, m) && r < |m.reconciles| && MayTurnOn(m.reconciles[r]) && m.reconciles[r].Managing?
    requires m.cluster.minio.statefulSet && m.cluster.minio.service == Nowhere
    ensures ProperlyLeads(owner, s, t) && t.migrations == m.migrations && t.lock == m.lock && t.accepted == m.accepted
    ensures t.cluster.rook == m.cluster.rook && t.cluster.onRook == m.cluster.onRook
    ensures t.cluster.minio.statefulSet && t.cluster.minio.service == HaPods
  {
    t := m;
    if t.reconciles[r].stage == Found && !t.cluster.minio.deployment {
      t := Manages(owner, s, t, r, RepairService);
    } else {
      if t.reconciles[r].stage != Synced {
        t := Moves(owner, s, t, r);
      }
      t := Manages(owner, s, t, r, TurnOn);
    }
  }

  /** Old data that a reconcile brings to the stateful set is copied on over what the consumers did in Rook. */
  lemma MoveLoses(owner: Owner, s: State, i: nat)
    requires Valid(s) && OffAt(s, i, HaPods) && CanMoveToHa(s) && !SomeOnMinio(s.cluster, owner) && s.cluster.minio.single != map[]
    ensures !Lossless(s, i, owner)
  {
    HereAlready(owner, s);
    assert s.lock == Some(i);
    var r :| 0 <= r < |s.reconciles| && MayMove(s.reconciles[r], s.cluster.minio.deployment);
    var m := Enters(owner, s, s, r);
    m := Moves(owner, s, m, r);
    var b :| b in s.cluster.minio.single;
    OverlayAt(m.cluster.minio.single, s.cluster.minio.ha, b);
    RevertsLose(owner, s, m, i, HaPods, b);
  }

  /** The service is turned on for a write, and the consumers are switched. */
  lemma WritesBetween(owner: Owner, s: State, m: State, i: nat, r: nat, b: string, op: Clients.Op) returns (t: State)
    requires ProperlyLeads(owner, s, m) && Valid(m) && i < |m.migrations| && m.lock == Some(i) && m.migrations[i].place == Switching(0)
    requires r < |m.reconciles| && MayTurnOn(m.reconciles[r]) && m.cluster.minio.statefulSet && m.cluster.minio.service == Nowhere
    requires BucketOf(op) == b && owner(b) !in m.cluster.onRook
    ensures ProperlyLeads(owner, s, t) && i < |t.migrations| && t.migrations[i].place == Redirected
    ensures t.cluster.onRook == EVERYONE && t.cluster.rook == m.cluster.rook && t.accepted == Clients.Apply(m.accepted, op)
  {
    var n := Enters(owner, s, m, r);
    n := TurnsOn(owner, s, n, r);
    ProperlyThen(owner, s, n, Write(owner(b), op));
    t := SwitchesOn(owner, s, Written(n, owner(b), op), i);
  }

  /** A write that makes or removes a bucket is not in what was copied before. */
  lemma Misses(accepted: Store, rook: Store, b: string) returns (op: Clients.Op)
    requires At(accepted, b) == At(rook, b)
    ensures BucketOf(op) == b && At(Clients.Apply(accepted, op), b) != At(rook, b)
  {
    op := if b in accepted then Clients.RemoveBucket(b) else Clients.MakeBucket(b);
    ApplyAt(accepted, op, b);
  }

  /** A write to MinIO after the copy and before the switch is nowhere in Rook. */
  lemma TurnOnLoses(owner: Owner, s: State, i: nat, source: Pods)
    requires Valid(s) && OffAt(s, i, source) && Faithful(s, owner) && CopyYieldsUsed(s.cluster, source, owner)
    requires CanTurnOn(s) && SomeOnMinio(s.cluster, owner)
    ensures !Lossless(s, i, owner)
  {
    var b :| owner(b) !in s.cluster.onRook;
    var r :| 0 <= r < |s.reconciles| && MayTurnOn(s.reconciles[r]);
    HereAlready(owner, s);
    assert s.lock == Some(i);
    var copied := CopiesOn(owner, s, s, i, source);
    ProperRunsAreValid(owner, s, copied);
    assert At(s.accepted, b) == At(Home(s.cluster, owner, b), b) == At(copied.cluster.rook, b);
    var op := Misses(copied.accepted, copied.cluster.rook, b);
    var t := WritesBetween(owner, s, copied, i, r, b, op);
    FaithfulOnRook(t, owner);
  }

  lemma ProperRunsAreValid(owner: Owner, s: State, t: State)
    requires Valid(s) && ProperlyLeads(owner, s, t)
    ensures Valid(t)
  {
    var schedule :| Leads(s, schedule, t) && AllProper(schedule, owner);
    RunsAreValid(s, schedule, t);
  }

  lemma YieldLoses(owner: Owner, s: State, i: nat, source: Pods)
    requires OffAt(s, i, source) && s.lock == Some(i) && Faithful(s, owner) && !CopyYieldsUsed(s.cluster, source, owner)
    ensures !Lossless(s, i, owner)
  {
    var t := UndisturbedKeepsIff(owner, s, i, source);
  }

  /** When the service goes off, exactly when no schedule can lose an accepted write before MinIO is deleted:
      the pods copied from over Rook are what the consumers on MinIO used last; these pods hold no bucket of a
      consumer that was switched by an earlier migration; and no reconcile is past its pause check and able to
      turn the service on again for a consumer on MinIO, or to bring old data to the pods copied from. */
  lemma LosslessIff(s: State, i: nat, source: Pods, owner: Owner)
    requires Reachable(s) && OffAt(s, i, source) && Faithful(s, owner)
    ensures Lossless(s, i, owner) <==> SafeToCopy(s, source, owner)
  {
    ReachableValid(s);
    assert s.lock == Some(i);
    if !CopyYieldsUsed(s.cluster, source, owner) {
      YieldLoses(owner, s, i, source);
    } else if b :| b in StoreOf(s.cluster.minio, source) && owner(b) in s.cluster.onRook {
      HereAlready(owner, s);
      RevertsLose(owner, s, s, i, source, b);
    } else if SomeOnMinio(s.cluster, owner) && CanTurnOn(s) {
      TurnOnLoses(owner, s, i, source);
    } else if source == HaPods && s.cluster.minio.single != map[] && CanMoveToHa(s) {
      MoveTurnsOn(s);
      MoveLoses(owner, s, i);
    } else {
      SafeToCopyIsLossless(s, i, source, owner);
    }
  }

  lemma MoveTurnsOn(s: State)
    requires CanMoveToHa(s)
    ensures CanTurnOn(s)
  {
    var r :| 0 <= r < |s.reconciles| && MayMove(s.reconciles[r], s.cluster.minio.deployment);
    assert MayTurnOn(s.reconciles[r]);
  }

  // ---------- runs from the start ----------

  function Beginning(c: Cluster): State {
    State([], [], None, None, NotStarted, Pauses(false, false, false), 0, c, StoreOf(c.minio, c.minio.used))
  }

  lemma BeginningReachable(c: Cluster)
    requires ServiceFits(c.minio)
    ensures Reachable(Beginning(c))
  {
    assert Leads(Beginning(c), [], Beginning(c));
  }

  lemma ReachableWalk(m: State, i: nat, trail: Trail) returns (t: State)
    requires Reachable(m) && Walk(trail) && Sees(m, i, First(trail))
    ensures Reachable(t) && Sees(t, i, Last(trail)) && SameOthers(m, t)
  {
    var start, first :| Initial(start) && Leads(start, first, m);
    var second;
    second, t := WalkIsSchedule(m, i, trail);
    LeadsOn(start, first, m, second, t);
  }

  /** A migration is approved and comes to turning the service off. */
  lemma ApprovedAndFrozen(s: State, source: Pods) returns (t: State)
    requires Reachable(s) && s.lock == None && !s.pauses.minio && s.status != Completed && InUse(s.cluster.minio)
    ensures Reachable(t) && |t.migrations| == |s.migrations| + 1 && OffAt(t, |s.migrations|, source) && t.lock == Some(|s.migrations|)
    ensures t.cluster == s.cluster.(minio := s.cluster.minio.(service := Nowhere)) && t.accepted == s.accepted
    ensures t.reconciles == s.reconciles && t.minioLock == s.minioLock && t.pauses.minio
  {
    var i := |s.migrations|;
    ReachableThen(s, Approve);
    var a := Next(s, Approve);
    ReachableThen(a, Work(i, Good));
    var m := Worked(a, i, Good);
    var trail := FrozenTrail(ViewOf(m, i), source);
    t := ReachableWalk(m, i, trail);
  }

  /** It fails after switching the registry, and gives the lock back. */
  lemma FailsAfterRegistry(s: State, i: nat, source: Pods) returns (t: State)
    requires Reachable(s) && OffAt(s, i, source) && s.lock == Some(i)
    ensures Reachable(t) && |t.migrations| == |s.migrations| && t.lock == None && t.status == Failed && !t.pauses.minio
    ensures t.cluster == s.cluster.(rook := Overlay(StoreOf(s.cluster.minio, source), s.cluster.rook), onRook := s.cluster.onRook + {Registry})
    ensures t.accepted == s.accepted && t.reconciles == s.reconciles
  {
    var trail := Stand(s, i);
    trail := CopyTrail(trail, source);
    trail := RegistryOnlyTrail(trail);
    t := ReachableWalk(s, i, trail);
    t := Leaves(t, i);
  }

  lemma Leaves(s: State, i: nat) returns (t: State)
    requires Reachable(s) && i < |s.migrations| && s.migrations[i].place == Leaving
    ensures Reachable(t) && |t.migrations| == |s.migrations| && t.lock == None && t.reconciles == s.reconciles
    ensures t.cluster == s.cluster && t.accepted == s.accepted && t.status == s.status && t.pauses == s.pauses
  {
    ReachableThen(s, Work(i, Good));
    t := Worked(s, i, Good);
  }

  /** The overlap happens: the pause flag does not keep out a reconcile that has read it before. */
  lemma OverlapIsReachable(c: Cluster) returns (s: State)
    requires InUse(c.minio) && c.minio.statefulSet && ServiceFits(c.minio)
    ensures Reachable(s) && OffAt(s, 0, c.minio.used) && s.pauses.minio && CanTurnOn(s)
    ensures |s.reconciles| == 1 && s.reconciles[0].Managing?
    ensures s.cluster == c.(minio := c.minio.(service := Nowhere)) && s.accepted == StoreOf(c.minio, c.minio.used)
  {
    var a := Beginning(c);
    BeginningReachable(c);
    ReachableThen(a, Tick);
    var b := Next(a, Tick);
    ReachableThen(b, CheckPause(0));
    var d := Next(b, CheckPause(0));
    s := ApprovedAndFrozen(d, c.minio.used);
    s := EnterPaused(s);
    assert MayTurnOn(s.reconciles[0]);
  }

  lemma EnterPaused(s: State) returns (t: State)
    requires Reachable(s) && |s.reconciles| == 1 && s.reconciles[0].Checked? && s.minioLock == None && s.cluster.minio.statefulSet
    ensures Reachable(t) && t == s.(reconciles := t.reconciles, minioLock := t.minioLock)
    ensures |t.reconciles| == 1 && t.reconciles[0].Managing? && t.reconciles[0].stage == Found
  {
    ReachableThen(s, TryLock(0));
    t := Next(s, TryLock(0));
    ReachableThen(t, LookUp(0));
    t := Next(t, LookUp(0));
  }

  // ---------- a repeated migration that reverts a write ----------

  /** One failed migration, one write of the registry to Rook, and a second migration about to copy. */
  lemma SecondCopy(c: Cluster, b: string) returns (before: State)
    requires InUse(c.minio) && c.onRook == {} && c.rook == map[] && ServiceFits(c.minio)
    ensures var src, op := StoreOf(c.minio, c.minio.used), Clients.RemoveBucket(b);
            && Reachable(before) && |before.migrations| == 2 && OffAt(before, 1, c.minio.used) && before.lock == Some(1)
            && before.cluster == c.(minio := c.minio.(service := Nowhere), rook := Clients.Apply(Overlay(src, map[]), op), onRook := {Registry})
            && before.accepted == Clients.Apply(src, op) && before.reconciles == []
  {
    BeginningReachable(c);
    var s := ApprovedAndFrozen(Beginning(c), c.minio.used);
    s := FailsAfterRegistry(s, 0, c.minio.used);
    assert s.cluster.onRook == {Registry};
    ReachableThen(s, Write(Registry, Clients.RemoveBucket(b)));
    s := Written(s, Registry, Clients.RemoveBucket(b));
    before := ApprovedAndFrozen(s, c.minio.used);
  }

  /** The failure on any data: the registry, switched by a migration that then failed, removes a bucket from
      Rook, and the next migration, which nobody disturbs, brings it back. */
  lemma RepeatedMigrationReverts(c: Cluster, owner: Owner, b: string) returns (before: State, after: State)
    requires InUse(c.minio) && c.onRook == {} && c.rook == map[] && ServiceFits(c.minio)
    requires b in StoreOf(c.minio, c.minio.used) && owner(b) == Registry
    ensures Reachable(before) && Faithful(before, owner) && OffAt(before, 1, c.minio.used) && before.reconciles == []
    ensures ProperlyLeads(owner, before, after) && 1 < |after.migrations| && after.migrations[1].place == Redirected && !Faithful(after, owner)
  {
    before := SecondCopy(c, b);
    var src, op := StoreOf(c.minio, c.minio.used), Clients.RemoveBucket(b);
    forall x ensures At(before.accepted, x) == At(Home(before.cluster, owner, x), x) {
      ApplyAt(src, op, x);
      ApplyAt(Overlay(src, map[]), op, x);
      OverlayIsSourceIff(src, map[], x);
    }
    ApplyAt(Overlay(src, map[]), op, b);
    after := UndisturbedKeepsIff(owner, before, 1, c.minio.used);
    assert !HoldsBucket(before.cluster.rook, StoreOf(before.cluster.minio, c.minio.used), b);
  }

  // ---------- a migration after a stopped HA switch ----------

  /** The only reconcile so far makes one more call. */
  lemma OneMoreCall(s: State, step: HaStep) returns (t: State)
    requires Reachable(s) && Enabled(s, Manage(0, step)) && |s.reconciles| == 1
    ensures Reachable(t) && t == Next(s, Manage(0, step)) && |t.reconciles| == 1
    ensures t.reconciles[0].Managing? && t.reconciles[0].stage == StageAfter(s.reconciles[0].stage, step)
    ensures t.cluster == s.cluster.(minio := Managed(s.cluster.minio, step))
  {
    ReachableThen(s, Manage(0, step));
    t := Next(s, Manage(0, step));
  }

  /** A reconcile moves the old pod's data to the stateful set, switches the service, and fails to delete the
      deployment. */
  lemma StoppedHaSwitch(c: Cluster) returns (s: State)
    requires c.minio.deployment && c.minio.statefulSet && c.minio.service == OldPod && c.minio.used == OldPod && c.minio.ha == map[]
    ensures Reachable(s) && s.migrations == [] && s.lock == None && s.status == NotStarted && !s.pauses.minio && s.reconciles == [Gone]
    ensures s.cluster == c.(minio := c.minio.(service := HaPods, used := HaPods, ha := Overlay(c.minio.single, map[])))
    ensures s.accepted == c.minio.single
  {
    BeginningReachable(c);
    ReachableThen(Beginning(c), Tick);
    s := Next(Beginning(c), Tick);
    ReachableThen(s, CheckPause(0));
    s := Next(s, CheckPause(0));
    s := EnterPaused(s);
    s := MovesAndStops(s);
  }

  lemma MovesAndStops(s: State) returns (t: State)
    requires Reachable(s) && |s.reconciles| == 1 && s.reconciles[0].Managing? && s.reconciles[0].stage == Found
    requires s.cluster.minio.deployment && s.cluster.minio.statefulSet
    ensures Reachable(t) && t.reconciles == [Gone] && t == s.(reconciles := t.reconciles, minioLock := t.minioLock, cluster := t.cluster)
    ensures var m := s.cluster.minio;
            t.cluster == s.cluster.(minio := m.(service := HaPods, used := HaPods, ha := Overlay(m.single, m.ha)))
  {
    t := OneMoreCall(s, TurnOff);
    t := OneMoreCall(t, CopyAll);
    t := OneMoreCall(t, TurnOn);
    ReachableThen(t, Leave(0));
    t := Next(t, Leave(0));
  }

  /** On any data: after such a stopped switch a client removes a bucket. A migration approved then finds the old
      pod still listed and copies that. Nobody disturbs it, no reconcile is under way, and Rook was empty; the
      write is lost when MinIO is deleted. */
  lemma MigratesTheOldPod(c: Cluster, owner: Owner, b: string) returns (off: State, after: State)
    requires InUse(c.minio) && c.minio.deployment && c.minio.statefulSet && c.minio.service == OldPod && c.minio.used == OldPod
    requires c.minio.ha == map[] && c.rook == map[] && c.onRook == {} && b in c.minio.single
    ensures Reachable(off) && Faithful(off, owner) && OffAt(off, 0, OldPod) && off.reconciles == [Gone] && off.cluster.rook == map[]
    ensures !Lossless(off, 0, owner)
    ensures ProperlyLeads(owner, off, after) && 0 < |after.migrations| && after.migrations[0].place == Redirected && !Faithful(after, owner)
  {
    var op := Clients.RemoveBucket(b);
    var s := StoppedHaSwitch(c);
    ReachableThen(s, Write(owner(b), op));
    off := ApprovedAndFrozen(Written(s, owner(b), op), OldPod);
    WrittenToHa(c, owner, b, off);
    after := UndisturbedKeepsIff(owner, off, 0, OldPod);
    OverlayAt(c.minio.single, map[], b);
    assert At(Overlay(c.minio.single, map[]), b).Some?;
  }

  lemma WrittenToHa(c: Cluster, owner: Owner, b: string, off: State)
    requires off.accepted == Clients.Apply(c.minio.single, Clients.RemoveBucket(b)) && off.cluster.onRook == {}
    requires off.cluster.minio.used == HaPods
    requires off.cluster.minio.ha == Clients.Apply(Overlay(c.minio.single, map[]), Clients.RemoveBucket(b))
    ensures Faithful(off, owner) && At(off.cluster.minio.ha, b) == None
  {
    var op := Clients.RemoveBucket(b);
    forall x ensures At(off.accepted, x) == At(Home(off.cluster, owner, x), x) {
      ApplyAt(c.minio.single, op, x);
      ApplyAt(Overlay(c.minio.single, map[]), op, x);
      OverlayIsSourceIff(c.minio.single, map[], x);
    }
    ApplyAt(Overlay(c.minio.single, map[]), op, b);
  }
}
