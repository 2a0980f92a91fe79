/**
 What every schedule of the storage migration keeps: mutual exclusion, the scope of the pause flags, what a
 completed migration means and how long it lasts, and what is deleted when.
 */
module StorageSafety {
  import opened Prelude
  import opened ObjectSync
  import opened Services
  import opened StorageMachine

  /** At most one migration body and one reconcile body run at a time. */
  lemma MutualExclusion(s: State)
    requires Reachable(s)
    ensures forall i, j :: 0 <= i < j < |s.migrations| ==> !(Holds(s.migrations[i].place) && Holds(s.migrations[j].place))
    ensures forall q, r :: 0 <= q < r < |s.reconciles| ==> !(Inside(s.reconciles[q]) && Inside(s.reconciles[r]))
  {
    ReachableValid(s);
  }

  /** Some migration is at a place where `f` says the flag has to be set. */
  ghost predicate SomeAt(s: State, f: Place -> bool) {
    exists i :: 0 <= i < |s.migrations| && f(s.migrations[i].place)
  }

  lemma OnlyTheHolder(s: State, f: Place -> bool)
    requires LocksValid(s) && forall p :: f(p) ==> Holds(p)
    ensures SomeAt(s, f) <==> f(HolderPlace(s))
  {
    if f(HolderPlace(s)) {
      assert Holds(HolderPlace(s));
      assert f(s.migrations[s.lock.value].place);
    }
  }

  /** A flag is set exactly while some migration is inside the part of the phase that needs it, and no flag
      outlives the migrations: with all of them ended or waiting, nothing is paused. */
  lemma PausesBelongToTheirPhase(s: State)
    requires Reachable(s)
    ensures s.pauses == Pauses(SomeAt(s, MinioHeld), SomeAt(s, PrometheusIsHeld), SomeAt(s, KotsadmHeld))
    ensures !SomeAt(s, Holds) ==> s.pauses == Pauses(false, false, false)
  {
    ReachableValid(s);
    FlagsOfTheHolder(s);
  }

  lemma FlagsOfTheHolder(s: State)
    requires LocksValid(s) && PausesValid(s)
    ensures s.pauses == Pauses(SomeAt(s, MinioHeld), SomeAt(s, PrometheusIsHeld), SomeAt(s, KotsadmHeld))
    ensures !SomeAt(s, Holds) ==> s.pauses == Pauses(false, false, false)
  {
    OnlyTheHolder(s, MinioHeld);
    OnlyTheHolder(s, PrometheusIsHeld);
    OnlyTheHolder(s, KotsadmHeld);
    OnlyTheHolder(s, Holds);
  }

  /** A reconcile body that runs while MinIO is paused passed its check before that pause. */
  lemma PausedBodiesAreOlder(s: State, r: nat)
    requires Reachable(s) && s.pauses.minio && r < |s.reconciles| && Inside(s.reconciles[r])
    ensures s.reconciles[r].epoch < s.epoch
  {
    ReachableValid(s);
  }

  /** Completed is set only by a migration both of whose phases succeeded, and while it lasts MinIO is out of
      use, the volumes are moved and the old storage class is gone. */
  lemma CompletedMeansBothPhases(s: State)
    requires Reachable(s) && s.status == Completed
    ensures !InUse(s.cluster.minio) && s.cluster.volumes.moved && !s.cluster.volumes.oldClass
    ensures exists i :: 0 <= i < |s.migrations| && {VolumesMoved, MarkedCompleted} <= s.migrations[i].did && ObjectsDone(s.migrations[i].did)
  {
    ReachableValid(s);
    MarkedHasDoneBoth(s);
  }

  lemma MarkedHasDoneBoth(s: State)
    requires RecordsValid(s) && MarkedBySome(s.migrations)
    ensures exists i :: 0 <= i < |s.migrations| && {VolumesMoved, MarkedCompleted} <= s.migrations[i].did && ObjectsDone(s.migrations[i].did)
  {
    var i :| 0 <= i < |s.migrations| && Marked(s.migrations[i]);
    assert Recorded(s.migrations[i]);
  }

  // ---------- completed is for good ----------

  /** What only a migration changes. */
  predicate SameFate(s: State, t: State) {
    && t.cluster.minio.statefulSet == s.cluster.minio.statefulSet && t.cluster.minio.namespace == s.cluster.minio.namespace
    && t.cluster.onRook == s.cluster.onRook && t.cluster.volumes == s.cluster.volumes
  }

  lemma CompletedStays(s: State, a: Action)
    requires Valid(s) && s.status == Completed && Enabled(s, a)
    ensures Next(s, a).status == Completed && SameFate(s, Next(s, a))
    ensures !a.Manage? ==> Next(s, a).cluster.minio.deployment == s.cluster.minio.deployment
    ensures !a.Write? ==> Next(s, a).cluster.rook == s.cluster.rook
  {
    if a.Work? {
      HolderWorks(s, a.i);
      CompletedWork(s, a.i, a.outcome);
    } else {
      OnlyWorkDecides(s, a);
      if a.Copy? {
        HolderWorks(s, a.i);
      }
    }
  }

  lemma CompletedWork(s: State, i: nat, outcome: Outcome)
    requires Enabled(s, Work(i, outcome)) && s.status == Completed
    requires s.migrations[i].place == Queued || s.migrations[i].place == Locked || s.migrations[i].place == Leaving
    ensures var t := Worked(s, i, outcome); t.status == Completed && t.cluster == s.cluster
  {
  }

  /** All but the calls of a migration leave status and flags alone, and what only a migration changes. Picking
      a pod and copying an item happen under the pause. */
  lemma OnlyWorkDecides(s: State, a: Action)
    requires LocksValid(s) && Enabled(s, a) && !a.Work?
    ensures var t := Next(s, a); t.status == s.status && t.pauses == s.pauses && SameFate(s, t)
    ensures !a.Manage? ==> Next(s, a).cluster.minio.deployment == s.cluster.minio.deployment
    ensures !a.Write? && !a.Copy? ==> Next(s, a).cluster.rook == s.cluster.rook
  {
    if a.Manage? {
      ManageDecidesNothing(s.cluster.minio, a.step);
    } else if !a.Write? && !a.Copy? {
      ThreadsDecideNothing(s, a);
    }
  }

  lemma ManageDecidesNothing(m: Minio, step: HaStep)
    ensures Managed(m, step).statefulSet == m.statefulSet && Managed(m, step).namespace == m.namespace
  {
  }

  lemma ThreadsDecideNothing(s: State, a: Action)
    requires Enabled(s, a) && !a.Work? && !a.Manage? && !a.Write? && !a.Copy?
    ensures Next(s, a).cluster == s.cluster && Next(s, a).status == s.status && Next(s, a).pauses == s.pauses
  {
  }

  lemma HolderStays(s: State, a: Action)
    requires LocksValid(s) && Enabled(s, a) && !a.Work? && !a.Approve?
    ensures HolderPlace(Next(s, a)) == HolderPlace(s) || MinioHeld(HolderPlace(Next(s, a)))
  {
    if a.Pick? || a.Copy? {
      HolderWorks(s, a.i);
      CopyStaysPaused(s, a);
    } else {
      OthersKeepHolder(s, a);
    }
  }

  lemma CopyStaysPaused(s: State, a: Action)
    requires Enabled(s, a) && (a.Pick? || a.Copy?) && s.migrations[a.i].place == HolderPlace(s) && s.lock == Some(a.i)
    ensures MinioHeld(HolderPlace(Next(s, a)))
  {
  }

  lemma OthersKeepHolder(s: State, a: Action)
    requires Enabled(s, a) && !a.Work? && !a.Pick? && !a.Copy? && !a.Approve?
    ensures HolderPlace(Next(s, a)) == HolderPlace(s)
  {
  }

  lemma {:induction false} CompletedKept(s: State, schedule: seq<Action>, t: State)
    requires Valid(s) && s.status == Completed && Leads(s, schedule, t)
    ensures Valid(t) && t.status == Completed && SameFate(s, t)
  {
    if schedule != [] {
      var front, last := schedule[..|schedule| - 1], schedule[|schedule| - 1];
      var m :| Leads(s, front, m) && Enabled(m, last) && t == Next(m, last);
      CompletedKept(s, front, m);
      StepKeepsValid(m, last);
      CompletedStays(m, last);
    }
  }

  lemma {:induction false} CompletedOnlyManaged(s: State, schedule: seq<Action>, t: State)
    requires Valid(s) && s.status == Completed && Leads(s, schedule, t)
    ensures OnlyManaged(s, schedule, t)
  {
    if schedule != [] {
      var front, last := schedule[..|schedule| - 1], schedule[|schedule| - 1];
      var m :| Leads(s, front, m) && Enabled(m, last) && t == Next(m, last);
      CompletedKept(s, front, m);
      CompletedOnlyManaged(s, front, m);
      OneMore(s, schedule, m);
    }
  }

  /** Completed stays: later migrations pause nothing, delete nothing, switch nobody and copy nothing. Only a
      reconcile still deletes an old deployment, and only clients write. */
  lemma CompletedForever(s: State, schedule: seq<Action>, t: State)
    requires Valid(s) && s.status == Completed && Leads(s, schedule, t)
    ensures t.status == Completed && t.pauses == Pauses(false, false, false) && SameFate(s, t)
    ensures OnlyManaged(s, schedule, t)
  {
    CompletedKept(s, schedule, t);
    CompletedOnlyManaged(s, schedule, t);
    CompletedIsUnpaused(t);
  }

  /** Without a managing reconcile the deployment stays, and without client writes Rook does. */
  predicate OnlyManaged(s: State, schedule: seq<Action>, t: State) {
    && (NobodyManages(schedule) ==> t.cluster.minio.deployment == s.cluster.minio.deployment)
    && (NobodyWrites(schedule) ==> t.cluster.rook == s.cluster.rook)
  }

  predicate NobodyManages(schedule: seq<Action>) {
    forall k :: 0 <= k < |schedule| ==> !schedule[k].Manage?
  }

  predicate NobodyWrites(schedule: seq<Action>) {
    forall k :: 0 <= k < |schedule| ==> !schedule[k].Write?
  }

  lemma OneMore(s: State, schedule: seq<Action>, m: State)
    requires schedule != [] && OnlyManaged(s, schedule[..|schedule| - 1], m)
    requires Valid(m) && m.status == Completed && Enabled(m, schedule[|schedule| - 1])
    ensures OnlyManaged(s, schedule, Next(m, schedule[|schedule| - 1]))
  {
    var last := schedule[|schedule| - 1];
    CompletedStays(m, last);
    assert NobodyManages(schedule) ==> !last.Manage? && NobodyManages(schedule[..|schedule| - 1]);
    assert NobodyWrites(schedule) ==> !last.Write? && NobodyWrites(schedule[..|schedule| - 1]);
  }

  lemma CompletedIsUnpaused(s: State)
    requires Valid(s) && s.status == Completed
    ensures s.pauses == Pauses(false, false, false)
  {
  }

  /** The holder is past deleting the old storage class and will complete. */
  predicate PastTheClass(p: Place) {
    p == BothHeld(3) || p == Releasing(true) || p == KotsadmReleased(true) || p == VolumesEnd(true)
  }

  lemma ClassStaysGone(s: State, a: Action)
    requires Valid(s) && Enabled(s, a)
    requires !s.cluster.volumes.oldClass && s.status != Completed && !PastTheClass(HolderPlace(s))
    ensures var t := Next(s, a); !t.cluster.volumes.oldClass && t.status != Completed && !PastTheClass(HolderPlace(t))
  {
    if a.Work? {
      WorkLeavesClassGone(s, a.i, a.outcome);
    } else if a.Approve? {
      OnlyWorkDecides(s, a);
      ApproveKeepsLocks(s);
    } else {
      OnlyWorkDecides(s, a);
      HolderStays(s, a);
    }
  }

  lemma WorkLeavesClassGone(s: State, i: nat, outcome: Outcome)
    requires LocksValid(s) && PausesValid(s) && Reached(HolderPlace(s), s.cluster) && Enabled(s, Work(i, outcome))
    requires !s.cluster.volumes.oldClass && s.status != Completed && !PastTheClass(HolderPlace(s))
    ensures var t := Worked(s, i, outcome); !t.cluster.volumes.oldClass && t.status != Completed && !PastTheClass(HolderPlace(t))
  {
    WorkKeepsLocks(s, i, outcome);
    HolderWorks(s, i);
    NoWayPastTheClass(s.migrations[i].place, s.cluster, s.status, outcome);
  }

  lemma HolderWorks(s: State, i: nat)
    requires LocksValid(s) && i < |s.migrations| && s.migrations[i].place != Ended
    ensures s.migrations[i].place == Queued || s.migrations[i].place == HolderPlace(s)
  {
  }

  lemma NoWayPastTheClass(p: Place, c: Cluster, status: Status, outcome: Outcome)
    requires p == Queued || Reached(p, c)
    requires Possible(p, c.volumes, outcome) && !c.volumes.oldClass && status != Completed && !PastTheClass(p)
    ensures !PastTheClass(PlaceAfter(p, status, c.minio, outcome)) && StatusAfter(p, status, outcome) != Completed
    ensures !(if outcome == Good then ClusterAfter(p, c) else c).volumes.oldClass
  {
  }

  /** A migration that deletes the old storage class and then fails makes completion impossible: no later
      migration, however many are approved and however they are scheduled, completes any more. */
  lemma {:induction false} NeverCompletesWithoutClass(s: State, schedule: seq<Action>, t: State)
    requires Valid(s) && Leads(s, schedule, t)
    requires !s.cluster.volumes.oldClass && s.status != Completed && !PastTheClass(HolderPlace(s))
    ensures Valid(t) && t.status != Completed && !t.cluster.volumes.oldClass && !PastTheClass(HolderPlace(t))
  {
    if schedule != [] {
      var front, last := schedule[..|schedule| - 1], schedule[|schedule| - 1];
      var m :| Leads(s, front, m) && Enabled(m, last) && t == Next(m, last);
      NeverCompletesWithoutClass(s, front, m);
      StepKeepsValid(m, last);
      ClassStaysGone(m, last);
    }
  }

  // ---------- what is deleted ----------

  lemma WorkDeletes(p: Place, c: Cluster, outcome: Outcome)
    requires Deletes(c.minio, (if outcome == Good then ClusterAfter(p, c) else c).minio)
    ensures p == Redirected || p == StatefulSetGone || p == DeploymentGone
  {
  }

  /** A migration deletes the stateful set, the deployment or the namespace only after it has itself copied the
      data and switched the consumers, and with every consumer on Rook. The namespace and the stateful set are
      deleted by nobody else, and the deployment besides only by a reconcile. */
  lemma DeletedOnlyAfterCopy(s: State, a: Action)
    requires Reachable(s) && Enabled(s, a) && Deletes(s.cluster.minio, Next(s, a).cluster.minio)
    ensures a.Work? || (a.Manage? && Next(s, a).cluster.minio == s.cluster.minio.(deployment := false))
    ensures a.Work? ==> {DataCopied, ConsumersSwitched} <= s.migrations[a.i].did && s.cluster.onRook == EVERYONE
  {
    ReachableValid(s);
    if a.Work? {
      HolderWorks(s, a.i);
      assert Recorded(s.migrations[a.i]);
      WorkDeletes(s.migrations[a.i].place, s.cluster, a.outcome);
    } else {
      OnlyWorkDecides(s, a);
    }
  }
}
