/**
 The body of a storage migration (pkg/migrate/storage.go), call by call. The contract of ObjectStorageAndPVCs
 names the history of what happened; StorageWalks.HistoryIsSchedule shows every such history to be a schedule
 of the machine of StorageMachine.
 */
module StorageMigration {
  import opened Prelude
  import opened ObjectSync
  import opened Services
  import opened StorageMachine
  import opened StorageWalks
  import Moves = MinioMigration

  datatype Call = GetNamespace | GetDeployment | GetStatefulSet | ListPods | GetCredentials | GetRookService | GetRookSecret
                | DisableService | Update(consumer: Consumer) | DeleteStatefulSet | DeleteDeployment | DeleteNamespace
                | ScaleDown | MoveVolumes | DeleteClass | ScaleUp

  datatype Faults = Faults(ready: Outcome, calls: set<Call>, sync: set<ObjectSync.Call>)

  datatype Pod = Pod(running: bool, ip: string)

  /** The address of the first running pod. */
  function RunningIP(pods: seq<Pod>): string {
    if pods == [] then "" else if pods[0].running then pods[0].ip else RunningIP(pods[1..])
  }

  /** The pod with that address runs, and none before it does; no address when none runs. */
  lemma {:induction false} RunningIPMeans(pods: seq<Pod>)
    ensures forall i | 0 <= i < |pods| && pods[i].running && (forall j :: 0 <= j < i ==> !pods[j].running) ::
      RunningIP(pods) == pods[i].ip
    ensures (forall i :: 0 <= i < |pods| ==> !pods[i].running) ==> RunningIP(pods) == ""
    ensures RunningIP(pods) != "" ==> exists i ::
      0 <= i < |pods| && pods[i].running && pods[i].ip == RunningIP(pods) && forall j :: 0 <= j < i ==> !pods[j].running
  {
    if pods != [] && !pods[0].running {
      var rest := pods[1..];
      RunningIPMeans(rest);
      forall i | 0 <= i < |pods| && pods[i].running && (forall j :: 0 <= j < i ==> !pods[j].running)
        ensures RunningIP(pods) == pods[i].ip
      {
        assert rest[i - 1] == pods[i];
      }
      if RunningIP(rest) != "" {
        var i :| 0 <= i < |rest| && rest[i].running && rest[i].ip == RunningIP(rest) && forall j :: 0 <= j < i ==> !rest[j].running;
        assert pods[i + 1] == rest[i];
        assert forall j :: 1 <= j < i + 1 ==> pods[j] == rest[j - 1];
      }
    }
  }

  // ---------- the failing calls decide how far a migration comes ----------

  /** A call that looks for MinIO fails before the answer is known. */
  predicate CannotTell(m: Minio, calls: set<Call>) {
    GetNamespace in calls || (m.namespace && (GetDeployment in calls || (!m.deployment && GetStatefulSet in calls)))
  }

  /** The pods copied from: the old one if any is listed, else those of the stateful set. */
  function SourceOf(pods: seq<Pod>): Pods {
    if pods == [] then HaPods else OldPod
  }

  /** How many of the calls under the pause succeed: the service is disabled only when a pod to copy from, the
      credentials and the Rook endpoint are there; `synced` says whether the copy goes through. */
  function CallsDone(sourceIP: string, calls: set<Call>, synced: bool): nat {
    if sourceIP == "" || ListPods in calls || GetCredentials in calls || GetRookService in calls || GetRookSecret in calls
       || DisableService in calls then 0
    else if !synced then 1
    else if UpdatesDone(calls) < 3 then 2 + UpdatesDone(calls)
    else 5 + DeletesDone(calls)
  }

  function UpdatesDone(calls: set<Call>): nat {
    if Update(Registry) in calls then 0 else if Update(Velero) in calls then 1 else if Update(Kotsadm) in calls then 2 else 3
  }

  function DeletesDone(calls: set<Call>): nat {
    if DeleteStatefulSet in calls then 0 else if DeleteDeployment in calls then 1 else if DeleteNamespace in calls then 2 else 3
  }

  /** How many of the calls with Prometheus and kotsadm paused succeed. */
  function VolumeCallsDone(oldClass: bool, calls: set<Call>): nat {
    if ScaleDown in calls then 0
    else if MoveVolumes in calls then 1
    else if DeleteClass in calls || !oldClass then 2
    else if ScaleUp in calls then 3
    else 4
  }

  predicate StopsWhere(h: History, c: Cluster, pods: seq<Pod>, sourceIP: string, calls: set<Call>, synced: bool)
    requires h.Ran?
  {
    && (h.inUse == None <==> CannotTell(c.minio, calls))
    && (h.inUse == Some(true) ==> h.source == SourceOf(pods) && h.moved == CallsDone(sourceIP, calls, synced))
    && (ObjectsMoved(h) ==> h.volumes == VolumeCallsDone(c.volumes.oldClass, calls))
  }

  /** When no call fails, a migration completes if and only if the old storage class is there, and MinIO is not
      in use or has a running pod to copy from. */
  lemma CompletesIff(v: View, h: History, pods: seq<Pod>, sourceIP: string)
    requires h.Ran? && Fits(v, h) && StopsWhere(h, v.cluster, pods, sourceIP, {}, true)
    ensures EndOf(v, h).status == Completed <==> v.cluster.volumes.oldClass && (InUse(v.cluster.minio) ==> sourceIP != "")
  {
  }

  /** Without a running pod a migration of a MinIO in use changes nothing. */
  lemma NothingToCopyFrom(v: View, h: History, pods: seq<Pod>, listed: seq<Pod>, calls: set<Call>, synced: bool)
    requires h.Ran? && Fits(v, h) && StopsWhere(h, v.cluster, pods, RunningIP(listed), calls, synced)
    ensures v.cluster.minio.namespace && (v.cluster.minio.deployment || v.cluster.minio.statefulSet) &&
            (forall p :: p in listed ==> !p.running) ==>
      EndOf(v, h).status == Failed && EndOf(v, h).cluster == v.cluster
  {
    RunningIPMeans(listed);
  }

  /** The calls that have succeeded when something of MinIO is gone, and when a migration completed. */
  lemma CallsThatSucceeded(v: View, h: History, pods: seq<Pod>, listed: seq<Pod>, calls: set<Call>, synced: bool)
    requires h.Ran? && v.status != Completed && Fits(v, h) && StopsWhere(h, v.cluster, pods, RunningIP(listed), calls, synced)
    ensures Deletes(v.cluster.minio, EndOf(v, h).cluster.minio) ==>
      && (exists p :: p in listed && p.running)
      && synced && calls !! {GetNamespace, ListPods, GetCredentials, GetRookService, GetRookSecret, DisableService}
      && calls !! {Update(Registry), Update(Velero), Update(Kotsadm), DeleteStatefulSet}
    ensures EndOf(v, h).status == Completed ==>
      && v.cluster.volumes.oldClass && calls !! {ScaleDown, MoveVolumes, DeleteClass, ScaleUp}
      && (InUse(v.cluster.minio) ==>
            && (exists p :: p in listed && p.running)
            && synced && calls !! {GetNamespace, ListPods, GetCredentials, GetRookService, GetRookSecret, DisableService}
            && calls !! {Update(Registry), Update(Velero), Update(Kotsadm), DeleteStatefulSet, DeleteDeployment, DeleteNamespace})
    ensures calls == {} && synced && v.cluster.volumes.oldClass && (InUse(v.cluster.minio) ==> RunningIP(listed) != "") ==>
      EndOf(v, h).status == Completed
  {
    RunningIPMeans(listed);
    if h.inUse == Some(true) && h.moved <= 5 {
      FewCallsDeleteNothing(v.cluster, h.source, h.mid, h.moved);
    }
  }

  class Migrator {
    var status: Status
    var pauses: Pauses
    var namespace: bool
    var deployment: bool
    var statefulSet: bool
    var service: Selector
    ghost var used: Pods
    var pods: seq<Pod>
    var haPods: seq<Pod>
    var onRook: set<Consumer>
    var volumes: Volumes
    const single: ObjectStore
    const ha: ObjectStore
    const rook: ObjectStore

    constructor (single: ObjectStore, ha: ObjectStore, rook: ObjectStore, v: View, pods: seq<Pod>, haPods: seq<Pod>)
      requires single != rook && ha != rook
      requires single.buckets == v.cluster.minio.single && ha.buckets == v.cluster.minio.ha && rook.buckets == v.cluster.rook
      ensures this.single == single && this.ha == ha && this.rook == rook && Valid() && Now(v.place) == v
    {
      this.single, this.ha, this.rook, this.pods, this.haPods := single, ha, rook, pods, haPods;
      status, pauses, onRook, volumes := v.status, v.pauses, v.cluster.onRook, v.cluster.volumes;
      namespace, deployment, statefulSet := v.cluster.minio.namespace, v.cluster.minio.deployment, v.cluster.minio.statefulSet;
      service, used := v.cluster.minio.service, v.cluster.minio.used;
    }

    predicate Valid() {
      single != rook && ha != rook
    }

    ghost function TheMinio(): Minio
      reads this, single, ha
    {
      Minio(namespace, deployment, statefulSet, service, used, single.buckets, ha.buckets)
    }

    ghost function TheCluster(): Cluster
      reads this, single, ha, rook
    {
      Cluster(TheMinio(), rook.buckets, onRook, volumes)
    }

    ghost function Now(place: Place): View
      reads this, single, ha, rook
    {
      View(place, status, pauses, TheCluster())
    }

    /** The address to copy from. */
    function SourceIP(): string
      reads this
    {
      RunningIP(if pods == [] then haPods else pods)
    }

    function Source(): Pods
      reads this
    {
      SourceOf(pods)
    }

    /** The store behind that address. */
    function SourceStore(): ObjectStore
      reads this
    {
      if Source() == OldPod then single else ha
    }

    method IsMinioInUse(faults: Faults) returns (r: Option<bool>)
      ensures r.Some? ==> r.value == InUse(TheMinio())
      ensures r == None <==> CannotTell(TheMinio(), faults.calls)
      ensures r.Some? ==> (r.value <==> namespace && (deployment || statefulSet))
      ensures faults.calls !! {GetNamespace, GetDeployment, GetStatefulSet} ==> r.Some?
      ensures GetNamespace in faults.calls ==> r == None
    {
      if GetNamespace in faults.calls {
        return None;
      }
      if !namespace {
        return Some(false);
      }
      if GetDeployment in faults.calls {
        return None;
      }
      if deployment {
        return Some(true);
      }
      if GetStatefulSet in faults.calls {
        return None;
      }
      return Some(statefulSet);
    }

    /** An address, and the store that answers there. */
    method FindPod(faults: Faults) returns (ip: string, store: ObjectStore)
      ensures ip != "" ==> ip == SourceIP() && store == SourceStore()
      ensures ip == "" <==> ListPods in faults.calls || SourceIP() == ""
      // the address is that of the first running pod of the list used
      ensures ip != "" ==>
        var listed := if pods == [] then haPods else pods;
        && store == (if pods == [] then ha else single)
        && exists i :: 0 <= i < |listed| && listed[i].running && listed[i].ip == ip && forall j :: 0 <= j < i ==> !listed[j].running
      ensures (forall p :: p in (if pods == [] then haPods else pods) ==> !p.running) ==> ip == ""
    {
      RunningIPMeans(if pods == [] then haPods else pods);
      ip, store := "", ha;
      if ListPods in faults.calls {
        return;
      }
      var listed := pods;
      store := single;
      if |pods| == 0 {
        listed := haPods;
        store := ha;
      }
      for i := 0 to |listed|
        invariant RunningIP(listed) == RunningIP(listed[i..])
      {
        assert listed[i..][0] == listed[i] && listed[i..][1..] == listed[i + 1..];
        if listed[i].running {
          return listed[i].ip, store;
        }
      }
    }

    /** Registry, Velero and kotsadm in this order, up to the first failure. */
    method UpdateConsumers(faults: Faults) returns (ok: bool)
      modifies this`onRook
      ensures ok <==> UpdatesDone(faults.calls) == 3
      ensures onRook == old(onRook) + (match UpdatesDone(faults.calls)
                                       case 0 => {}
                                       case 1 => {Registry}
                                       case 2 => {Registry, Velero}
                                       case _ => EVERYONE)
    {
      if Update(Registry) in faults.calls {
        return false;
      }
      onRook := onRook + {Registry};
      if Update(Velero) in faults.calls {
        return false;
      }
      onRook := onRook + {Velero};
      if Update(Kotsadm) in faults.calls {
        return false;
      }
      onRook := onRook + {Kotsadm};
      return true;
    }

    /** Nothing when MinIO is not in use. Otherwise `done` counts the calls under the pause that succeeded. */
    method MigrateObjectStorage(faults: Faults) returns (ok: bool, ghost inUse: Option<bool>, ghost done: nat, ghost synced: bool)
      requires Valid() && status == MovingObjects
      modifies this`pauses, this`namespace, this`deployment, this`statefulSet, this`service, this`pods, this`haPods, this`onRook, rook
      ensures done <= 8 && (ok <==> inUse.Some? && (inUse.value ==> done == 8))
      ensures inUse == None <==> CannotTell(old(TheMinio()), faults.calls)
      ensures inUse.Some? ==> inUse.value == old(InUse(TheMinio()))
      ensures inUse != Some(true) ==> TheCluster() == old(TheCluster()) && pauses == old(pauses)
      ensures inUse == Some(true) ==> pauses == old(pauses).(minio := false)
      ensures inUse == Some(true) ==> done == CallsDone(old(SourceIP()), faults.calls, synced)
      ensures inUse == Some(true) ==> TheCluster() == StoppedAt(old(TheCluster()), old(Source()), rook.buckets, done)
      ensures inUse == Some(true) && done == 1 ==> Partial(old(SourceStore().buckets), old(rook.buckets), rook.buckets)
      ensures faults.sync == {} ==> synced
    {
      done, synced := 0, true;
      var used := IsMinioInUse(faults);
      inUse := used;
      if used == None {
        return false, inUse, done, synced;
      }
      if !used.value {
        return true, inUse, done, synced;
      }
      pauses := pauses.(minio := true);
      ok, done, synced := MoveAndDelete(faults);
      pauses := pauses.(minio := false);
    }

    /** The part under the pause. */
    method MoveAndDelete(faults: Faults) returns (ok: bool, ghost done: nat, ghost synced: bool)
      requires Valid() && pauses.minio
      modifies this`namespace, this`deployment, this`statefulSet, this`service, this`pods, this`haPods, this`onRook, rook
      ensures done == CallsDone(old(SourceIP()), faults.calls, synced) && (ok <==> done == 8)
      ensures TheCluster() == StoppedAt(old(TheCluster()), old(Source()), rook.buckets, done)
      ensures done == 1 ==> Partial(old(SourceStore().buckets), old(rook.buckets), rook.buckets)
      ensures faults.sync == {} ==> synced
    {
      var ip, store := FindPod(faults);
      if ip == "" || GetCredentials in faults.calls || GetRookService in faults.calls || GetRookSecret in faults.calls
         || DisableService in faults.calls {
        return false, 0, true;
      }
      service := Nowhere;
      var counts, copied := SyncAllBuckets(store, rook, faults.sync);
      synced := copied;
      if !copied {
        return false, 1, false;
      }
      ghost var after := TheCluster();
      ok, done := SwitchAndDelete(faults, old(Source()));
      GoOnFromCopy(old(TheCluster()), after, old(Source()), done);
    }

    /** The part after the copy. */
    method SwitchAndDelete(faults: Faults, ghost source: Pods) returns (ok: bool, ghost done: nat)
      requires pauses.minio && service == Nowhere
      modifies this`namespace, this`deployment, this`statefulSet, this`pods, this`haPods, this`onRook
      ensures done == (if UpdatesDone(faults.calls) < 3 then 2 + UpdatesDone(faults.calls) else 5 + DeletesDone(faults.calls))
      ensures ok <==> done == 8
      ensures TheCluster() == MovedTo(old(TheCluster()), source, done).(rook := rook.buckets)
    {
      var updated := UpdateConsumers(faults);
      if !updated {
        return false, 2 + UpdatesDone(faults.calls);
      }
      AllThree(onRook);
      ghost var deletes;
      ok, deletes := DeleteMinio(faults, source);
      done := 5 + deletes;
    }

    method DeleteMinio(faults: Faults, ghost source: Pods) returns (ok: bool, ghost done: nat)
      requires service == Nowhere && onRook == EVERYONE
      modifies this`namespace, this`deployment, this`statefulSet, this`pods, this`haPods
      ensures done == DeletesDone(faults.calls) && (ok <==> done == 3)
      ensures TheCluster() == MovedTo(old(TheCluster()), source, 5 + done).(rook := rook.buckets)
    {
      if DeleteStatefulSet in faults.calls {
        return false, 0;
      }
      statefulSet, haPods := false, [];
      if DeleteDeployment in faults.calls {
        return false, 1;
      }
      deployment, pods := false, [];
      if DeleteNamespace in faults.calls {
        return false, 2;
      }
      namespace := false;
      return true, 3;
    }

    /** Deleting a storage class that is not there is an error, so this phase succeeds only once. */
    method MigrateStorageClasses(faults: Faults) returns (ok: bool, ghost done: nat)
      requires status == MovingVolumes
      modifies this`pauses, this`volumes
      ensures pauses == old(pauses).(prometheus := false, kotsadm := false)
      ensures done == VolumeCallsDone(old(volumes).oldClass, faults.calls) && (ok <==> done == 4)
      ensures volumes == VolumesTo(old(volumes), done)
    {
      pauses := pauses.(prometheus := true);
      pauses := pauses.(kotsadm := true);
      ok, done := MoveAllVolumes(faults);
      pauses := pauses.(kotsadm := false);
      pauses := pauses.(prometheus := false);
    }

    /** The part with both flags set. */
    method MoveAllVolumes(faults: Faults) returns (ok: bool, ghost done: nat)
      requires pauses.prometheus && pauses.kotsadm
      modifies this`volumes
      ensures done == VolumeCallsDone(old(volumes).oldClass, faults.calls) && (ok <==> done == 4)
      ensures volumes == VolumesTo(old(volumes), done)
    {
      if ScaleDown in faults.calls {
        return false, 0;
      }
      volumes := volumes.(prometheusReplicas := 0);
      if MoveVolumes in faults.calls {
        return false, 1;
      }
      volumes := volumes.(moved := true);
      if DeleteClass in faults.calls || !volumes.oldClass {
        return false, 2;
      }
      volumes := volumes.(oldClass := false);
      if ScaleUp in faults.calls {
        return false, 3;
      }
      volumes := volumes.(prometheusReplicas := 2);
      return true, 4;
    }

    /** One approved migration, under the lock. */
    method ObjectStorageAndPVCs(faults: Faults) returns (ghost h: History, ghost synced: bool)
      requires Valid() && pauses == Pauses(false, false, false)
      modifies this, rook
      // a walk of the machine that its failing calls decide, and that leaves nothing paused
      ensures Fits(old(Now(Locked)), h) && Now(Leaving) == EndOf(old(Now(Locked)), h)
      ensures h == AlreadyDone <==> old(status) == Completed
      ensures old(status) != Completed ==> (h == Unready(faults.ready) <==> faults.ready != Good)
      ensures h.Ran? ==> StopsWhere(h, old(TheCluster()), old(pods), old(SourceIP()), faults.calls, synced) && (faults.sync == {} ==> synced)
      // a completed migration is left alone, and a cluster that is not ready only gets the status
      ensures old(status) == Completed ==> TheCluster() == old(TheCluster()) && status == Completed
      ensures old(status) != Completed && faults.ready != Good ==>
        TheCluster() == old(TheCluster()) && status == (if faults.ready == Bad then Failed else NotReady)
      // when anything of MinIO goes, Rook has all objects of the pods found and every consumer uses Rook
      ensures Deletes(old(TheMinio()), TheMinio()) ==>
        rook.buckets == Overlay(old(SourceStore().buckets), old(rook.buckets)) && onRook == {Registry, Velero, Kotsadm}
      // so Rook has all that the clients used last, unless the pods found are others that do not hold it
      ensures Deletes(old(TheMinio()), TheMinio()) && old(Source()) == used ==> Moves.Contains(rook.buckets, StoreOf(old(TheMinio()), used))
      // a completed migration leaves MinIO out of use, and its namespace only if that was all there was
      ensures old(status) != Completed && status == Completed ==>
        && !(namespace && (deployment || statefulSet)) && (namespace <==> old(namespace && !deployment && !statefulSet))
        && volumes == Volumes(true, false, 2)
      // without a running pod to copy from nothing is changed
      ensures old(status) != Completed && faults.ready == Good && old(namespace && (deployment || statefulSet)) &&
              (forall p :: p in old(if pods == [] then haPods else pods) ==> !p.running) ==>
        && status == Failed && onRook == old(onRook) && volumes == old(volumes)
        && (namespace, deployment, statefulSet, service, used) == old((namespace, deployment, statefulSet, service, used))
        && (single.buckets, ha.buckets, rook.buckets) == old((single.buckets, ha.buckets, rook.buckets))
      // what is gone, and what is complete, has been through all its calls
      ensures (old(statefulSet) && !statefulSet) || (old(deployment) && !deployment) || (old(namespace) && !namespace) ==>
        && (exists p :: p in old(if pods == [] then haPods else pods) && p.running)
        && synced && faults.calls !! {GetNamespace, ListPods, GetCredentials, GetRookService, GetRookSecret, DisableService}
        && faults.calls !! {Update(Registry), Update(Velero), Update(Kotsadm), DeleteStatefulSet}
      ensures old(status) != Completed && status == Completed ==>
        && faults.ready == Good && old(volumes).oldClass && faults.calls !! {ScaleDown, MoveVolumes, DeleteClass, ScaleUp}
        && (old(namespace && (deployment || statefulSet)) ==>
              && (exists p :: p in old(if pods == [] then haPods else pods) && p.running)
              && synced && faults.calls !! {GetNamespace, ListPods, GetCredentials, GetRookService, GetRookSecret, DisableService}
              && faults.calls !! {Update(Registry), Update(Velero), Update(Kotsadm), DeleteStatefulSet, DeleteDeployment, DeleteNamespace})
      // and without failures a first running pod with an address is all that a MinIO in use needs
      ensures old(status) != Completed && faults == Faults(Good, {}, {}) && old(volumes).oldClass &&
              (old(namespace && (deployment || statefulSet)) ==> old(SourceIP()) != "") ==>
        status == Completed
    {
      if status == Completed {
        return AlreadyDone, true;
      }
      if faults.ready != Good {
        status := if faults.ready == Bad then Failed else NotReady;
        return Unready(faults.ready), true;
      }
      h, synced := MoveWhenReady(faults);
    }

    /** A migration that found the cluster ready, and what its failing calls mean for it. */
    method MoveWhenReady(faults: Faults) returns (ghost h: History, ghost synced: bool)
      requires Valid() && pauses == Pauses(false, false, false) && status != Completed
      modifies this, rook
      ensures h.Ran? && Fits(old(Now(Locked)), h) && Now(Leaving) == EndOf(old(Now(Locked)), h)
      ensures StopsWhere(h, old(TheCluster()), old(pods), old(SourceIP()), faults.calls, synced) && (faults.sync == {} ==> synced)
      // when anything of MinIO goes, Rook has all objects of the pods found and every consumer uses Rook
      ensures Deletes(old(TheMinio()), TheMinio()) ==>
        rook.buckets == Overlay(old(SourceStore().buckets), old(rook.buckets)) && onRook == {Registry, Velero, Kotsadm}
      // so Rook has all that the clients used last, unless the pods found are others that do not hold it
      ensures Deletes(old(TheMinio()), TheMinio()) && old(Source()) == used ==> Moves.Contains(rook.buckets, StoreOf(old(TheMinio()), used))
      // a completed migration leaves MinIO out of use, and its namespace only if that was all there was
      ensures status == Completed ==>
        && !(namespace && (deployment || statefulSet)) && (namespace <==> old(namespace && !deployment && !statefulSet))
        && volumes == Volumes(true, false, 2)
      // without a running pod to copy from nothing is changed
      ensures old(namespace && (deployment || statefulSet)) &&
              (forall p :: p in old(if pods == [] then haPods else pods) ==> !p.running) ==>
        && status == Failed && onRook == old(onRook) && volumes == old(volumes)
        && (namespace, deployment, statefulSet, service, used) == old((namespace, deployment, statefulSet, service, used))
        && (single.buckets, ha.buckets, rook.buckets) == old((single.buckets, ha.buckets, rook.buckets))
      // what is gone, and what is complete, has been through all its calls
      ensures (old(statefulSet) && !statefulSet) || (old(deployment) && !deployment) || (old(namespace) && !namespace) ==>
        && (exists p :: p in old(if pods == [] then haPods else pods) && p.running)
        && synced && faults.calls !! {GetNamespace, ListPods, GetCredentials, GetRookService, GetRookSecret, DisableService}
        && faults.calls !! {Update(Registry), Update(Velero), Update(Kotsadm), DeleteStatefulSet}
      ensures status == Completed ==>
        && old(volumes).oldClass && faults.calls !! {ScaleDown, MoveVolumes, DeleteClass, ScaleUp}
        && (old(namespace && (deployment || statefulSet)) ==>
              && (exists p :: p in old(if pods == [] then haPods else pods) && p.running)
              && synced && faults.calls !! {GetNamespace, ListPods, GetCredentials, GetRookService, GetRookSecret, DisableService}
              && faults.calls !! {Update(Registry), Update(Velero), Update(Kotsadm), DeleteStatefulSet, DeleteDeployment, DeleteNamespace})
      // and without failures a first running pod with an address is all that a MinIO in use needs
      ensures faults.calls == {} && faults.sync == {} && old(volumes).oldClass &&
              (old(namespace && (deployment || statefulSet)) ==> old(SourceIP()) != "") ==>
        status == Completed
    {
      ghost var v, listed := Now(Locked), if pods == [] then haPods else pods;
      h, synced := MovePhases(faults);
      NothingToCopyFrom(v, h, old(pods), listed, faults.calls, synced);
      CallsThatSucceeded(v, h, old(pods), listed, faults.calls, synced);
      if Deletes(old(TheMinio()), TheMinio()) {
        Moves.OverlayContains(old(SourceStore().buckets), old(rook.buckets));
        DeletesAfterMove(old(TheCluster()), h);
      }
      if status == Completed {
        CompletedLeavesNamespaceIff(old(Now(Locked)), h);
      }
    }

    /** The two phases of a migration that found the cluster ready. */
    method MovePhases(faults: Faults) returns (ghost h: History, ghost synced: bool)
      requires Valid() && pauses == Pauses(false, false, false) && status != Completed
      modifies this, rook
      ensures h.Ran? && Fits(old(Now(Locked)), h)
      ensures status == StatusOf(old(status), h) && pauses == old(pauses) && TheCluster() == ClusterOf(old(TheCluster()), h)
      ensures StopsWhere(h, old(TheCluster()), old(pods), old(SourceIP()), faults.calls, synced) && (faults.sync == {} ==> synced)
    {
      status := MovingObjects;
      var ok;
      ok, h, synced := ObjectPhase(faults);
      if !ok {
        status := Failed;
        return;
      }
      status := MovingVolumes;
      h := VolumePhase(faults, h, old(Now(Locked)));
    }

    /** The second phase, which goes on from a history of the first. */
    method VolumePhase(faults: Faults, ghost h: History, ghost v: View) returns (ghost k: History)
      requires status == MovingVolumes && h.Ran? && h.volumes == 0 && ObjectsMoved(h) && Fits(v, h)
      requires TheCluster() == ClusterOf(v.cluster, h) && pauses == Pauses(false, false, false)
      modifies this`status, this`pauses, this`volumes
      ensures k == h.(volumes := VolumeCallsDone(v.cluster.volumes.oldClass, faults.calls)) && Fits(v, k)
      ensures status == StatusOf(v.status, k) && pauses == old(pauses) && TheCluster() == ClusterOf(v.cluster, k)
    {
      ghost var done;
      var ok;
      ok, done := MigrateStorageClasses(faults);
      status := if ok then Completed else Failed;
      VolumesFit(v, h, done, faults.calls);
      k := h.(volumes := done);
    }

    /** The first phase, with its history. */
    method ObjectPhase(faults: Faults) returns (ok: bool, ghost h: History, ghost synced: bool)
      requires Valid() && pauses == Pauses(false, false, false) && status == MovingObjects
      modifies this`pauses, this`namespace, this`deployment, this`statefulSet, this`service, this`pods, this`haPods, this`onRook, rook
      ensures h.Ran? && h.volumes == 0 && Fits(old(Now(Locked)), h) && (ok <==> ObjectsMoved(h))
      ensures pauses == old(pauses) && TheCluster() == ClusterOf(old(TheCluster()), h)
      ensures h.inUse == None <==> CannotTell(old(TheMinio()), faults.calls)
      ensures h.inUse == Some(true) ==> h.source == old(Source()) && h.moved == CallsDone(old(SourceIP()), faults.calls, synced)
      ensures faults.sync == {} ==> synced
    {
      ghost var inUse, moved;
      ghost var source := Source();
      ok, inUse, moved, synced := MigrateObjectStorage(faults);
      h := Ran(inUse, source, moved, rook.buckets, 0);
    }
  }

  lemma VolumesFit(v: View, h: History, done: nat, calls: set<Call>)
    requires h.Ran? && h.volumes == 0 && ObjectsMoved(h) && Fits(v, h) && done == VolumeCallsDone(v.cluster.volumes.oldClass, calls)
    ensures Fits(v, h.(volumes := done))
    ensures ClusterOf(v.cluster, h.(volumes := done)) == ClusterOf(v.cluster, h).(volumes := VolumesTo(v.cluster.volumes, done))
    ensures StatusOf(v.status, h.(volumes := done)) == if done == 4 then Completed else Failed
  {
  }

  lemma GoOnFromCopy(c: Cluster, copied: Cluster, source: Pods, done: nat)
    requires copied == MovedTo(c, source, 2) && 2 <= done <= 8
    ensures MovedTo(copied, source, done).(rook := copied.rook) == StoppedAt(c, source, copied.rook, done)
  {
  }

  lemma DeletesAfterMove(c: Cluster, h: History)
    requires h.Ran? ==> h.moved <= 8
    requires Deletes(c.minio, ClusterOf(c, h).minio)
    ensures h.Ran? && ClusterOf(c, h).rook == Overlay(StoreOf(c.minio, h.source), c.rook) && ClusterOf(c, h).onRook == EVERYONE
  {
    assert h.Ran? && h.inUse == Some(true);
    if h.moved <= 5 {
      FewCallsDeleteNothing(c, h.source, h.mid, h.moved);
    }
  }

  lemma FewCallsDeleteNothing(c: Cluster, source: Pods, mid: Store, done: nat)
    requires done <= 5
    ensures var n := StoppedAt(c, source, mid, done).minio;
            n.statefulSet == c.minio.statefulSet && n.deployment == c.minio.deployment && n.namespace == c.minio.namespace
  {
  }

  lemma CompletedLeavesNamespaceIff(v: View, h: History)
    requires Fits(v, h) && v.status != Completed && EndOf(v, h).status == Completed
    ensures var m, n := v.cluster.minio, EndOf(v, h).cluster.minio;
            !InUse(n) && (n.namespace <==> m.namespace && !m.deployment && !m.statefulSet)
    ensures EndOf(v, h).cluster.volumes == Volumes(true, false, 2)
  {
  }
}
