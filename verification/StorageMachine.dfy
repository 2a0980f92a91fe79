/**
 Moving storage from MinIO to Rook (pkg/migrate/storage.go) as a machine of threads: any number of approved
 migrations, of background MinIO reconciles (pkg/ekcoops/operator.go, reconcileMinio) and of writes by the
 consumers of the object store, interleaved at their calls. The pause flags are those of
 pkg/ekcoops/overrides/pause.go.
 */
module StorageMachine {
  import opened Prelude
  import opened ObjectSync
  import Clients = MinioMigration
  import opened Services

  datatype Status = NotStarted | NotReady | MovingObjects | MovingVolumes | Failed | Completed

  datatype Pauses = Pauses(minio: bool, prometheus: bool, kotsadm: bool)

  datatype Consumer = Registry | Velero | Kotsadm

  const EVERYONE: set<Consumer> := {Registry, Velero, Kotsadm}

  /** The pods that hold a store: the old single one, or those of the stateful set. */
  type Pods = p: Selector | p != Nowhere witness OldPod

  /** `single` is the store of the old pod and `ha` that of the stateful set. `used` are the pods that the service
      selected last, as long as they were there. */
  datatype Minio = Minio(namespace: bool, deployment: bool, statefulSet: bool, service: Selector, used: Pods, single: Store, ha: Store)

  /** `moved` tells whether pvmigrate has run to its end; `oldClass` is the storage class it moves from. */
  datatype Volumes = Volumes(moved: bool, oldClass: bool, prometheusReplicas: nat)

  /** `onRook` are the consumers that write to Rook; the others write to MinIO. */
  datatype Cluster = Cluster(minio: Minio, rook: Store, onRook: set<Consumer>, volumes: Volumes)

  /** What a copy has to do, one call for each. */
  datatype Item = NewBucket(bucket: string) | OneObject(bucket: string, key: string)

  /** Where a migration is, named by what it has done. The flag of the closing places tells success. */
  datatype Place =
    | Queued | Locked | Unchecked | Starting | Pausing
    | Preparing | Picked(source: Pods) | Frozen(source: Pods) | Copying(source: Pods, todo: set<Item>) | Switching(done: nat) | Redirected | StatefulSetGone | DeploymentGone | Resuming(ok: bool)
    | ObjectsEnd(ok: bool)
    | VolumesBegin | PrometheusHeld | BothHeld(done: nat) | Releasing(ok: bool) | KotsadmReleased(ok: bool)
    | VolumesEnd(ok: bool)
    | Leaving | Ended

  datatype Milestone = NothingToMove | DataCopied | ConsumersSwitched | MinioDeleted | VolumesMoved | MarkedCompleted

  /** One approved migration; `did` is its history. */
  datatype Migration = Migration(place: Place, did: set<Milestone>)

  /** A reconcile that found the stateful set, moving the old pod's data to it. */
  datatype Stage = Found | Syncing | Synced | Switched | Finishing

  /** One background reconcile: past the pause check, holding its mutex, managing the stateful set it found.
      `epoch` is how often MinIO had been paused when it passed the check. */
  datatype Reconcile = Fresh | Checked(epoch: nat) | Entered(epoch: nat) | Managing(epoch: nat, stage: Stage) | Gone

  /** The calls of a managing reconcile that matter here (pkg/cluster/minio.go). */
  datatype HaStep = RepairService | TurnOff | CopyPart(mid: Store) | CopyAll | TurnOn | DropDeployment

  /** `accepted` is the history of what the consumers have stored, in one store. */
  datatype State = State(migrations: seq<Migration>, reconciles: seq<Reconcile>, lock: Option<nat>, minioLock: Option<nat>,
                         status: Status, pauses: Pauses, epoch: nat, cluster: Cluster, accepted: Store)

  /** How the next call of a migration ends; `NotYet` is the cluster not being ready. */
  datatype Outcome = Good | Bad | NotYet

  datatype Action = Approve | Work(i: nat, outcome: Outcome) | Pick(i: nat, source: Pods) | Copy(i: nat, item: Item)
                  | Tick | CheckPause(r: nat) | TryLock(r: nat) | LookUp(r: nat) | Manage(r: nat, step: HaStep) | Leave(r: nat)
                  | Write(consumer: Consumer, op: Clients.Op)

  function StoreOf(m: Minio, pods: Pods): Store {
    if pods == OldPod then m.single else m.ha
  }

  /** The service selects pods that are there. */
  predicate Writable(m: Minio) {
    (m.service == OldPod && m.deployment) || (m.service == HaPods && m.statefulSet)
  }

  predicate InUse(m: Minio) {
    m.namespace && (m.deployment || m.statefulSet)
  }

  /** Something of MinIO is there in `m` and gone in `n`. */
  predicate Deletes(m: Minio, n: Minio) {
    (m.statefulSet && !n.statefulSet) || (m.deployment && !n.deployment) || (m.namespace && !n.namespace)
  }

  // ---------- a migration on its own ----------

  /** Whether the call that comes next can end like this: only the calls named here can fail, deleting the old
      storage class fails without it, a copy ends when nothing is left to do, and only the readiness check can
      find that it is too early. */
  predicate Possible(p: Place, v: Volumes, outcome: Outcome) {
    match outcome
    case Good => p != Ended && p != Preparing && (p.Copying? ==> p.todo == {}) && (p == BothHeld(2) ==> v.oldClass)
    case Bad => p == Unchecked || p == Starting || p == Preparing || p.Picked? || p.Frozen? || p.Copying? || p.Switching?
                || p == Redirected || p == StatefulSetGone || p == DeploymentGone || p.BothHeld?
    case NotYet => p == Unchecked
  }

  /** All buckets and objects of a store. */
  function Listing(src: Store): set<Item> {
    (set b | b in src :: NewBucket(b)) + (set b, k | b in src && k in src[b] :: OneObject(b, k))
  }

  /** Where a migration goes from `p`, with the status and the MinIO it finds. */
  function PlaceAfter(p: Place, status: Status, m: Minio, outcome: Outcome): Place {
    var good := outcome == Good;
    match p
    case Queued => Locked
    case Locked => if status == Completed then Leaving else Unchecked
    case Unchecked => if good then Starting else Leaving
    case Starting => if !good then ObjectsEnd(false) else if InUse(m) then Pausing else ObjectsEnd(true)
    case Pausing => Preparing
    // picking a pod, turning the service off, listing its store, copying, switching three consumers, three deletes
    case Preparing => Resuming(false)
    case Picked(source) => if good then Frozen(source) else Resuming(false)
    case Frozen(source) => if good then Copying(source, Listing(StoreOf(m, source))) else Resuming(false)
    case Copying(_, _) => if good then Switching(0) else Resuming(false)
    case Switching(done) => if !good then Resuming(false) else if done < 2 then Switching(done + 1) else Redirected
    case Redirected => if good then StatefulSetGone else Resuming(false)
    case StatefulSetGone => if good then DeploymentGone else Resuming(false)
    case DeploymentGone => Resuming(good)
    case Resuming(ok) => ObjectsEnd(ok)
    case ObjectsEnd(ok) => if ok then VolumesBegin else Leaving
    case VolumesBegin => PrometheusHeld
    case PrometheusHeld => BothHeld(0)
    // scaling down Prometheus, moving the volumes, deleting the storage class, scaling up
    case BothHeld(done) => if !good then Releasing(false) else if done < 3 then BothHeld(done + 1) else Releasing(true)
    case Releasing(ok) => KotsadmReleased(ok)
    case KotsadmReleased(ok) => VolumesEnd(ok)
    case VolumesEnd(_) => Leaving
    case Leaving => Ended
    case Ended => Ended
  }

  function StatusAfter(p: Place, status: Status, outcome: Outcome): Status {
    match p
    case Unchecked => if outcome == Good then MovingObjects else if outcome == Bad then Failed else NotReady
    case ObjectsEnd(ok) => if ok then MovingVolumes else Failed
    case VolumesEnd(ok) => if ok then Completed else Failed
    case _ => status
  }

  function PausesAfter(p: Place, pauses: Pauses): Pauses {
    match p
    case Pausing => pauses.(minio := true)
    case Resuming(_) => pauses.(minio := false)
    case VolumesBegin => pauses.(prometheus := true)
    case PrometheusHeld => pauses.(kotsadm := true)
    case Releasing(_) => pauses.(kotsadm := false)
    case KotsadmReleased(_) => pauses.(prometheus := false)
    case _ => pauses
  }

  function ConsumerAt(done: nat): Consumer {
    if done == 0 then Registry else if done == 1 then Velero else Kotsadm
  }

  /** What a successful call does to the cluster. */
  function ClusterAfter(p: Place, c: Cluster): Cluster {
    match p
    case Picked(_) => c.(minio := c.minio.(service := Nowhere))
    case Switching(done) => c.(onRook := c.onRook + {ConsumerAt(done)})
    case Redirected => c.(minio := c.minio.(statefulSet := false))
    case StatefulSetGone => c.(minio := c.minio.(deployment := false))
    case DeploymentGone => c.(minio := c.minio.(namespace := false, deployment := false, statefulSet := false, service := Nowhere))
    case BothHeld(done) => c.(volumes := VolumesAfter(done, c.volumes))
    case _ => c
  }

  function VolumesAfter(done: nat, v: Volumes): Volumes {
    if done == 0 then v.(prometheusReplicas := 0)
    else if done == 1 then v.(moved := true)
    else if done == 2 then v.(oldClass := false)
    else v.(prometheusReplicas := 2)
  }

  /** Recorded at the call that achieves it. */
  function Achieved(p: Place, inUse: bool): set<Milestone> {
    match p
    case Starting => if inUse then {} else {NothingToMove}
    case Copying(_, _) => {DataCopied}
    case Switching(done) => if done < 2 then {} else {ConsumersSwitched}
    case DeploymentGone => {MinioDeleted}
    case BothHeld(done) => if done < 3 then {} else {VolumesMoved}
    case VolumesEnd(ok) => if ok then {MarkedCompleted} else {}
    case _ => {}
  }

  /** One call of the copy, which reads the source as it is then. */
  predicate CanCopy(src: Store, rook: Store, item: Item) {
    item.OneObject? ==> item.bucket in src && item.key in src[item.bucket] && item.bucket in rook
  }

  function CopyItem(src: Store, rook: Store, item: Item): Store
    requires CanCopy(src, rook, item)
  {
    match item
    case NewBucket(b) => if b in rook then rook else rook[b := map[]]
    case OneObject(b, k) => rook[b := rook[b][k := src[b][k]]]
  }

  // ---------- a managing reconcile ----------

  /** The service is repaired when the deployment is gone, and the data moved while it is there. */
  ghost predicate CanManage(stage: Stage, m: Minio, step: HaStep) {
    match step
    case RepairService => stage == Found && !m.deployment && m.service == Nowhere
    case TurnOff => stage == Found && m.deployment
    case CopyPart(mid) => stage == Syncing && m.statefulSet && Partial(m.single, m.ha, mid)
    case CopyAll => stage == Syncing && m.statefulSet
    case TurnOn => stage == Synced
    case DropDeployment => stage == Switched
  }

  function StageAfter(stage: Stage, step: HaStep): Stage {
    match step
    case RepairService => Finishing
    case TurnOff => Syncing
    case CopyPart(_) => stage
    case CopyAll => Synced
    case TurnOn => Switched
    case DropDeployment => Finishing
  }

  function Managed(m: Minio, step: HaStep): Minio {
    match step
    case TurnOff => m.(service := Nowhere)
    case CopyPart(mid) => m.(ha := mid)
    case CopyAll => m.(ha := Overlay(m.single, m.ha))
    case DropDeployment => m.(deployment := false)
    case _ => m.(service := HaPods, used := if m.statefulSet then HaPods else m.used)
  }

  // ---------- all threads ----------

  ghost predicate Enabled(s: State, a: Action) {
    match a
    case Work(i, outcome) =>
      i < |s.migrations| && Possible(s.migrations[i].place, s.cluster.volumes, outcome)
      && (s.migrations[i].place == Queued ==> s.lock == None)
    case Pick(i, _) => i < |s.migrations| && s.migrations[i].place == Preparing
    case Copy(i, item) =>
      i < |s.migrations| && s.migrations[i].place.Copying? && item in s.migrations[i].place.todo
      && CanCopy(StoreOf(s.cluster.minio, s.migrations[i].place.source), s.cluster.rook, item)
    case CheckPause(r) => r < |s.reconciles| && s.reconciles[r] == Fresh
    case TryLock(r) => r < |s.reconciles| && s.reconciles[r].Checked?
    case LookUp(r) => r < |s.reconciles| && s.reconciles[r].Entered?
    case Manage(r, step) => r < |s.reconciles| && s.reconciles[r].Managing? && CanManage(s.reconciles[r].stage, s.cluster.minio, step)
    case Leave(r) => r < |s.reconciles| && Inside(s.reconciles[r])
    case Write(consumer, _) => consumer in s.cluster.onRook || Writable(s.cluster.minio)
    case _ => true
  }

  predicate Inside(r: Reconcile) {
    r.Entered? || r.Managing?
  }

  /** Migration `i` makes its next call. A call that fails leaves the cluster and the history as they are. */
  function Worked(s: State, i: nat, outcome: Outcome): State
    requires i < |s.migrations|
  {
    var m, p, minio := s.migrations[i], s.migrations[i].place, s.cluster.minio;
    var moved := Migration(PlaceAfter(p, s.status, minio, outcome),
                           if outcome == Good then m.did + Achieved(p, InUse(minio)) else m.did);
    State(s.migrations[i := moved], s.reconciles,
          if p == Queued then Some(i) else if p == Leaving then None else s.lock, s.minioLock,
          StatusAfter(p, s.status, outcome), PausesAfter(p, s.pauses), if p == Pausing then s.epoch + 1 else s.epoch,
          if outcome == Good then ClusterAfter(p, s.cluster) else s.cluster, s.accepted)
  }

  /** A write to MinIO reaches the pods that the service selects. */
  function WrittenTo(c: Cluster, consumer: Consumer, op: Clients.Op): Cluster {
    if consumer in c.onRook then c.(rook := Clients.Apply(c.rook, op))
    else if c.minio.service == OldPod then c.(minio := c.minio.(single := Clients.Apply(c.minio.single, op)))
    else c.(minio := c.minio.(ha := Clients.Apply(c.minio.ha, op)))
  }

  function Written(s: State, consumer: Consumer, op: Clients.Op): State {
    s.(accepted := Clients.Apply(s.accepted, op), cluster := WrittenTo(s.cluster, consumer, op))
  }

  function AtPlace(s: State, i: nat, place: Place): State
    requires i < |s.migrations|
  {
    s.(migrations := s.migrations[i := s.migrations[i].(place := place)])
  }

  function Next(s: State, a: Action): State
    requires Enabled(s, a)
  {
    match a
    case Approve => s.(migrations := s.migrations + [Migration(Queued, {})])
    case Work(i, outcome) => Worked(s, i, outcome)
    case Pick(i, source) => AtPlace(s, i, Picked(source))
    case Copy(i, item) =>
      var p := s.migrations[i].place;
      AtPlace(s, i, p.(todo := p.todo - {item})).(cluster := s.cluster.(rook := CopyItem(StoreOf(s.cluster.minio, p.source), s.cluster.rook, item)))
    case Tick => s.(reconciles := s.reconciles + [Fresh])
    case CheckPause(r) => s.(reconciles := s.reconciles[r := if s.pauses.minio then Gone else Checked(s.epoch)])
    case TryLock(r) =>
      if s.minioLock.Some? then s.(reconciles := s.reconciles[r := Gone])
      else s.(reconciles := s.reconciles[r := Entered(s.reconciles[r].epoch)], minioLock := Some(r))
    case LookUp(r) =>
      if s.cluster.minio.statefulSet then s.(reconciles := s.reconciles[r := Managing(s.reconciles[r].epoch, Found)])
      else s.(reconciles := s.reconciles[r := Gone], minioLock := None)
    case Manage(r, step) =>
      var m := s.reconciles[r];
      s.(reconciles := s.reconciles[r := Managing(m.epoch, StageAfter(m.stage, step))], cluster := s.cluster.(minio := Managed(s.cluster.minio, step)))
    case Leave(r) => s.(reconciles := s.reconciles[r := Gone], minioLock := None)
    case Write(consumer, op) => Written(s, consumer, op)
  }

  /** Whom the service selects, the clients use, as long as there are such pods. */
  predicate ServiceFits(m: Minio) {
    (m.service == OldPod ==> m.used == OldPod) && (m.service == HaPods && m.statefulSet ==> m.used == HaPods)
  }

  /** Before any thread exists. */
  predicate Initial(s: State) {
    s.migrations == [] && s.reconciles == [] && s.lock == None && s.minioLock == None
    && s.status == NotStarted && s.pauses == Pauses(false, false, false) && s.epoch == 0 && ServiceFits(s.cluster.minio)
  }

  ghost predicate Leads(s: State, schedule: seq<Action>, t: State) {
    if schedule == [] then s == t
    else
      var front, last := schedule[..|schedule| - 1], schedule[|schedule| - 1];
      exists m :: Leads(s, front, m) && Enabled(m, last) && t == Next(m, last)
  }

  lemma LeadsThen(s: State, schedule: seq<Action>, m: State, a: Action)
    requires Leads(s, schedule, m) && Enabled(m, a)
    ensures Leads(s, schedule + [a], Next(m, a))
  {
    assert (schedule + [a])[..|schedule + [a]| - 1] == schedule;
  }

  ghost predicate Reachable(s: State) {
    exists start, schedule :: Initial(start) && Leads(start, schedule, s)
  }

  lemma ReachableThen(s: State, a: Action)
    requires Reachable(s) && Enabled(s, a)
    ensures Reachable(Next(s, a))
  {
    var start, schedule :| Initial(start) && Leads(start, schedule, s);
    LeadsThen(start, schedule, s, a);
  }

  // ---------- the invariant ----------

  predicate Holds(p: Place) {
    p != Queued && p != Ended
  }

  predicate MinioHeld(p: Place) {
    p == Preparing || p.Picked? || p.Frozen? || p.Copying? || p.Switching? || p == Redirected || p == StatefulSetGone || p == DeploymentGone || p.Resuming?
  }

  predicate KotsadmHeld(p: Place) {
    p.BothHeld? || p.Releasing?
  }

  predicate PrometheusIsHeld(p: Place) {
    p == PrometheusHeld || p.KotsadmReleased? || KotsadmHeld(p)
  }

  predicate InVolumes(p: Place) {
    p == VolumesBegin || PrometheusIsHeld(p) || p.VolumesEnd?
  }

  predicate LocksValid(s: State) {
    && (s.lock.Some? ==> s.lock.value < |s.migrations|)
    && (s.minioLock.Some? ==> s.minioLock.value < |s.reconciles|)
    && (forall i :: 0 <= i < |s.migrations| ==> (Holds(s.migrations[i].place) <==> s.lock == Some(i)))
    && (forall r :: 0 <= r < |s.reconciles| ==> (Inside(s.reconciles[r]) <==> s.minioLock == Some(r)))
  }

  function Flags(p: Place): Pauses {
    Pauses(MinioHeld(p), PrometheusIsHeld(p), KotsadmHeld(p))
  }

  function HolderPlace(s: State): Place {
    if s.lock.Some? && s.lock.value < |s.migrations| then s.migrations[s.lock.value].place else Ended
  }

  /** Each flag is set exactly while the migration with the lock is in the part of its phase that holds it. */
  predicate PausesValid(s: State) {
    s.pauses == Flags(HolderPlace(s))
  }

  /** A reconcile past its check passed it before the pause that is now in force. */
  predicate EpochsValid(s: State) {
    forall r :: 0 <= r < |s.reconciles| && (s.reconciles[r].Checked? || Inside(s.reconciles[r]))
      ==> if s.pauses.minio then s.reconciles[r].epoch < s.epoch else s.reconciles[r].epoch <= s.epoch
  }

  predicate ObjectsDone(did: set<Milestone>) {
    NothingToMove in did || {DataCopied, ConsumersSwitched, MinioDeleted} <= did
  }

  /** The history of one migration fits its place. */
  predicate Recorded(m: Migration) {
    && (MarkedCompleted in m.did ==> ObjectsDone(m.did) && VolumesMoved in m.did)
    && (m.place.Switching? ==> DataCopied in m.did)
    && (m.place == Redirected || m.place == StatefulSetGone || m.place == DeploymentGone ==> {DataCopied, ConsumersSwitched} <= m.did)
    && (m.place == Resuming(true) || m.place == ObjectsEnd(true) || InVolumes(m.place) ==> ObjectsDone(m.did))
    && (m.place == Releasing(true) || m.place == KotsadmReleased(true) || m.place == VolumesEnd(true) ==> VolumesMoved in m.did)
  }

  predicate RecordsValid(s: State) {
    forall i :: 0 <= i < |s.migrations| ==> Recorded(s.migrations[i])
  }

  /** What a migration at `p` has made of the cluster. */
  predicate Reached(p: Place, c: Cluster) {
    ReachedObjects(p, c) && ReachedVolumes(p, c.volumes)
  }

  predicate ReachedObjects(p: Place, c: Cluster) {
    && (p.Switching? ==> p.done <= 2 && forall k :: 0 <= k < p.done ==> ConsumerAt(k) in c.onRook)
    && (p == Redirected || p == StatefulSetGone || p == DeploymentGone ==> c.onRook == EVERYONE)
    && (p == StatefulSetGone || p == DeploymentGone ==> !c.minio.statefulSet)
    && (p == DeploymentGone ==> !c.minio.deployment)
    && (p == Resuming(true) || p == ObjectsEnd(true) || InVolumes(p) ==> !InUse(c.minio))
  }

  predicate ReachedVolumes(p: Place, v: Volumes) {
    && (p.BothHeld? ==> p.done <= 3)
    && (p.BothHeld? && p.done >= 2 ==> v.moved)
    && (p.BothHeld? && p.done >= 3 ==> VolumesDone(v))
    && (p == Releasing(true) || p == KotsadmReleased(true) || p == VolumesEnd(true) ==> VolumesDone(v))
  }

  predicate VolumesDone(v: Volumes) {
    v.moved && !v.oldClass
  }

  predicate ClusterValid(s: State) {
    Reached(HolderPlace(s), s.cluster) && (s.status == Completed ==> !InUse(s.cluster.minio) && VolumesDone(s.cluster.volumes))
  }

  predicate Marked(m: Migration) {
    MarkedCompleted in m.did
  }

  /** Some migration has set the status to completed. */
  predicate MarkedBySome(migrations: seq<Migration>) {
    exists i :: 0 <= i < |migrations| && Marked(migrations[i])
  }

  /** Once completed, the migration that holds the lock has not gone past its own check. */
  predicate StatusValid(s: State) {
    s.status == Completed ==> MarkedBySome(s.migrations) && HolderPlace(s) in {Locked, Leaving, Ended}
  }

  /** While a reconcile moves data to the stateful set the service stays off. */
  predicate ServiceValid(s: State) {
    && ServiceFits(s.cluster.minio)
    && forall r :: 0 <= r < |s.reconciles| && s.reconciles[r].Managing? && (s.reconciles[r].stage == Syncing || s.reconciles[r].stage == Synced)
         ==> s.cluster.minio.service == Nowhere
  }

  predicate Valid(s: State) {
    ServiceValid(s) && LocksValid(s) && PausesValid(s) && EpochsValid(s) && RecordsValid(s) && ClusterValid(s) && StatusValid(s)
  }

  // ---------- a step of a migration keeps it ----------

  /** Setting and clearing the flags along the way agrees with where they have to be set. */
  lemma FlagsFollow(p: Place, v: Volumes, status: Status, minio: Minio, outcome: Outcome)
    requires Possible(p, v, outcome)
    ensures PausesAfter(p, Flags(p)) == Flags(PlaceAfter(p, status, minio, outcome))
    ensures Holds(PlaceAfter(p, status, minio, outcome)) <==> p != Leaving
  {
  }

  lemma RecordFollows(m: Migration, v: Volumes, status: Status, minio: Minio, outcome: Outcome)
    requires Recorded(m) && Possible(m.place, v, outcome)
    ensures Recorded(Migration(PlaceAfter(m.place, status, minio, outcome),
                               if outcome == Good then m.did + Achieved(m.place, InUse(minio)) else m.did))
  {
  }

  lemma ClusterFollows(p: Place, c: Cluster, status: Status, outcome: Outcome)
    requires Reached(p, c) && Possible(p, c.volumes, outcome)
    ensures Reached(PlaceAfter(p, status, c.minio, outcome), if outcome == Good then ClusterAfter(p, c) else c)
  {
    ObjectsFollow(p, c, status, outcome);
    VolumesFollow(p, c, status, outcome);
  }

  lemma VolumesFollow(p: Place, c: Cluster, status: Status, outcome: Outcome)
    requires ReachedVolumes(p, c.volumes) && Possible(p, c.volumes, outcome)
    ensures ReachedVolumes(PlaceAfter(p, status, c.minio, outcome), (if outcome == Good then ClusterAfter(p, c) else c).volumes)
  {
  }

  lemma ObjectsFollow(p: Place, c: Cluster, status: Status, outcome: Outcome)
    requires ReachedObjects(p, c) && Possible(p, c.volumes, outcome)
    ensures ReachedObjects(PlaceAfter(p, status, c.minio, outcome), if outcome == Good then ClusterAfter(p, c) else c)
  {
    if p.Switching? && outcome == Good {
      SwitchFollows(p.done, c, status);
    }
  }

  lemma SwitchFollows(done: nat, c: Cluster, status: Status)
    requires ReachedObjects(Switching(done), c)
    ensures ReachedObjects(PlaceAfter(Switching(done), status, c.minio, Good), ClusterAfter(Switching(done), c))
  {
    if done == 2 {
      assert ConsumerAt(0) in c.onRook && ConsumerAt(1) in c.onRook;
      AllThree(c.onRook + {Kotsadm});
    }
  }

  lemma AllThree(consumers: set<Consumer>)
    requires EVERYONE <= consumers
    ensures consumers == EVERYONE
  {
    forall c | c in consumers ensures c in EVERYONE {
      assert c == Registry || c == Velero || c == Kotsadm;
    }
  }

  lemma CompletingFollows(p: Place, c: Cluster, status: Status, outcome: Outcome)
    requires Reached(p, c) && Possible(p, c.volumes, outcome)
    requires status == Completed ==> !InUse(c.minio) && VolumesDone(c.volumes) && p in {Queued, Locked, Leaving}
    ensures StatusAfter(p, status, outcome) == Completed ==>
              var d := if outcome == Good then ClusterAfter(p, c) else c;
              !InUse(d.minio) && VolumesDone(d.volumes) && PlaceAfter(p, status, c.minio, outcome) in {Locked, Leaving, Ended}
  {
  }

  lemma WorkKeepsLocks(s: State, i: nat, outcome: Outcome)
    requires LocksValid(s) && PausesValid(s) && Enabled(s, Work(i, outcome))
    ensures var t := Worked(s, i, outcome);
            && LocksValid(t) && PausesValid(t)
            && HolderPlace(t) == if s.migrations[i].place == Leaving then Ended
                                 else PlaceAfter(s.migrations[i].place, s.status, s.cluster.minio, outcome)
  {
    FlagsFollow(s.migrations[i].place, s.cluster.volumes, s.status, s.cluster.minio, outcome);
  }

  lemma WorkKeepsRecords(s: State, i: nat, outcome: Outcome)
    requires RecordsValid(s) && Enabled(s, Work(i, outcome))
    ensures RecordsValid(Worked(s, i, outcome))
  {
    RecordFollows(s.migrations[i], s.cluster.volumes, s.status, s.cluster.minio, outcome);
  }

  lemma MarkStays(migrations: seq<Migration>, i: nat, m: Migration)
    requires i < |migrations| && migrations[i].did <= m.did && MarkedBySome(migrations)
    ensures MarkedBySome(migrations[i := m])
  {
    var j :| 0 <= j < |migrations| && Marked(migrations[j]);
    assert Marked(migrations[i := m][j]);
  }

  lemma WorkKeepsMark(s: State, i: nat, outcome: Outcome)
    requires Enabled(s, Work(i, outcome)) && (s.status == Completed ==> MarkedBySome(s.migrations))
    ensures Worked(s, i, outcome).status == Completed ==> MarkedBySome(Worked(s, i, outcome).migrations)
  {
    var t := Worked(s, i, outcome);
    if s.status == Completed {
      MarkStays(s.migrations, i, t.migrations[i]);
    } else if t.status == Completed {
      assert Marked(t.migrations[i]);
    }
  }

  lemma WorkKeepsCluster(s: State, i: nat, outcome: Outcome)
    requires LocksValid(s) && PausesValid(s) && ClusterValid(s) && StatusValid(s) && Enabled(s, Work(i, outcome))
    ensures ClusterValid(Worked(s, i, outcome))
    ensures Worked(s, i, outcome).status == Completed ==> HolderPlace(Worked(s, i, outcome)) in {Locked, Leaving, Ended}
  {
    var p := s.migrations[i].place;
    assert p != Queued ==> HolderPlace(s) == p;
    WorkKeepsLocks(s, i, outcome);
    if p != Queued {
      ClusterFollows(p, s.cluster, s.status, outcome);
      CompletingFollows(p, s.cluster, s.status, outcome);
    }
  }

  lemma WorkKeepsEpochs(s: State, i: nat, outcome: Outcome)
    requires PausesValid(s) && LocksValid(s) && EpochsValid(s) && Enabled(s, Work(i, outcome))
    ensures EpochsValid(Worked(s, i, outcome))
  {
    var p := s.migrations[i].place;
    assert PausesAfter(p, s.pauses).minio && p != Pausing ==> s.pauses.minio;
  }

  lemma WorkKeepsValid(s: State, i: nat, outcome: Outcome)
    requires Valid(s) && Enabled(s, Work(i, outcome))
    ensures Valid(Worked(s, i, outcome))
  {
    WorkKeepsLocks(s, i, outcome);
    WorkKeepsRecords(s, i, outcome);
    WorkKeepsMark(s, i, outcome);
    WorkKeepsCluster(s, i, outcome);
    WorkKeepsEpochs(s, i, outcome);
    WorkKeepsService(s, i, outcome);
  }

  lemma WorkKeepsService(s: State, i: nat, outcome: Outcome)
    requires ServiceValid(s) && Enabled(s, Work(i, outcome))
    ensures ServiceValid(Worked(s, i, outcome))
  {
  }

  // ---------- every other step keeps it ----------

  lemma ApproveKeepsLocks(s: State)
    requires LocksValid(s) && RecordsValid(s)
    ensures LocksValid(Next(s, Approve)) && RecordsValid(Next(s, Approve)) && HolderPlace(Next(s, Approve)) == HolderPlace(s)
  {
    var t := Next(s, Approve);
    assert t.migrations[|s.migrations|] == Migration(Queued, {});
    forall i | 0 <= i < |s.migrations| ensures t.migrations[i] == s.migrations[i] {
    }
  }

  lemma ApproveKeepsMark(s: State)
    requires MarkedBySome(s.migrations)
    ensures MarkedBySome(Next(s, Approve).migrations)
  {
    var j :| 0 <= j < |s.migrations| && Marked(s.migrations[j]);
    assert Marked(Next(s, Approve).migrations[j]);
  }

  lemma ApproveKeepsValid(s: State)
    requires Valid(s)
    ensures Valid(Next(s, Approve))
  {
    ApproveKeepsLocks(s);
    if s.status == Completed {
      ApproveKeepsMark(s);
    }
  }

  predicate ReconcilesValid(s: State) {
    && (s.minioLock.Some? ==> s.minioLock.value < |s.reconciles|)
    && (forall r :: 0 <= r < |s.reconciles| ==> (Inside(s.reconciles[r]) <==> s.minioLock == Some(r)))
    && EpochsValid(s)
  }

  lemma ReconcileStep(s: State, a: Action)
    requires ReconcilesValid(s) && Enabled(s, a) && (a.Tick? || a.CheckPause? || a.TryLock? || a.LookUp? || a.Leave?)
    ensures ReconcilesValid(Next(s, a))
    ensures ServiceValid(s) ==> ServiceValid(Next(s, a))
  {
  }

  lemma ReconcileKeepsValid(s: State, a: Action)
    requires Valid(s) && Enabled(s, a) && (a.Tick? || a.CheckPause? || a.TryLock? || a.LookUp? || a.Leave?)
    ensures Valid(Next(s, a))
  {
    ReconcileStep(s, a);
    OnlyReconciles(s, Next(s, a));
  }

  /** Nothing else depends on the reconciles. */
  lemma OnlyReconciles(s: State, t: State)
    requires Valid(s) && ReconcilesValid(t) && ServiceValid(t) && t == s.(reconciles := t.reconciles, minioLock := t.minioLock)
    ensures Valid(t)
  {
    assert HolderPlace(t) == HolderPlace(s);
  }

  /** Picking a pod and copying an item stay in the part of the phase that is paused. */
  lemma CopyStepKeepsValid(s: State, a: Action)
    requires Valid(s) && Enabled(s, a) && (a.Pick? || a.Copy?)
    ensures Valid(Next(s, a))
  {
    var t := Next(s, a);
    var p, q := s.migrations[a.i].place, t.migrations[a.i].place;
    assert HolderPlace(s) == p && HolderPlace(t) == q;
    assert Flags(q) == Flags(p);
    assert Recorded(t.migrations[a.i]);
  }

  lemma WriteKeepsValid(s: State, consumer: Consumer, op: Clients.Op)
    requires Valid(s) && Enabled(s, Write(consumer, op))
    ensures Valid(Written(s, consumer, op))
  {
    assert HolderPlace(Written(s, consumer, op)) == HolderPlace(s);
  }

  lemma ManageKeepsReconciles(s: State, r: nat, step: HaStep)
    requires ReconcilesValid(s) && ServiceValid(s) && Enabled(s, Manage(r, step))
    ensures ReconcilesValid(Next(s, Manage(r, step))) && ServiceValid(Next(s, Manage(r, step)))
  {
  }

  lemma ManageKeepsValid(s: State, r: nat, step: HaStep)
    requires Valid(s) && Enabled(s, Manage(r, step))
    ensures Valid(Next(s, Manage(r, step)))
  {
    var t := Next(s, Manage(r, step));
    ManageKeepsReconciles(s, r, step);
    assert HolderPlace(t) == HolderPlace(s);
    assert t == s.(reconciles := t.reconciles, cluster := t.cluster);
  }

  lemma StepKeepsValid(s: State, a: Action)
    requires Valid(s) && Enabled(s, a)
    ensures Valid(Next(s, a))
  {
    match a
    case Work(i, outcome) => WorkKeepsValid(s, i, outcome);
    case Approve => ApproveKeepsValid(s);
    case Pick(_, _) | Copy(_, _) => CopyStepKeepsValid(s, a);
    case Manage(r, step) => ManageKeepsValid(s, r, step);
    case Write(consumer, op) => WriteKeepsValid(s, consumer, op);
    case _ => ReconcileKeepsValid(s, a);
  }

  lemma {:induction false} RunsAreValid(s: State, schedule: seq<Action>, t: State)
    requires Valid(s) && Leads(s, schedule, t)
    ensures Valid(t)
  {
    if schedule != [] {
      var front, last := schedule[..|schedule| - 1], schedule[|schedule| - 1];
      var m :| Leads(s, front, m) && Enabled(m, last) && t == Next(m, last);
      RunsAreValid(s, front, m);
      StepKeepsValid(m, last);
    }
  }

  lemma ReachableValid(s: State)
    requires Reachable(s)
    ensures Valid(s)
  {
    var start, schedule :| Initial(start) && Leads(start, schedule, s);
    assert Valid(start);
    RunsAreValid(start, schedule, s);
  }
}
