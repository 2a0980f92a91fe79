# EKCO reconcile protocols

EKCO keeps a Kubernetes cluster in shape by reconcile loops: each pass reads cluster state, makes a few guarded
writes, may stop at any failing call, and is run again. This project models those loops and proves what every
pass and every run of passes keeps, whatever fails. `dafny verify dfyconfig.toml` checks all of it.

How the model is built:

- Cluster state is plain state: the fields of classes where the program updates objects in place, records and
  maps elsewhere. YAML and JSON documents are records and trees with optional keys.
- Every call that can fail is a value of a `Call` or `Fault` type, and a pass takes the set of calls that fail
  in it. A write that takes effect but is reported as failed is the same as a pass stopped right after it.
- Each method is proved against a specification (a function of the old state, or a relation), and the theorems
  about runs are about those specifications.
- Map iteration and listing orders are arbitrary choices, so results hold for every order.
- Goroutines are machines of atomic steps, and theorems hold for every schedule.
- Clocks, node lists, probe answers and scheduling results are parameters.

The modules, by component:

| component | modules |
|---|---|
| shared vocabulary, nodes and their readiness | `Prelude`, `Services`, `Nodes` |
| MinIO rebalancer | `Loads`, `MinioRebalance`, `MinioBalance` |
| object-store copy and the move to HA MinIO | `ObjectSync`, `MinioMigration` |
| storage migration to Rook | `StorageMachine`, `StorageSafety`, `StorageStores`, `StorageLossless`, `StorageLosses`, `StorageCopy`, `StorageWalks`, `StorageMigration` |
| node purge | `KubeadmStatus`, `NodePurge`, `PurgeSafety`, `NodeReconcile`, `NodeSafety` |
| Ceph replication | `JsonPatch`, `CephReplication`, `CephRatchet` |
| internal load balancer | `Fingerprint`, `InternalLB`, `Sighup` |
| Contour certificates, poll loop, rotation throttle | `ContourCerts`, `Poll` |

Some things one would expect are not true of the code. For each there is a theorem that says exactly when it holds:

- Repeating the move to HA MinIO after the deployment delete failed copies old objects over newer ones. The
  accepted writes survive if and only if the HA store still contains every old object unchanged
  (`MinioMigration.RepeatedPassKeepsWritesIff`, with a run in `FailedDeleteRevertsWrite`).
- A storage migration copies from the old pod as long as one is listed, also after the service has moved to the
  stateful set, and repeating one that failed after switching some consumers copies over what these have written
  to Rook since. A migration that nobody disturbs keeps the accepted writes if and only if Rook still holds every
  object of the pods copied from for the consumers switched before, and these pods over Rook are what the other
  consumers used last (`StorageLosses.UndisturbedKeepsIff`, with runs from the start in `MigratesTheOldPod` and
  `RepeatedMigrationReverts`).
- The pause of MinIO does not keep out a reconcile that read the flag before. When the service goes off, no
  schedule can lose an accepted write before MinIO is deleted if and only if, besides, the pods copied from hold
  no bucket of a consumer switched before, and no such reconcile can turn the service on again for a consumer that
  still uses MinIO or bring old data to the pods copied from (`StorageLosses.LosslessIff`, with a reachable overlap
  in `OverlapIsReachable`).
- A completed storage migration leaves the MinIO namespace behind exactly when it found it already emptied
  (`StorageMigration.CompletedLeavesNamespaceIff`). The old storage class can be deleted once: without it no
  migration completes, under any schedule of any number of approvals (`StorageSafety.NeverCompletesWithoutClass`),
  and one that meets no failure completes exactly with it and a pod to copy from (`StorageMigration.CompletesIff`).
- A purge, stopped anywhere and retried, always ends with the etcd member removed if and only if the member is gone
  already, or the Node object is there as a control-plane node with the member's address, and the kubeadm list has
  that address or none (`PurgeSafety.RetrySafeIff`).
- The guards of both purges see the nodes as listed. A pass over any list takes from a role the nodes that are
  ready by now, listed as dead and purged without failure, and the role drops below its minimum if and only if
  these are more than it has above the minimum (`NodeSafety.StaleListDropsBelowIff`; for a manual purge
  `ManualPurgeDropsIff`, with two that interleave in `ManualPurgesInterleave`).
- A size missing from a Ceph resource makes the whole patch list fail (`CephReplication.RaisesMeaning`).
- A failed load balancer update followed by a return to the recorded nodes is not noticed; it is harmless if and
  only if it reached none of them or installed the same addresses (`InternalLB.FailedAttemptHarmlessIff`, with runs
  from an empty cache in `RevertWitness`).
- With new certificates that are not due at once, Contour's secrets heal after any failure if and only if Envoy's
  certificate does not expire last
  (`ContourCerts.SelfHealingIffEnvoyFirst`). A failed Envoy restart is made up for
  only by a later renewal that restarts it (`ContourCerts.RestartIsNotRetriedIff`).
- A stored rotation time that does not parse is never repaired, not even by a forced check (`Poll.MalformedForever`).

Where comments in the code and the code differ, the model follows the code: the guard that skips automatic purges
for too few workers also applies to masters (`pkg/ekcoops/operator.go:142`), and pool replication is documented
as going "up and down" while only the block pool ever goes down.

## Model

| member | source | states |
|---|---|---|
| `Nodes.NodeReadyCounts` | pkg/util/node.go:42-58 | the two counters are the numbers of ready masters and of ready workers |
| `Nodes.FirstInternalMeans` | pkg/util/node.go:60-67 | the address is the first entry of kind InternalIP, whatever other kinds come before it, and empty without one |
| `Nodes.ReadyCountRemove` | pkg/util/node.go:42-58 | taking one node out lowers by one exactly the count of the role that node is ready in, and nothing otherwise |
| `Nodes.ReadyHostsCounted` | pkg/util/node.go:42-67 | when ready nodes have different addresses, the number of ready nodes is the number of ready hosts |
| `MinioRebalance.GroupByHost` | pkg/cluster/minio.go:194-203 | the loop builds the map from each host that runs a pod to its pods in list order |
| `MinioRebalance.Scan` | pkg/cluster/minio.go:227-250 | each of the three scans, in any iteration order, finds the first pod of some host that its rule is about and that its probe allows, and none exactly when the probe refuses all of these |
| `MinioRebalance.Choose` | pkg/cluster/minio.go:194-252 | the three rules in order of priority; the pod picked is the first on its host and the probe of a rule about that host allows it; when none is picked, the probes refused the first pod of every host that a rule is about |
| `MinioRebalance.PickOnPods` | pkg/cluster/minio.go:227-250 | in terms of the listed pods: which pod any iteration order may pick, and what the probes refused when none is |
| `MinioRebalance.FirstStuckMeans` | pkg/cluster/minio.go:180-192 | the pod taken first is the first pending one with a condition PodScheduled that has been false for more than 300 seconds; none if and only if there is no such pod |
| `MinioRebalance.ClaimNameMeans` | pkg/cluster/minio.go:271-280 | the claim is that of the last volume that has one, and empty without one |
| `MinioRebalance.StatefulSet.RescheduleOnePod` | pkg/cluster/minio.go:268-294 | deletes the last listed claim, then the pod; what is gone after a failure of either; a pod without claim is left alone |
| `MinioRebalance.StatefulSet.MaybeRebalance` | pkg/cluster/minio.go:160-253 | one pass: the guards that leave everything alone, the unschedulable pod first, else the three rules, with no pod taken that all its probes refuse; nothing else changes |
| `MinioBalance.QuietIffBalanced` | pkg/cluster/minio.go:211-252 | with all probes passing, a pass picks nothing if and only if every ready node, also one without pods, holds between floor(P/R) and ceil(P/R) pods, for every iteration order |
| `MinioBalance.PickLowersImbalance` | pkg/cluster/minio.go:218-250 | every pick of the three rules lowers the sum of squared pod counts by at least 2 once the pod lands on a least-loaded ready node |
| `MinioBalance.MoveNeverGrows` | pkg/cluster/minio.go:268-294 | whichever pod is taken, the sum of squares never grows, so refused probes do no harm |
| `MinioBalance.DeletionSplits` | pkg/cluster/minio.go:289-292 | deleting a pod by name takes out just that pod, so rescheduling continues what the delete started |
| `MinioBalance.BalanceStays` | pkg/cluster/minio.go:160-253 | once balanced, no later pass of a run moves a pod |
| `MinioBalance.MovesBounded` | pkg/cluster/minio.go:160-253 | in any run all moves come first, there are at most half as many as the initial sum of squares, and the cluster is balanced from then on |
| `MinioBalance.RebalancingConverges` | pkg/cluster/minio.go:148-159 | rebalancing ends in balance after at most P*P/2 moves from any placement |
| `Loads.MoveChangesSquares` | pkg/cluster/minio.go:268-294 | moving one pod from a to b changes the sum of squares by 2 * (load of b - load of a + 1) |
| `ObjectSync.CopyObjects` | pkg/objectstore/migrate.go:281-296 | the loop over listed objects, in any order, puts exactly those copied so far over the bucket and counts them |
| `ObjectSync.SyncBucket` | pkg/objectstore/migrate.go:263-299 | success overlays the source bucket and returns its number of objects; failure leaves that bucket partly copied and all others alone; and it fails exactly when a call that it needs does |
| `ObjectSync.SyncListed` | pkg/objectstore/migrate.go:50-59 | the bucket loop, in any order, up to the first failure |
| `ObjectSync.SyncAllBuckets` | pkg/objectstore/migrate.go:23-62 | success leaves the old destination overridden by the source, with the object count of each bucket; failure leaves a partial overlay; whatever the source does not have is kept; and it succeeds exactly when none of the calls it needs fails |
| `ObjectSync.OverlayAbsorbsPartial` | pkg/objectstore/migrate.go:42-61 | copying over what a stopped run left gives what copying over the original gives |
| `ObjectSync.PartialCompose` | pkg/objectstore/migrate.go:42-61 | a stopped run after a stopped run is again a partial overlay of the original destination |
| `ObjectSync.RetriesConverge` | pkg/objectstore/migrate.go:42-61 | any number of stopped runs over an unchanged source followed by a success equals one uninterrupted run |
| `MinioMigration.MigrationRefinesOneStore` | pkg/cluster/minio.go:48-146 | over any run of client writes, passes and failures with harmless repeated copies, an enabled service shows exactly the accepted writes, never selects the old pod again, and old data is deleted only after a complete copy of it took over |
| `MinioMigration.OrderlyRunsAreHarmless` | pkg/cluster/minio.go:104-117 | runs in which no pass stops between switching the service and deleting the deployment meet that condition |
| `MinioMigration.OverlayIdleIffContains` | pkg/cluster/minio.go:99-102 | copying changes nothing if and only if the destination already contains the source |
| `MinioMigration.RepeatedPassKeepsWritesIff` | pkg/cluster/minio.go:57-117 | after a switch whose deployment delete failed, the next full pass keeps the accepted writes if and only if no old object was changed in the HA store |
| `MinioMigration.FailedDeleteRevertsWrite` | pkg/cluster/minio.go:104-117 | for any data and any write that changes an old object, a run from the initial state in which that write is accepted and then reverted |
| `MinioMigration.Namespace.MigrateMinioData` | pkg/cluster/minio.go:48-125 | one attempt is a run of the machine and ends where its failing calls say, call by call; with no old pod listed it stops before the copy, with everything but the service unchanged; the deployment goes only with the pod listed, the copy complete and none of the calls before it failing |
| `MinioMigration.Namespace.CopyAndSwitch` | pkg/cluster/minio.go:77-124 | the part with the service disabled: with no old pod listed nothing happens; what each failing call leaves; the deployment goes only after a complete copy and the switch |
| `MinioMigration.Namespace.SwitchOver` | pkg/cluster/minio.go:104-124 | service first, then deployment, then claim; what remains after each failure |
| `MinioMigration.Namespace.EnsureHAMinioSvc` | pkg/cluster/minio.go:127-146 | points a disabled service at the HA pods and leaves any other alone; and when it reports success |
| `MinioMigration.Namespace.MaybeMigrate` | pkg/ekcoops/operator.go:417-441 | migrates while the old deployment exists, under the same conditions, and repairs the service afterwards, with the outcome of each, as a run of the machine |
| `MinioMigration.PassMeans` | pkg/cluster/minio.go:77-124 | what the listed pod and the failing calls of a pass decide: whether anything is copied, the service switched, the deployment and the claim deleted |
| `StorageMachine.StepKeepsValid` | pkg/migrate/storage.go:41-86 | every step of every thread keeps locks, flags, status, epochs, history and cluster consistent with where the migration is |
| `StorageSafety.MutualExclusion` | pkg/migrate/storage.go:41-43 | under every schedule at most one migration body and at most one reconcile body run at a time |
| `StorageSafety.PausesBelongToTheirPhase` | pkg/ekcoops/overrides/pause.go:7-75 | each pause flag is set exactly while some migration is in the part of its phase that needs it, and none outlives the migrations |
| `StorageSafety.PausedBodiesAreOlder` | pkg/ekcoops/operator.go:392-402 | a reconcile body that runs while MinIO is paused passed its check before that pause |
| `StorageSafety.CompletedMeansBothPhases` | pkg/migrate/storage.go:61-85 | while the status is completed MinIO is out of use, the volumes are moved and the old storage class is gone, and one migration has done both phases itself |
| `StorageSafety.CompletedForever` | pkg/migrate/storage.go:44-46 | completed is absorbing: later migrations pause nothing, delete nothing, switch nobody and copy nothing, the deployment included |
| `StorageSafety.NeverCompletesWithoutClass` | pkg/migrate/storage.go:341-351 | once a migration has deleted the old storage class and failed, no schedule of any migrations completes |
| `StorageSafety.DeletedOnlyAfterCopy` | pkg/migrate/storage.go:263-296 | a migration deletes the stateful set, the deployment or the namespace only after it has itself copied and switched, with every consumer on Rook; nobody else deletes the first and the last |
| `StorageStores.CopyKeepsAcceptedIff` | pkg/objectstore/migrate.go:263-299 | each call of a copy, whatever is written meanwhile, keeps the accepted writes if and only if the bucket belongs to a consumer still on MinIO or Rook has the very object already |
| `StorageStores.SwitchKeepsAcceptedIff` | pkg/objectstore/migrate.go:66-84 | switching a consumer keeps its accepted writes if and only if it was switched before or Rook holds exactly its buckets as it finds them in MinIO |
| `StorageStores.ManageKeepsAcceptedIff` | pkg/cluster/minio.go:48-146 | a call of a reconcile that moves MinIO to the stateful set keeps the accepted writes if and only if the store in use afterwards is, for the consumers on MinIO, what they used before |
| `StorageStores.StepKeepsAcceptedIff` | pkg/migrate/storage.go:197-299 | the exact condition under which any step of any thread keeps the accepted writes; none but these need one |
| `StorageStores.RunsKeepAccepted` | pkg/migrate/storage.go:197-299 | over any schedule of failing migrations, reconciles and writes, every consumer finds exactly what was accepted from it, if at the beginning of each copy its source holds nothing it could revert, and each switch of a consumer or of the service goes to a store with what was used before |
| `StorageStores.DeletesOnlyWhatRookHas` | pkg/migrate/storage.go:281-296 | while that holds, MinIO, with the stores of the old pod and of the stateful set, is deleted only when Rook is exactly the accepted store |
| `StorageCopy.AllItems` | pkg/objectstore/migrate.go:42-61 | all calls of a copy, buckets before their objects in any order, make the overlay |
| `StorageCopy.PartItems` | pkg/objectstore/migrate.go:42-61 | every partial overlay is what some of these calls make |
| `StorageLossless.CopyYieldsUsedIff` | pkg/migrate/storage.go:210-235 | with the pods copied from the ones used last, the copy yields what was used if and only if Rook holds nothing extra; with Rook empty, if and only if both pods hold the same for the consumers on MinIO |
| `StorageLossless.SafeToCopyIsLossless` | pkg/migrate/storage.go:207-286 | under the three conditions every schedule keeps all accepted writes up to the first delete |
| `StorageLosses.UndisturbedKeepsIff` | pkg/migrate/storage.go:259-280 | a migration left alone from service-off to its first delete keeps the accepted writes if and only if Rook holds the objects of the pods copied from for the consumers switched before, and these pods over Rook are what the others used last |
| `StorageLosses.LosslessIff` | pkg/migrate/storage.go:207-286 | from service-off, every schedule reaches the first delete with all accepted writes in Rook if and only if the pods picked over Rook are what the consumers on MinIO used last, hold nothing of a switched one, and no reconcile past its check can turn the service on for a remaining consumer or bring old data to these pods |
| `StorageLosses.MigratesTheOldPod` | pkg/migrate/storage.go:210-235 | for any data, a run in which an HA switch stops before deleting the deployment, a client writes, and an undisturbed migration into an empty Rook copies the old pod and loses the write |
| `StorageLosses.OverlapIsReachable` | pkg/ekcoops/operator.go:393-412 | a schedule from the start in which a reconcile has found the stateful set while MinIO is paused and its service off |
| `StorageLosses.RepeatedMigrationReverts` | pkg/objectstore/migrate.go:66-84 | for any data, a run in which a migration fails after the registry, the registry writes to Rook, and an undisturbed second migration reverts the write |
| `StorageWalks.HistoryIsWalk` | pkg/migrate/storage.go:41-86 | every history the code can report is a walk of the machine from taking the lock to giving it back |
| `StorageWalks.HistoryIsSchedule` | pkg/migrate/storage.go:41-86 | and so a schedule of the machine, whoever else waits |
| `StorageMigration.CompletesIff` | pkg/migrate/storage.go:41-86 | without failures a migration completes if and only if the old storage class is there and MinIO is unused or has a running pod to copy from |
| `StorageMigration.CallsThatSucceeded` | pkg/migrate/storage.go:197-354 | which calls have gone through, and that a pod was running, when anything of MinIO is gone and when a migration completed |
| `StorageMigration.CompletedLeavesNamespaceIff` | pkg/migrate/storage.go:281-296 | after completion MinIO is not in use, and its namespace remains if and only if it was found without deployment and stateful set |
| `StorageMigration.DeletesAfterMove` | pkg/migrate/storage.go:268-296 | when anything of MinIO went, Rook is its old self overridden by all objects of the pods copied from and every consumer uses Rook |
| `StorageMigration.Migrator.ObjectStorageAndPVCs` | pkg/migrate/storage.go:41-86 | the whole migration: its history, decided by the failing calls and the pods listed, and the cluster, status and flags it leaves; without a running pod in the list used it fails and changes nothing; what is gone, and what is complete, has had none of its calls fail; when anything of MinIO went, Rook is overridden by the pods found, which is all that the clients used last if they are those pods; what completing leaves |
| `StorageMigration.Migrator.MovePhases` | pkg/migrate/storage.go:61-85 | the two phases after the readiness check, with the status after each way to stop |
| `StorageMigration.Migrator.MigrateObjectStorage` | pkg/migrate/storage.go:197-299 | does nothing when MinIO is not in use; else pauses, moves and deletes, and resumes on every exit |
| `StorageMigration.Migrator.MoveAndDelete` | pkg/migrate/storage.go:210-298 | how far the calls under the pause came, and which pods were found, determines MinIO, Rook and the consumers exactly |
| `StorageMigration.Migrator.SwitchAndDelete` | pkg/migrate/storage.go:274-298 | consumers before deletes, each in order, up to the first failure |
| `StorageMigration.Migrator.DeleteMinio` | pkg/migrate/storage.go:281-298 | stateful set, deployment, namespace in this order up to the first failure |
| `StorageMigration.Migrator.MigrateStorageClasses` | pkg/migrate/storage.go:301-354 | what each failing call leaves of the volumes; success needs the old storage class; clears both flags on every exit |
| `StorageMigration.Migrator.UpdateConsumers` | pkg/objectstore/migrate.go:66-84 | registry, Velero and kotsadm in this order, up to the first failure |
| `StorageMigration.Migrator.IsMinioInUse` | pkg/objectstore/minio.go:12-46 | in use exactly when the namespace and a deployment or stateful set exist, and an error exactly when a call that is needed for that fails |
| `StorageMigration.Migrator.FindPod` | pkg/migrate/storage.go:210-235 | the address of a running listed pod with no running one before it, from the pods of the deployment or, when none of these is listed, of the stateful set; with it the store that is copied; no address when none runs |
| `StorageMigration.RunningIPMeans` | pkg/migrate/storage.go:226-235 | the first running pod of a list gives the address, and a list without one gives none |
| `KubeadmStatus.MarshalClusterStatus` | pkg/cluster/purge_node.go:305-330 | what is written reads back with the same kind, version, addresses and ports, and is never malformed |
| `KubeadmStatus.NormalizedKeepsMeaning` | pkg/cluster/purge_node.go:282-418 | the round trip for every decoded document, whatever mixture of spellings it holds |
| `KubeadmStatus.NormalizedIsFixed` | pkg/cluster/purge_node.go:305-330 | writing what was read back from a written document writes the same again |
| `KubeadmStatus.LowercaseDoc` | pkg/cluster/purge_node.go:223-240 | the malformed document, with all keys in lower case, has its kind, version and endpoints read, and is recognised as malformed |
| `KubeadmStatus.WellFormedDoc` | pkg/cluster/purge_node.go:290-304 | a document spelled as kubeadm spells it is read as what it says, and is not malformed |
| `KubeadmStatus.RemovedMeaning` | pkg/cluster/purge_node.go:202-259 | removing a name leaves the same document minus that endpoint, well-formed |
| `KubeadmStatus.RemovedIsWritten` | pkg/cluster/purge_node.go:202-250 | a document that lists the name or is malformed is written anew, well-formed and without the name, and any other is left as it is |
| `KubeadmStatus.ConfigMap.RemoveKubeadmEndpoint` | pkg/cluster/purge_node.go:183-260 | what is stored, the address returned, and that removed and remaining addresses together are the original ones as a multiset; all error cases |
| `KubeadmStatus.CollectAddresses` | pkg/cluster/purge_node.go:255-259 | the addresses left, in any order |
| `NodePurge.PeerURLInjective` | pkg/cluster/etcd.go:96-98 | different addresses, also IPv6 ones in brackets, have different peer URLs |
| `NodePurge.NothingLeftIff` | pkg/cluster/purge_node.go:71-77 | no address remains exactly when nothing but the purged name was listed |
| `NodePurge.Cluster.RemoveCephClusterStorageNode` | pkg/cluster/rook_ceph.go:113-145 | the storage list becomes the old one without the node, in order |
| `NodePurge.Cluster.RemoveEtcdPeer` | pkg/cluster/etcd.go:18-61 | removes the member the search finds, reports success when there is none, and changes nothing on failure |
| `NodePurge.Cluster.RemoveControlPlane` | pkg/cluster/purge_node.go:59-96 | endpoint, then member, with the address from the list before the one of the Node; a failing list, or no address of another API server, stops it before the member |
| `NodePurge.Cluster.PurgeNode` | pkg/cluster/purge_node.go:22-120 | the state and the result of an attempt for every set of failing calls; the Node goes on success and no other; the storage entry goes only when Rook is there and maintained |
| `NodePurge.PurgedStorage` | pkg/cluster/purge_node.go:34-39 | the storage list loses exactly the entries of the node, and only when Ceph is to be maintained and its calls go through |
| `NodePurge.PurgedWorker` | pkg/cluster/purge_node.go:41-57 | purging a node known as a worker leaves the kubeadm list and etcd alone |
| `NodePurge.PurgedControlPlane` | pkg/cluster/purge_node.go:59-96 | a successful purge of anything else leaves the name out of the kubeadm list |
| `PurgeSafety.EtcdRemovedExactly` | pkg/cluster/etcd.go:44-60 | removal takes out the member with that peer URL and no other |
| `PurgeSafety.AttemptEffect` | pkg/cluster/purge_node.go:22-120 | an attempt leaves each part of the state alone or changes it as a complete attempt does |
| `PurgeSafety.DeletionComesLast` | pkg/cluster/purge_node.go:91-103 | an attempt that deletes the Node of a control-plane node has removed its etcd member |
| `PurgeSafety.PurgeIsRetrySafe` | pkg/cluster/purge_node.go:22-120 | over any attempts on any nodes, each stopped anywhere, every control-plane Node still exists or its etcd member is gone |
| `PurgeSafety.LaterAttemptFinishes` | pkg/cluster/purge_node.go:22-120 | so a failure-free attempt at the end always removes member and Node, also after the list was already edited |
| `PurgeSafety.RetrySafeIff` | pkg/cluster/purge_node.go:22-120 | over all attempts stopped anywhere, a failure-free attempt afterwards leaves no member of an address if and only if it is gone already, or the Node is there as a control-plane node with that address and the list has it or none |
| `PurgeSafety.AttemptRemovesMemberIff` | pkg/cluster/purge_node.go:63-95 | a failure-free attempt removes the member of an address if and only if it was gone or the attempt resolves that address |
| `PurgeSafety.LostMemberStays` | pkg/cluster/purge_node.go:63-95 | with neither Node object nor listed address no attempt touches the member again |
| `PurgeSafety.MissingNodeLosesMember` | pkg/cluster/purge_node.go:63-95 | without a Node object, an attempt stopped after editing the list loses the member for good |
| `NodeReconcile.ReconcileNodes` | pkg/ekcoops/operator.go:71-77 | the pass over the given list, with the counts taken once before it: nothing happens with the switch off or too few ready workers; with too few ready masters no listed master loses its Node, its endpoint or, unless a purged worker is at the same address, its etcd member; only nodes listed as dead are touched; and with enough of both a dead node whose calls go through is gone |
| `NodeReconcile.IsDeadMeans` | pkg/ekcoops/operator.go:228-235 | dead means that the first unreachable taint with a time is older than the toleration |
| `NodeReconcile.PassKeepsMasters` | pkg/ekcoops/operator.go:137-151 | with too few ready masters the Nodes and endpoints of all listed masters stay, and every etcd member that goes was at the address of a dead worker |
| `NodeReconcile.PassPurges` | pkg/ekcoops/operator.go:137-151 | a node that the guards let through and whose calls do not fail is gone after the pass and not reported, whatever fails for others |
| `NodeReconcile.PurgeNodeManually` | cmd/ekco/cli/purge_node.go:56-92 | refuses a ready node of a role that is at its minimum and a Rook in an unknown state, else purges; the storage list changes only with Rook there and maintained |
| `NodeReconcile.UseNodesForStorage` | pkg/cluster/rook_ceph.go:69-111 | appends the names not yet listed in order, unless the user manages the list |
| `NodeReconcile.EnsureAllUsedForStorage` | pkg/ekcoops/operator.go:240-255 | which nodes are taken: ready ones that match, or those the user lists |
| `NodeReconcile.SelectorMeans` | pkg/ekcoops/operator.go:341-364 | a selector key=value matches exactly the ready nodes with that label and value, the empty one all ready nodes |
| `NodeSafety.DeletionDropsIff` | cmd/ekco/cli/purge_node.go:64-78 | a deletion takes a role from its minimum to below it exactly when it takes a ready node of a role at its minimum |
| `NodeSafety.ManualPurgeDropsIff` | cmd/ekco/cli/purge_node.go:56-92 | whatever list its guards saw, a manual purge takes a role below its minimum exactly when it is not refused, no call that it makes fails, and it takes a ready node of a role at its minimum |
| `NodeSafety.ManualPurgeKeepsMinimum` | cmd/ekco/cli/purge_node.go:56-92 | with a current list a manual purge, failing anywhere or not, keeps both minimums |
| `NodeSafety.ManualPurgesInterleave` | cmd/ekco/cli/purge_node.go:59-78 | two manual purges that list at the same time take the workers below the minimum together |
| `NodeSafety.PassTakes` | pkg/ekcoops/operator.go:71-77 | a pass over any list with any failures leaves exactly the current nodes whose purge did not succeed, in order |
| `NodeSafety.SucceededIffNotFailed` | pkg/ekcoops/operator.go:71-77 | these are the nodes listed as dead that the guards let through, without those reported as failed |
| `NodeSafety.StaleListDropsBelowIff` | pkg/ekcoops/operator.go:71-77 | for every list, role, failures, with or without Rook: the count after a pass, and that the role drops below its minimum if and only if the ready nodes purged are more than it has above the minimum |
| `NodeSafety.StaleListWitness` | pkg/ekcoops/operator.go:138-151 | a list that takes two workers from above the minimum to none |
| `NodeSafety.AutoPurgesKeepCounts` | pkg/ekcoops/operator.go:137-151 | with a current list automatic purges of any number of nodes change neither count, because a dead node is not ready |
| `NodeSafety.PurgesAreSafe` | pkg/ekcoops/operator.go:71-77 | over any run of node changes and purges of both kinds with any lists, no purge with a current list takes a role below its minimum |
| `NodeSafety.StorageListAfterReconcile` | pkg/ekcoops/operator.go:71-84 | for every list the storage list after a pass is the old one in order without the purged nodes, followed by the ready matching nodes not yet listed; duplicate-free, and no purged node comes back |
| `JsonPatch.ReplaceMeaning` | pkg/k8s/patch.go:12-17 | a replacement succeeds exactly on an existing location, sets it, and leaves every location apart from it |
| `JsonPatch.ApplyMeaning` | pkg/k8s/patch.go:12-17 | a list over separate locations applies exactly when all exist and then sets each and nothing else |
| `CephReplication.RaisesMeaning` | pkg/cluster/rook_ceph.go:452-492 | the generated list applies if and only if every size below the level is present, and then every size is the larger of old value and level and nothing else changes |
| `CephReplication.NothingLeftToRaise` | pkg/cluster/rook_ceph.go:452-492 | a second pass at the same level generates no patch |
| `CephReplication.FilesystemPatches` | pkg/cluster/rook_ceph.go:452-492 | the loop over data pools and the metadata pool builds the specified list |
| `CephReplication.ObjectStorePatches` | pkg/cluster/rook_ceph.go:579-597 | the data pool and the metadata pool build the specified list |
| `CephReplication.Rook.SetFilesystemReplication` | pkg/cluster/rook_ceph.go:440-520 | outcome of a pass on the filesystem in every error case; without failures every size becomes the larger of its old value and the level |
| `CephReplication.Rook.SetObjectStoreReplication` | pkg/cluster/rook_ceph.go:566-661 | outcome of a pass on the object store in every error case; without failures both sizes become the larger of their old value and the level |
| `CephReplication.Rook.SetBlockPoolReplication` | pkg/cluster/rook_ceph.go:198-255 | raises the block pool, and on a full pass sets it to the level even when it is higher |
| `CephReplication.Rook.ReconcileMonCount` | pkg/cluster/rook_ceph.go:294-328 | success means the larger of the old count and three from three nodes on, else one; it succeeds when the count is there and no call fails |
| `CephReplication.Rook.ReconcileMgrCount` | pkg/cluster/rook_ceph.go:332-370 | the same for mgrs, two from two nodes on, from Rook 1.9 on |
| `CephRatchet.AdjustPoolReplicationLevels` | pkg/ekcoops/operator.go:258-308 | all pools are tried with the clamped factor whatever fails, when the device health pool is due, and that any failure is reported |
| `CephRatchet.FactorInBounds` | pkg/ekcoops/operator.go:259-266 | the factor never exceeds the maximum, reaches the minimum when bounds are sane, and is the node count in between |
| `CephRatchet.PoolRatchet` | pkg/cluster/rook_ceph.go:452-492 | over any run every filesystem and object-store pool ends at the largest of its first size and the levels that took effect |
| `CephRatchet.PoolsStayWithinMaximum` | pkg/ekcoops/operator.go:259-266 | no pool grows beyond the configured maximum |
| `CephRatchet.CountRatchet` | pkg/cluster/rook_ceph.go:294-370 | mon and mgr counts ratchet in the same way over any run |
| `CephRatchet.BlockPoolDecreasesOnlyWhenFull` | pkg/cluster/rook_ceph.go:210-233 | the block pool comes down only on a full pass, and then to exactly the level |
| `CephRatchet.BlockPoolRatchetsBetweenFullPasses` | pkg/cluster/rook_ceph.go:210-233 | between full passes the block pool is the largest level since the last one |
| `Fingerprint.ComputeFingerprint` | pkg/cluster/internallb.go:19-24 | the loop, the sort and the join compute the fingerprint |
| `Fingerprint.SortedUnique` | pkg/cluster/internallb.go:23 | sorted lists with the same elements are equal, so any correct sort gives the same fingerprint |
| `Fingerprint.SortSorts` | pkg/cluster/internallb.go:23 | sorting gives a sorted permutation |
| `Fingerprint.JoinInjective` | pkg/cluster/internallb.go:24 | joining non-empty lines without commas loses nothing |
| `Fingerprint.LineInjective` | pkg/cluster/internallb.go:21 | a line determines name, role and address when these hold no space or comma |
| `Fingerprint.FingerprintCanonical` | pkg/cluster/internallb.go:19-24 | two node lists have the same fingerprint if and only if their (name, master, address) triples are permutations of each other |
| `InternalLB.LoadBalancer.UpdateInternalLB` | pkg/cluster/internallb.go:65-117 | on success the list on every listed node is the non-empty addresses of the listed masters in list order, so it has each as often as there are masters at it and no other; up to the first failure node by node; nothing when no master has an address |
| `InternalLB.PrimariesListMasters` | pkg/cluster/internallb.go:71-78 | the list of addresses is read off, in order, at exactly the places of the masters that have one |
| `InternalLB.PrimariesCount` | pkg/cluster/internallb.go:71-78 | the list counts each address as often as there are listed masters at it |
| `InternalLB.LoadBalancer.ReconcileInternalLB` | pkg/cluster/internallb.go:18-62 | one pass: state, whether an update was tried, and the result, for every failure |
| `InternalLB.PrimariesUpToOrder` | pkg/cluster/internallb.go:71-78 | listing the same nodes in another order gives the same master addresses |
| `InternalLB.SuccessIsTrusted` | pkg/cluster/internallb.go:49-60 | after a successful attempt every node list with the stored fingerprint is configured |
| `InternalLB.CacheAgreement` | pkg/cluster/internallb.go:26-61 | over any passes with any node lists and failures, while the last attempt succeeded, a stored fingerprint equal to the current one means that the list of every node has each address as often as there are listed masters at it, or no master has one |
| `InternalLB.ChangeTriggersUpdate` | pkg/cluster/internallb.go:49-55 | a pass attempts an update if and only if some node property differs from what was recorded |
| `InternalLB.FailedAttemptHarmlessIff` | pkg/cluster/internallb.go:53-60 | a failed attempt leaves the recorded nodes configured as recorded if and only if it reached none of them or as many masters are at every address as before |
| `InternalLB.RevertIsNotNoticed` | pkg/cluster/internallb.go:49-51 | going back to the recorded nodes after a failed attempt triggers nothing |
| `InternalLB.RevertWitness` | pkg/cluster/internallb.go:26-61 | runs from an empty cache, for any two addresses, after which the cache is settled and the node has the wrong configuration |
| `Sighup.NothingPanicsOrBlocks` | pkg/cluster/internallb.go:134-156 | under every schedule no worker blocks on its send or sends on a closed channel, no counter goes negative and nothing is closed twice, also after an early return |
| `Sighup.ClosesAfterAllSends` | pkg/cluster/internallb.go:138-141 | the channel is closed only after every worker has sent and ended |
| `Sighup.VerdictMeans` | pkg/cluster/internallb.go:158-173 | nil is returned only if every exec succeeded with exit code 0, an exec error only if one failed |
| `Sighup.FinalVerdict` | pkg/cluster/internallb.go:158-173 | without a timeout the finished call returns nil if and only if every exec succeeded |
| `Sighup.StuckOnlyWhenFinished` | pkg/cluster/internallb.go:134-173 | no goroutine is ever left stuck: nothing can run exactly when all have ended |
| `Sighup.SchedulesAreBounded` | pkg/cluster/internallb.go:134-173 | every schedule ends within five steps a pod and four more |
| `ContourCerts.Secrets.RotateContourCerts` | pkg/cluster/contour_certs.go:19-66 | one pass for every set of failing calls and any clock readings; nothing is done while all three certificates outlast the margin; else, without failures, both secrets are written from one new CA and Envoy is restarted with them; success means one of the two |
| `ContourCerts.Secrets.ReadContourCerts` | pkg/cluster/contour_certs.go:81-127 | both secrets' certificates, nothing when one is missing, and an error exactly when a call that is needed fails |
| `ContourCerts.Secrets.UpdateContourCerts` | pkg/cluster/contour_certs.go:129-170 | Contour's secret first, then Envoy's, from one new CA; what is written when one fails |
| `ContourCerts.SelfHealingIffEnvoyFirst` | pkg/cluster/contour_certs.go:46-79 | over all runs, mismatched secrets are due at every later check if and only if Envoy's certificate does not expire after the others; secrets issued together qualify |
| `ContourCerts.NextGoodPassMatches` | pkg/cluster/contour_certs.go:46-53 | after any failed passes on secrets issued together, the next pass whose updates succeed restores a matching pair |
| `ContourCerts.NothingUntilDue` | pkg/cluster/contour_certs.go:46-49 | over any run of passes with any failures, as long as no certificate is due, both secrets and what Envoy has loaded stay as they are |
| `ContourCerts.RestartIsNotRetriedIff` | pkg/cluster/contour_certs.go:51-61 | over any run with any failures, Envoy behind its secret catches up if and only if a pass was due, renewed both secrets and restarted Envoy, and no later one renewed them again |
| `Poll.PollTicks` | pkg/ekcoops/poll.go:12-44 | a tick that reaches Reconcile is full exactly when the successes so far are a multiple of 60; failures do not advance the counter |
| `Poll.OneInSixty` | pkg/ekcoops/poll.go:20-43 | of any number of successes exactly one in sixty, rounded up, is full |
| `Poll.FullUntilItSucceeds` | pkg/ekcoops/poll.go:31-42 | a failed full reconcile is repeated as a full one until it succeeds, and then not |
| `Poll.Throttle.CheckRotateCertsDue` | pkg/cluster/certs.go:20-61 | an unforced attempt comes more than the interval minus one second after the last one; exactly when an attempt is granted (the first, a forced one, or one when the interval is over), when it is too soon, and that only attempts are recorded, to the second |
| `Poll.AttemptsAreSpaced` | pkg/cluster/certs.go:45-60 | with a monotone clock an unforced attempt comes more than the interval minus one second after every earlier attempt |
| `Poll.SpacingIsTight` | pkg/cluster/certs.go:45-60 | that bound is attained up to a nanosecond, because the stored time loses its fraction |
| `Poll.MalformedForever` | pkg/cluster/certs.go:45-49 | a stored time that does not parse stops rotation for good, also forced ones |

## Left out

- Kubernetes, Helm, etcd, MinIO and Ceph clients, TLS, HTTP handlers and logging: each call is one atomic step that may fail.
- The text of YAML and JSON: documents are records with optional keys, and JSON pointers are structured paths.
- ScaleMinioStatefulset, DoesHAMinioExist and the health probes of MinIO: their answers are inputs of a pass.
- ClearNode, CSR approval, Prometheus and kotsadm scaling, CSI resources, MDS placement, image overrides: single branches that would add only easy members.
- Ceph CLI commands: the pool settings they change and the device health pool, beyond when they are due and that they may fail; parseCephOSDStatusHosts and the OSD counts behind it.
- The patch of the storage node list: its failure is a fault; a CephCluster without a node list is not modelled for it.
- Sizes of 2^63 and more in a Ceph resource: a document that holds one counts as not decoding.
- The pods, templates and HAProxy files of the load balancer: an update installs the list of master addresses on a node or fails before or after doing so.
- X.509 parsing, signing and keys: certificates are an expiry and the identity of their CA. The other rotations (registry, kURL proxy, kubelet, control plane pods) are not part of this model.
- Object metadata: an object is one value, standing for the content, content type and encoding that the copy carries over; user metadata, which the source does not copy, is not part of it.
- pvmigrate: one call that moves the volumes or fails. The status read from the default storage class annotation (GetMigrationStatus), the logs and a restart of EKCO, which forgets the in-memory status.
- The readiness checks of a storage migration: one answer of three, ready, not ready or error.
- The storage migration machine: a copy works on the buckets and objects there are when it begins, while the source lists each bucket at its turn, so objects added meanwhile, which needs an overlapping reconcile, may be copied in fact. Each bucket belongs to one consumer, which is switched in one step. Which pods are listed is not derived from the deployment and the stateful set, since a pod may outlive its owner. Clients other than the three consumers, a service that does not exist, and a stateful set installed anew are not modelled.
- Poll.PollTicks: the ticks until the context ends are given as a sequence, and the counter is unbounded.
- The conversion of an infinite float64 to int in the rebalancer without ready nodes, which Go leaves to the implementation: it is the parameter `overflow`.
