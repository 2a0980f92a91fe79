/**
 Moving a namespace from the single MinIO pod to the HA stateful set (pkg/cluster/minio.go,
 pkg/ekcoops/operator.go): disable the service, copy, point the service at the HA pods, delete the old
 deployment. Clients write through the service in between, and any call may fail and end the pass.
 */
module MinioMigration {
  import opened Prelude
  import opened ObjectSync
  import opened Services

  /** How far the running pass has come; Idle when no pass runs. */
  datatype Stage = Idle | Healthy | Disabled | Synced | Switched | DeploymentDeleted

  /** `acked` is the single store clients believe in: every write the service accepted. `handover` is the
      HA store at the last switch of the service. */
  datatype State = State(service: Option<Selector>, deployment: bool, claim: bool, single: Store, ha: Store,
                         stage: Stage, acked: Store, handover: Option<Store>)

  datatype Op = PutObject(bucket: string, key: string, object: Object) | RemoveObject(bucket: string, key: string)
              | MakeBucket(name: string) | RemoveBucket(name: string)

  /** A write to a bucket that does not exist is refused. */
  function Apply(store: Store, op: Op): Store {
    match op
    case PutObject(b, k, o) => if b in store then store[b := store[b][k := o]] else store
    case RemoveObject(b, k) => if b in store then store[b := store[b] - {k}] else store
    case MakeBucket(b) => if b in store then store else store[b := map[]]
    case RemoveBucket(b) => store - {b}
  }

  // ---------- atomic steps ----------

  /** A client write reaches whatever store the service selects; with none selected it is not accepted. */
  function ClientWrite(s: State, op: Op): State {
    match s.service
    case Some(OldPod) => s.(single := Apply(s.single, op), acked := Apply(s.acked, op))
    case Some(HaPods) => s.(ha := Apply(s.ha, op), acked := Apply(s.acked, op))
    case _ => s
  }

  /** The step a running pass takes when the next call succeeds. */
  ghost predicate Advance(s: State, t: State) {
    match s.stage
    case Idle =>
      if s.deployment then t == s.(stage := Healthy)
      else s.service == Some(Nowhere) && t == s.(service := Some(HaPods))
    case Healthy => t == s.(service := if s.service.Some? then Some(Nowhere) else None, stage := Disabled)
    case Disabled =>
      || (t == s.(ha := t.ha) && Partial(s.single, s.ha, t.ha))
      || t == s.(ha := Overlay(s.single, s.ha), stage := Synced)
    case Synced => s.service.Some? && t == s.(service := Some(HaPods), stage := Switched, handover := Some(s.ha))
    case Switched => t == s.(deployment := false, stage := DeploymentDeleted)
    case DeploymentDeleted => t == s.(claim := false, stage := Idle)
  }

  function Stop(s: State): State {
    s.(stage := Idle)
  }

  ghost predicate Step(s: State, t: State) {
    || (exists op :: t == ClientWrite(s, op))
    || Advance(s, t)
    || t == Stop(s)
  }

  ghost predicate Run(trace: seq<State>) {
    trace != [] && forall i :: 0 <= i < |trace| - 1 ==> Step(trace[i], trace[i + 1])
  }

  /** A fresh HA store, and an old one that holds what clients wrote. */
  predicate Initial(s: State) {
    s.deployment && s.claim && s.ha == map[] && s.single == s.acked && s.stage == Idle && s.handover == None
    && s.service != Some(HaPods)
  }

  // ---------- what must hold ----------

  /** `store` holds every bucket and object of `part`, unchanged. */
  ghost predicate Contains(store: Store, part: Store) {
    forall b :: b in part ==> b in store && forall k :: k in part[b] ==> k in store[b] && store[b][k] == part[b][k]
  }

  /** An enabled service shows exactly the accepted writes. The old deployment goes only after the HA pods
      took over with all of the old data, and the old claim only after the deployment. */
  ghost predicate Faithful(s: State) {
    && (s.service == Some(OldPod) ==> s.single == s.acked)
    && (s.service == Some(HaPods) ==> s.ha == s.acked)
    && (!s.deployment ==> s.handover.Some? && Contains(s.handover.value, s.single))
    && (!s.claim ==> !s.deployment)
  }

  /** The one dangerous step: a pass turns off a service that already selects the HA pods, which happens
      after a switch whose deployment delete failed. It is harmless when every old object is still
      unchanged in the HA store. */
  ghost predicate Harmless(s: State, t: State) {
    s.stage == Healthy && t.stage == Disabled && s.service == Some(HaPods) ==> Contains(s.ha, s.single)
  }

  /** Nobody can write: the service is missing or selects no pod. */
  predicate Off(s: State) {
    s.service == None || s.service == Some(Nowhere)
  }

  ghost predicate Invariant(s: State) {
    && Faithful(s)
    && (s.service == Some(OldPod) ==> s.deployment && s.ha == map[] && (s.stage == Idle || s.stage == Healthy))
    && (Off(s) ==> s.deployment && Overlay(s.single, s.ha) == s.acked)
    && (s.stage == Disabled || s.stage == Synced ==> Off(s))
    && (s.stage == Switched || s.stage == DeploymentDeleted ==> s.service == Some(HaPods))
    && (s.stage == Synced ==> s.ha == s.acked && Contains(s.ha, s.single))
    && (s.stage == Switched ==> s.handover.Some? && Contains(s.handover.value, s.single))
    && (s.stage == DeploymentDeleted ==> !s.deployment)
    && (!s.deployment ==> s.stage == Idle || s.stage == DeploymentDeleted)
  }

  lemma OverlayContains(src: Store, dst: Store)
    ensures Contains(Overlay(src, dst), src)
  {
  }

  /** Copying changes nothing exactly when everything is there already. */
  lemma OverlayIdleIffContains(src: Store, dst: Store)
    ensures Overlay(src, dst) == dst <==> Contains(dst, src)
  {
    if Contains(dst, src) {
      assert src.Keys + dst.Keys == dst.Keys;
      forall b | b in dst ensures Overlay(src, dst)[b] == dst[b] {
        assert (dst[b] + In(src, b)).Keys == dst[b].Keys;
      }
    } else if Overlay(src, dst) == dst {
      OverlayContains(src, dst);
    }
  }

  lemma EmptyDestination(src: Store)
    ensures Overlay(src, map[]) == src
  {
    forall b | b in src ensures Overlay(src, map[])[b] == src[b] {
      assert In(map[], b) + src[b] == src[b];
    }
  }

  lemma InitialInvariant(s: State)
    requires Initial(s)
    ensures Invariant(s)
  {
    EmptyDestination(s.single);
  }

  lemma AdvanceKeepsInvariant(s: State, t: State)
    requires Invariant(s) && Advance(s, t) && Harmless(s, t)
    ensures Invariant(t)
  {
    if s.stage == Healthy {
      EmptyDestination(s.single);
      OverlayIdleIffContains(s.single, s.ha);
      match s.service
      case Some(OldPod) => assert s.ha == map[]; assert Overlay(s.single, s.ha) == s.single;
      case Some(HaPods) => assert Contains(s.ha, s.single); assert Overlay(s.single, s.ha) == s.ha;
      case _ =>
    } else if s.stage == Disabled {
      OverlayContains(s.single, s.ha);
      OverlayIsPartial(s.single, s.ha);
      OverlayAbsorbsPartial(s.single, s.ha, t.ha);
    }
  }

  /** Once the service left the old pod it stays away, and the old data is frozen. */
  ghost predicate Freezes(s: State, t: State) {
    s.service != Some(OldPod) ==> t.service != Some(OldPod) && t.single == s.single
  }

  lemma StepKeepsInvariant(s: State, t: State)
    requires Invariant(s) && Step(s, t) && Harmless(s, t)
    ensures Invariant(t)
    ensures Freezes(s, t)
  {
    if op :| t == ClientWrite(s, op) {
      WriteKeepsInvariant(s, op);
    } else if Advance(s, t) {
      AdvanceKeepsInvariant(s, t);
    } else {
      StopKeepsInvariant(s);
    }
  }

  lemma WriteKeepsInvariant(s: State, op: Op)
    requires Invariant(s)
    ensures Invariant(ClientWrite(s, op))
    ensures Freezes(s, ClientWrite(s, op))
  {
  }

  lemma StopKeepsInvariant(s: State)
    requires Invariant(s)
    ensures Invariant(Stop(s))
  {
  }

  /** The migration refines a single store: over any run of writes, passes and failures whose repeated
      copies are harmless, every state is faithful, the service never selects the old pod again, and the
      old data stays frozen from then on. */
  lemma MigrationRefinesOneStore(trace: seq<State>)
    requires Run(trace) && Initial(trace[0])
    requires forall i :: 0 <= i < |trace| - 1 ==> Harmless(trace[i], trace[i + 1])
    ensures forall i :: 0 <= i < |trace| ==> Faithful(trace[i])
    ensures forall i, j :: 0 <= i <= j < |trace| ==> Freezes(trace[i], trace[j])
  {
    RunInvariant(trace);
    FreezesForever(trace);
  }

  lemma {:induction false} RunInvariant(trace: seq<State>)
    requires Run(trace) && Initial(trace[0])
    requires forall i :: 0 <= i < |trace| - 1 ==> Harmless(trace[i], trace[i + 1])
    ensures forall i :: 0 <= i < |trace| ==> Invariant(trace[i])
    ensures forall i :: 0 <= i < |trace| - 1 ==> Freezes(trace[i], trace[i + 1])
  {
    InitialInvariant(trace[0]);
    for n := 1 to |trace|
      invariant forall i :: 0 <= i < n ==> Invariant(trace[i])
      invariant forall i :: 0 <= i < n - 1 ==> Freezes(trace[i], trace[i + 1])
    {
      assert Step(trace[n - 1], trace[n - 1 + 1]) && Harmless(trace[n - 1], trace[n - 1 + 1]);
      StepKeepsInvariant(trace[n - 1], trace[n]);
    }
  }

  lemma {:induction false} FreezesForever(trace: seq<State>)
    requires forall i :: 0 <= i < |trace| - 1 ==> Freezes(trace[i], trace[i + 1])
    ensures forall i, j :: 0 <= i <= j < |trace| ==> Freezes(trace[i], trace[j])
  {
    for n := 0 to |trace|
      invariant forall i, j :: 0 <= i <= j < n ==> Freezes(trace[i], trace[j])
    {
      if n > 0 {
        var k := n - 1;
        assert Freezes(trace[k], trace[k + 1]);
      }
    }
  }

  // ---------- the retry that loses writes ----------

  /** No pass stops between switching the service and deleting the deployment. */
  ghost predicate NeverStopsSwitched(trace: seq<State>) {
    forall i :: 0 <= i < |trace| - 1 && trace[i].stage == Switched ==> trace[i + 1].stage != Idle
  }

  /** Without that failure no pass ever finds the HA pods selected, so every copy is harmless. */
  lemma {:induction false} OrderlyRunsAreHarmless(trace: seq<State>)
    requires Run(trace) && Initial(trace[0]) && NeverStopsSwitched(trace)
    ensures forall i :: 0 <= i < |trace| - 1 ==> Harmless(trace[i], trace[i + 1])
  {
    InitialInvariant(trace[0]);
    for n := 1 to |trace|
      invariant forall i :: 0 <= i < n - 1 ==> Harmless(trace[i], trace[i + 1])
      invariant forall i :: 0 <= i < n ==> Invariant(trace[i])
      invariant forall i :: 0 <= i < n && trace[i].service == Some(HaPods) && trace[i].deployment
                  ==> trace[i].stage == Switched
    {
      assert Step(trace[n - 1], trace[n - 1 + 1]);
      assert trace[n - 1].stage == Switched ==> trace[n - 1 + 1].stage != Idle;
      StepKeepsInvariant(trace[n - 1], trace[n]);
    }
  }

  /** What a failure-free pass, with no client write in between, makes of a state that still has the old
      deployment. */
  function FullPass(s: State): State {
    var copied := Overlay(s.single, s.ha);
    s.(service := Some(HaPods), ha := copied, deployment := false, claim := false, stage := Idle, handover := Some(copied))
  }

  ghost predicate Reaches(s: State, t: State) {
    exists trace :: Run(trace) && trace[0] == s && trace[|trace| - 1] == t
  }

  lemma FullPassReached(s: State)
    requires s.deployment && s.stage == Idle && s.service.Some?
    ensures Reaches(s, FullPass(s))
  {
    var a := s.(stage := Healthy);
    var b := a.(service := Some(Nowhere), stage := Disabled);
    var c := b.(ha := Overlay(s.single, s.ha), stage := Synced);
    var d := c.(service := Some(HaPods), stage := Switched, handover := Some(c.ha));
    var e := d.(deployment := false, stage := DeploymentDeleted);
    var trace := [s, a, b, c, d, e, FullPass(s)];
    assert Advance(s, a) && Advance(a, b) && Advance(b, c) && Advance(c, d) && Advance(d, e) && Advance(e, FullPass(s));
    assert Run(trace);
  }

  /** After a switch whose deployment delete failed, repeating the pass keeps the accepted writes if and
      only if no old object has been overwritten or removed in the HA store. */
  lemma RepeatedPassKeepsWritesIff(s: State)
    requires s.service == Some(HaPods) && s.ha == s.acked
    ensures Faithful(FullPass(s)) <==> Contains(s.ha, s.single)
  {
    OverlayIdleIffContains(s.single, s.ha);
    OverlayContains(s.single, s.ha);
  }

  /** The failure in question, on any data: a write after the switch that changes an old object is reverted
      by the next pass. */
  lemma FailedDeleteRevertsWrite(data: Store, op: Op) returns (trace: seq<State>)
    requires !Contains(Apply(data, op), data)
    ensures Run(trace) && Initial(trace[0]) && !Faithful(trace[|trace| - 1])
  {
    var s := State(Some(OldPod), true, true, data, map[], Idle, data, None);
    trace := StopsSwitched(s);
    var stopped := trace[|trace| - 1];
    var f := ClientWrite(stopped, op);
    trace := Then(trace, f);
    FullPassReached(f);
    var again :| Run(again) && again[0] == f && again[|again| - 1] == FullPass(f);
    trace := Joined(trace, again);
    RepeatedPassKeepsWritesIff(f);
  }

  /** A first pass whose deployment delete fails. */
  lemma StopsSwitched(s: State) returns (trace: seq<State>)
    requires Initial(s) && s.service == Some(OldPod)
    ensures Run(trace) && trace[0] == s
    ensures trace[|trace| - 1] == s.(service := Some(HaPods), ha := s.single, handover := Some(s.single))
  {
    EmptyDestination(s.single);
    var a := s.(stage := Healthy);
    var b := a.(service := Some(Nowhere), stage := Disabled);
    var c := b.(ha := s.single, stage := Synced);
    var d := c.(service := Some(HaPods), stage := Switched, handover := Some(s.single));
    assert Advance(s, a) && Advance(a, b) && Advance(b, c) && Advance(c, d);
    trace := [s, a, b, c, d, Stop(d)];
  }

  lemma Joined(first: seq<State>, second: seq<State>) returns (trace: seq<State>)
    requires Run(first) && Run(second) && first[|first| - 1] == second[0]
    ensures Run(trace) && trace[0] == first[0] && trace[|trace| - 1] == second[|second| - 1]
  {
    var n := |first| - 1;
    trace := first[..n] + second;
    forall i | 0 <= i < |trace| - 1 ensures Step(trace[i], trace[i + 1]) {
      if i >= n {
        assert Step(second[i - n], second[i - n + 1]);
      } else {
        assert Step(first[i], first[i + 1]);
      }
    }
  }

  ghost function Then(trace: seq<State>, s: State): (longer: seq<State>)
    requires Run(trace) && Step(trace[|trace| - 1], s)
    ensures Run(longer) && longer[0] == trace[0] && longer[|longer| - 1] == s
  {
    trace + [s]
  }

  // ---------- the code of a pass ----------

  datatype Call = GetDeployment | GetService | DisableService | ListPods | GetCredentials | EnableService
                | DeleteDeployment | DeleteOldClaim | UpdateService

  /** Where a pass over a healthy HA store ends, call by call; `synced` says whether the copy went through. */
  ghost predicate PassOutcome(s: State, t: State, ok: bool, faults: set<Call>, podListed: bool, synced: bool) {
    if GetService in faults || (s.service.Some? && DisableService in faults) then t == s && !ok
    else CopyOutcome(s.(service := if s.service.Some? then Some(Nowhere) else None), t, ok, faults, podListed, synced)
  }

  /** The same from the moment the service is out of the way. */
  ghost predicate CopyOutcome(s: State, t: State, ok: bool, faults: set<Call>, podListed: bool, synced: bool) {
    if ListPods in faults || !podListed || GetCredentials in faults then t == s && !ok
    else if !synced then t == s.(ha := t.ha) && Partial(s.single, s.ha, t.ha) && !ok
    else if EnableService in faults || s.service == None then t == s.(ha := Overlay(s.single, s.ha)) && !ok
    else
      && t == FullPass(s).(deployment := DeleteDeployment in faults, claim := s.claim && !ok)
      && (ok <==> DeleteDeployment !in faults && DeleteOldClaim !in faults)
  }

  /** With no old pod listed a pass stops before the copy; the deployment goes only when every call before it
      succeeded, and the claim only after it. */
  lemma PassMeans(s: State, t: State, ok: bool, faults: set<Call>, podListed: bool, synced: bool)
    requires s.deployment && PassOutcome(s, t, ok, faults, podListed, synced)
    ensures !podListed ==> !ok && t == s.(service := t.service) && (t.service == s.service || t.service == Some(Nowhere))
    ensures !t.deployment ==>
      && podListed && s.service.Some? && synced
      && faults !! {GetService, DisableService, ListPods, GetCredentials, EnableService, DeleteDeployment}
      && t.service == Some(HaPods) && t.ha == Overlay(s.single, s.ha)
    ensures t.claim != s.claim ==> !t.deployment && !t.claim && DeleteOldClaim !in faults
    ensures ok ==> !t.deployment && !t.claim
    ensures podListed && s.service.Some? && faults == {} && synced ==> ok
    ensures t.single == s.single && (t.ha != s.ha ==> podListed && faults !! {GetService, ListPods, GetCredentials})
  {
  }

  class Namespace {
    var service: Option<Selector>
    var deployment: bool
    var claim: bool
    /** Whether the pod listing finds the old pod. */
    var podListed: bool
    const single: ObjectStore
    const ha: ObjectStore
    ghost var acked: Store
    ghost var handover: Option<Store>

    constructor (single: ObjectStore, ha: ObjectStore, service: Option<Selector>)
      requires single != ha
      ensures this.single == single && this.ha == ha && Valid()
      ensures ha.buckets == map[] && service != Some(HaPods) ==> Initial(Now(Idle))
    {
      this.single, this.ha, this.service := single, ha, service;
      deployment, claim, podListed := true, true, true;
      acked, handover := single.buckets, None;
    }

    ghost predicate Valid() {
      single != ha
    }

    ghost function Now(stage: Stage): State
      reads this, single, ha
    {
      State(service, deployment, claim, single.buckets, ha.buckets, stage, acked, handover)
    }

    /** One attempt to migrate. The trace shows that it is a run of the steps above. */
    method MigrateMinioData(healthy: bool, faults: set<Call>, syncFaults: set<ObjectSync.Call>)
      returns (ok: bool, ghost trace: seq<State>, ghost synced: bool)
      requires Valid() && deployment
      modifies this, ha
      ensures Valid() && podListed == old(podListed)
      ensures Run(trace) && trace[0] == old(Now(Idle)) && trace[|trace| - 1] == Now(Idle)
      ensures !healthy ==> ok && Now(Idle) == old(Now(Idle))
      ensures healthy ==> PassOutcome(old(Now(Idle)), Now(Idle), ok, faults, podListed, synced)
      ensures syncFaults == {} ==> synced
      // with no old pod listed it stops before the copy
      ensures healthy && !podListed ==>
        && !ok && deployment && claim == old(claim) && (service == old(service) || service == Some(Nowhere))
        && single.buckets == old(single.buckets) && ha.buckets == old(ha.buckets) && acked == old(acked)
      // the deployment goes only when every call before it succeeded, and the claim only after it
      ensures !deployment ==>
        && healthy && podListed && old(service).Some? && synced
        && faults !! {GetService, DisableService, ListPods, GetCredentials, EnableService, DeleteDeployment}
        && service == Some(HaPods) && ha.buckets == Overlay(old(single.buckets), old(ha.buckets))
      ensures claim != old(claim) ==> !deployment && !claim && DeleteOldClaim !in faults
      ensures ok && healthy ==> !deployment && !claim
      ensures healthy && podListed && old(service).Some? && faults == {} && syncFaults == {} ==> ok
      ensures single.buckets == old(single.buckets)
      ensures ha.buckets != old(ha.buckets) ==> healthy && podListed && faults !! {GetService, ListPods, GetCredentials}
    {
      trace := [Now(Idle)];
      if !healthy {
        return true, trace, true;
      }
      trace := Then(trace, Now(Healthy));
      if GetService in faults {
        return false, Then(trace, Now(Idle)), true;
      }
      if service.Some? {
        if DisableService in faults {
          return false, Then(trace, Now(Idle)), true;
        }
        service := Some(Nowhere);
      }
      trace := Then(trace, Now(Disabled));
      ok, trace, synced := CopyAndSwitch(faults, syncFaults, trace);
      PassMeans(old(Now(Idle)), Now(Idle), ok, faults, podListed, synced);
    }

    /** The rest of MigrateMinioData, with the service out of the way. */
    method CopyAndSwitch(faults: set<Call>, syncFaults: set<ObjectSync.Call>, ghost before: seq<State>)
      returns (ok: bool, ghost trace: seq<State>, ghost synced: bool)
      requires Valid() && deployment && Run(before) && before[|before| - 1] == Now(Disabled)
      modifies this, ha
      ensures Valid() && podListed == old(podListed)
      ensures Run(trace) && trace[0] == before[0] && trace[|trace| - 1] == Now(Idle)
      ensures CopyOutcome(old(Now(Idle)), Now(Idle), ok, faults, podListed, synced)
      ensures syncFaults == {} ==> synced
      // with no old pod listed nothing happens; the deployment goes only when every call before it succeeded
      ensures !podListed ==> !ok && Now(Idle) == old(Now(Idle))
      ensures !deployment ==> podListed && synced && faults !! {ListPods, GetCredentials, EnableService, DeleteDeployment}
    {
      trace := before;
      if ListPods in faults || !podListed || GetCredentials in faults {
        return false, Then(trace, Now(Idle)), true;
      }
      var counts, copied := SyncAllBuckets(single, ha, syncFaults);
      synced := copied;
      if !copied {
        trace := Then(trace, Now(Disabled));
        return false, Then(trace, Now(Idle)), false;
      }
      trace := Then(trace, Now(Synced));
      if EnableService in faults || service == None {
        return false, Then(trace, Now(Idle)), true;
      }
      ok, trace := SwitchOver(faults, trace);
    }

    /** Points the service at the HA pods and removes the old deployment and its claim. */
    method SwitchOver(faults: set<Call>, ghost before: seq<State>) returns (ok: bool, ghost trace: seq<State>)
      requires Valid() && deployment && service.Some? && Run(before) && before[|before| - 1] == Now(Synced)
      modifies this
      ensures acked == old(acked) && podListed == old(podListed)
      ensures Run(trace) && trace[0] == before[0] && trace[|trace| - 1] == Now(Idle)
      ensures service == Some(HaPods) && handover == Some(ha.buckets)
      ensures ok <==> DeleteDeployment !in faults && DeleteOldClaim !in faults
      ensures deployment == (DeleteDeployment in faults)
      ensures claim == (old(claim) && !ok)
    {
      service := Some(HaPods);
      handover := Some(ha.buckets);
      trace := Then(before, Now(Switched));
      if DeleteDeployment in faults {
        return false, Then(trace, Now(Idle));
      }
      deployment := false;
      trace := Then(trace, Now(DeploymentDeleted));
      if DeleteOldClaim in faults {
        return false, Then(trace, Now(Idle));
      }
      claim := false;
      return true, Then(trace, Now(Idle));
    }

    /** Called only when the old deployment is gone. */
    method EnsureHAMinioSvc(faults: set<Call>) returns (ok: bool, ghost trace: seq<State>)
      requires Valid() && !deployment
      modifies this
      ensures podListed == old(podListed)
      ensures Run(trace) && trace[0] == old(Now(Idle)) && trace[|trace| - 1] == Now(Idle)
      ensures ok <==> GetService !in faults && old(service).Some? && (old(service) == Some(Nowhere) ==> UpdateService !in faults)
      ensures Now(Idle) == if ok && old(service) == Some(Nowhere) then old(Now(Idle)).(service := Some(HaPods)) else old(Now(Idle))
    {
      trace := [Now(Idle)];
      if GetService in faults || service == None {
        return false, trace;
      }
      if service == Some(Nowhere) {
        if UpdateService in faults {
          return false, trace;
        }
        service := Some(HaPods);
        trace := Then(trace, Now(Idle));
      }
      return true, trace;
    }

    /** The part of reconcileMinio that runs with three or more ready nodes. */
    method MaybeMigrate(healthy: bool, faults: set<Call>, syncFaults: set<ObjectSync.Call>)
      returns (ok: bool, ghost trace: seq<State>, ghost synced: bool)
      requires Valid()
      modifies this, ha
      ensures Valid() && podListed == old(podListed)
      ensures Run(trace) && trace[0] == old(Now(Idle)) && trace[|trace| - 1] == Now(Idle)
      ensures GetDeployment in faults ==> !ok && Now(Idle) == old(Now(Idle))
      ensures GetDeployment !in faults && old(deployment) ==>
        if healthy then PassOutcome(old(Now(Idle)), Now(Idle), ok, faults, podListed, synced) && (syncFaults == {} ==> synced)
        else ok && Now(Idle) == old(Now(Idle))
      ensures GetDeployment !in faults && !old(deployment) ==>
        && (ok <==> GetService !in faults && old(service).Some? && (old(service) == Some(Nowhere) ==> UpdateService !in faults))
        && Now(Idle) == if ok && old(service) == Some(Nowhere) then old(Now(Idle)).(service := Some(HaPods)) else old(Now(Idle))
      // with no old pod listed it stops before the copy
      ensures GetDeployment !in faults && old(deployment) && healthy && !podListed ==>
        && !ok && deployment && claim == old(claim) && (service == old(service) || service == Some(Nowhere))
        && single.buckets == old(single.buckets) && ha.buckets == old(ha.buckets) && acked == old(acked)
      // the deployment goes only when every call before it succeeded, and the claim only after it
      ensures old(deployment) && !deployment ==>
        && healthy && podListed && old(service).Some? && synced
        && faults !! {GetDeployment, GetService, DisableService, ListPods, GetCredentials, EnableService, DeleteDeployment}
        && service == Some(HaPods) && ha.buckets == Overlay(old(single.buckets), old(ha.buckets))
      ensures old(deployment) && claim != old(claim) ==> !deployment && !claim && DeleteOldClaim !in faults
      ensures old(deployment) && ok && healthy ==> !deployment && !claim
      ensures GetDeployment !in faults && old(deployment) && healthy && podListed && old(service).Some? && faults == {} && syncFaults == {} ==> ok
      ensures single.buckets == old(single.buckets)
      ensures ha.buckets != old(ha.buckets) ==> healthy && podListed && faults !! {GetDeployment, GetService, ListPods, GetCredentials}
    {
      synced := true;
      if GetDeployment in faults {
        return false, [Now(Idle)], true;
      }
      if deployment {
        ok, trace, synced := MigrateMinioData(healthy, faults, syncFaults);
      } else {
        ok, trace := EnsureHAMinioSvc(faults);
      }
    }
  }
}
