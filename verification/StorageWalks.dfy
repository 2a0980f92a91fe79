/**
 One migration on its own, from taking the lock to giving it back: every way it can go is a schedule of the
 machine.
 */
module StorageWalks {
  import opened Prelude
  import opened ObjectSync
  import opened Services
  import opened StorageMachine
  import opened StorageCopy

  /** What one migration sees of the machine. */
  datatype View = View(place: Place, status: Status, pauses: Pauses, cluster: Cluster)

  function ViewAfter(v: View, outcome: Outcome): View {
    View(PlaceAfter(v.place, v.status, v.cluster.minio, outcome), StatusAfter(v.place, v.status, outcome),
         PausesAfter(v.place, v.pauses), if outcome == Good then ClusterAfter(v.place, v.cluster) else v.cluster)
  }

  function PickAfter(v: View, source: Pods): View {
    v.(place := Picked(source))
  }

  function ItemAfter(v: View, item: Item): View
    requires v.place.Copying? && CanCopy(StoreOf(v.cluster.minio, v.place.source), v.cluster.rook, item)
  {
    v.(place := v.place.(todo := v.place.todo - {item}),
       cluster := v.cluster.(rook := CopyItem(StoreOf(v.cluster.minio, v.place.source), v.cluster.rook, item)))
  }

  /** The views of a migration one after the other. */
  type Trail = seq<View>

  ghost predicate Calls(v: View, w: View) {
    exists outcome :: Possible(v.place, v.cluster.volumes, outcome) && w == ViewAfter(v, outcome)
  }

  ghost predicate Picks(v: View, w: View) {
    v.place == Preparing && exists source :: w == PickAfter(v, source)
  }

  predicate Copies(v: View, item: Item) {
    v.place.Copying? && item in v.place.todo && CanCopy(StoreOf(v.cluster.minio, v.place.source), v.cluster.rook, item)
  }

  ghost predicate CopiesSome(v: View, w: View) {
    exists item :: Copies(v, item) && w == ItemAfter(v, item)
  }

  ghost predicate Follows(v: View, w: View) {
    Calls(v, w) || Picks(v, w) || CopiesSome(v, w)
  }

  ghost predicate StepsAt(t: Trail, k: nat)
    requires k + 1 < |t|
  {
    Follows(t[k], t[k + 1]) && Holds(t[k + 1].place)
  }

  /** Every view follows from the one before by a call that can end so, by picking a pod or by an item copied. */
  ghost predicate Walk(t: Trail) {
    t != [] && Holds(t[0].place) && forall k :: 0 <= k < |t| - 1 ==> StepsAt(t, k)
  }

  function First(t: Trail): View
    requires t != []
  {
    t[0]
  }

  function Last(t: Trail): View
    requires t != []
  {
    t[|t| - 1]
  }

  lemma Extends(t: Trail, v: View)
    requires Walk(t) && Follows(Last(t), v) && Holds(v.place)
    ensures Walk(t + [v]) && First(t + [v]) == First(t) && Last(t + [v]) == v
  {
    var u := t + [v];
    forall k | 0 <= k < |u| - 1 ensures StepsAt(u, k) {
      if k < |t| - 1 {
        assert StepsAt(t, k);
        assert u[k] == t[k] && u[k + 1] == t[k + 1];
      } else {
        assert u[k] == Last(t) && u[k + 1] == v;
      }
    }
  }

  ghost function Go(t: Trail, outcome: Outcome, v: View): (longer: Trail)
    requires Walk(t) && Possible(Last(t).place, Last(t).cluster.volumes, outcome) && v == ViewAfter(Last(t), outcome) && Holds(v.place)
    ensures Walk(longer) && First(longer) == First(t) && Last(longer) == v
  {
    Extends(t, v);
    t + [v]
  }

  // ---------- walks are schedules ----------

  /** Migration `i` holds the lock and sees `v`. */
  predicate Sees(s: State, i: nat, v: View) {
    i < |s.migrations| && s.lock == Some(i) && v == View(s.migrations[i].place, s.status, s.pauses, s.cluster)
  }

  lemma WorkShows(s: State, i: nat, v: View, outcome: Outcome)
    requires Sees(s, i, v) && Holds(v.place) && Possible(v.place, v.cluster.volumes, outcome) && Holds(ViewAfter(v, outcome).place)
    ensures Enabled(s, Work(i, outcome)) && Sees(Next(s, Work(i, outcome)), i, ViewAfter(v, outcome))
    ensures SameOthers(s, Next(s, Work(i, outcome)))
  {
  }

  /** Everything that a migration on its own leaves alone. */
  predicate SameOthers(s: State, t: State) {
    t.accepted == s.accepted && t.reconciles == s.reconciles && t.minioLock == s.minioLock && |t.migrations| == |s.migrations|
  }

  lemma StepIsAction(s: State, i: nat, t: Trail, k: nat) returns (a: Action)
    requires k + 1 < |t| && StepsAt(t, k) && Sees(s, i, t[k]) && Holds(t[k].place)
    ensures Enabled(s, a) && !a.Write? && Sees(Next(s, a), i, t[k + 1]) && SameOthers(s, Next(s, a))
  {
    if Calls(t[k], t[k + 1]) {
      var outcome :| Possible(t[k].place, t[k].cluster.volumes, outcome) && t[k + 1] == ViewAfter(t[k], outcome);
      WorkShows(s, i, t[k], outcome);
      a := Work(i, outcome);
    } else if Picks(t[k], t[k + 1]) {
      var source :| t[k + 1] == PickAfter(t[k], source);
      a := Pick(i, source);
    } else {
      var item :| Copies(t[k], item) && t[k + 1] == ItemAfter(t[k], item);
      a := Copy(i, item);
    }
  }

  /** Every walk is a schedule of the machine in which nobody else moves. */
  lemma {:induction false} WalkIsSchedule(s: State, i: nat, trail: Trail) returns (schedule: seq<Action>, t: State)
    requires Walk(trail) && Sees(s, i, First(trail))
    ensures Leads(s, schedule, t) && Sees(t, i, Last(trail)) && SameOthers(s, t)
    ensures forall k :: 0 <= k < |schedule| ==> !schedule[k].Write?
  {
    schedule, t := [], s;
    for k := 0 to |trail| - 1
      invariant Leads(s, schedule, t) && Sees(t, i, trail[k]) && Holds(trail[k].place) && SameOthers(s, t)
      invariant forall j :: 0 <= j < |schedule| ==> !schedule[j].Write?
    {
      var a := StepIsAction(t, i, trail, k);
      LeadsThen(s, schedule, t, a);
      schedule, t := schedule + [a], Next(t, a);
    }
  }

  // ---------- copying ----------

  /** The view with these items of the listing copied. */
  function WithCopied(v: View, source: Pods, items: set<Item>): View {
    var src := StoreOf(v.cluster.minio, source);
    v.(place := Copying(source, Listing(src) - items), cluster := v.cluster.(rook := WithItems(src, v.cluster.rook, items)))
  }

  /** Any closed part of the listing may be what has been copied. */
  lemma {:induction false} ItemsTrail(t: Trail, source: Pods, items: set<Item>) returns (u: Trail)
    requires Walk(t) && Last(t).place == Frozen(source) && Closed(StoreOf(Last(t).cluster.minio, source), items)
    ensures Walk(u) && First(u) == First(t) && Last(u) == WithCopied(Last(t), source, items)
    decreases items
  {
    var v := Last(t);
    var src := StoreOf(v.cluster.minio, source);
    if items == {} {
      WithoutItems(src, v.cluster.rook);
      assert Listing(src) - {} == Listing(src);
      u := Go(t, Good, WithCopied(v, source, {}));
    } else {
      var item := SomeLast(src, items);
      u := ItemsTrail(t, source, items - {item});
      u := OneMoreItem(u, v, source, items - {item}, item);
      assert items - {item} + {item} == items;
    }
  }

  lemma OneMoreItem(t: Trail, v: View, source: Pods, items: set<Item>, item: Item) returns (u: Trail)
    requires Walk(t) && Last(t) == WithCopied(v, source, items) && item !in items
    requires var src := StoreOf(v.cluster.minio, source); Closed(src, items) && Closed(src, items + {item})
    ensures Walk(u) && First(u) == First(t) && Last(u) == WithCopied(v, source, items + {item})
  {
    var src, w := StoreOf(v.cluster.minio, source), WithCopied(v, source, items + {item});
    ItemNext(src, v.cluster.rook, items, item);
    assert Listing(src) - items - {item} == Listing(src) - (items + {item});
    assert Copies(Last(t), item) && w == ItemAfter(Last(t), item);
    Extends(t, w);
    u := t + [w];
  }

  /** A whole copy. */
  lemma CopyTrail(t: Trail, source: Pods) returns (u: Trail)
    requires Walk(t) && Last(t).place == Frozen(source)
    ensures Walk(u) && First(u) == First(t)
    ensures Last(u) == AllCopied(Last(t), source)
  {
    var v, src := Last(t), StoreOf(Last(t).cluster.minio, source);
    AllItems(src, v.cluster.rook);
    u := ItemsTrail(t, source, Listing(src));
    assert Listing(src) - Listing(src) == {};
    u := Go(u, Good, AllCopied(v, source));
  }

  function AllCopied(v: View, source: Pods): View {
    v.(place := Switching(0), cluster := v.cluster.(rook := Overlay(StoreOf(v.cluster.minio, source), v.cluster.rook)))
  }

  /** A copy that stopped somewhere. */
  lemma PartTrail(t: Trail, source: Pods, mid: Store) returns (u: Trail)
    requires Walk(t) && Last(t).place == Frozen(source) && Partial(StoreOf(Last(t).cluster.minio, source), Last(t).cluster.rook, mid)
    ensures Walk(u) && First(u) == First(t)
    ensures Last(u) == Last(t).(place := Resuming(false), cluster := Last(t).cluster.(rook := mid))
  {
    var v, src := Last(t), StoreOf(Last(t).cluster.minio, source);
    PartItems(src, v.cluster.rook, mid);
    u := ItemsTrail(t, source, ItemsShown(src, mid));
    u := Go(u, Bad, v.(place := Resuming(false), cluster := v.cluster.(rook := mid)));
  }

  // ---------- the object phase ----------

  /** The cluster after that many of the calls under the pause: turn the service off, copy, switch three
      consumers, delete the stateful set, the deployment and the namespace. */
  function MovedTo(c: Cluster, source: Pods, done: nat): Cluster {
    var off := c.minio.(service := Nowhere);
    var copied := c.(minio := off, rook := Overlay(StoreOf(c.minio, source), c.rook));
    if done == 0 then c
    else if done == 1 then c.(minio := off)
    else if done == 2 then copied
    else if done == 3 then copied.(onRook := c.onRook + {Registry})
    else if done == 4 then copied.(onRook := c.onRook + {Registry, Velero})
    else if done == 5 then copied.(onRook := EVERYONE)
    else if done == 6 then copied.(onRook := EVERYONE, minio := off.(statefulSet := false))
    else if done == 7 then copied.(onRook := EVERYONE, minio := off.(statefulSet := false, deployment := false))
    else copied.(onRook := EVERYONE, minio := off.(statefulSet := false, deployment := false, namespace := false))
  }

  function MovingPlace(source: Pods, done: nat): Place {
    if done == 0 then Picked(source)
    else if done == 1 then Frozen(source)
    else if done <= 4 then Switching(done - 2)
    else if done == 5 then Redirected
    else if done == 6 then StatefulSetGone
    else if done == 7 then DeploymentGone
    else Resuming(true)
  }

  lemma MovedToNext(c: Cluster, source: Pods, done: nat)
    requires 0 < done <= 8 && done != 2
    ensures MovedTo(c, source, done) == ClusterAfter(MovingPlace(source, done - 1), MovedTo(c, source, done - 1))
  {
    if done == 4 {
      assert c.onRook + {Registry} + {Velero} == c.onRook + {Registry, Velero};
    } else if done == 5 {
      AllThree(c.onRook + {Registry, Velero} + {Kotsadm});
    }
  }

  lemma {:induction false} MovingTrail(t: Trail, c: Cluster, source: Pods, done: nat) returns (u: Trail)
    requires Walk(t) && done <= 8 && Last(t).place == Picked(source) && Last(t).cluster == c
    ensures Walk(u) && First(u) == First(t)
    ensures Last(u) == Last(t).(place := MovingPlace(source, done), cluster := MovedTo(c, source, done))
  {
    if done == 0 {
      u := t;
    } else if done == 2 {
      u := MovingTrail(t, c, source, 1);
      u := CopyTrail(u, source);
    } else {
      u := MovingTrail(t, c, source, done - 1);
      MovedToNext(c, source, done);
      u := Go(u, Good, Last(t).(place := MovingPlace(source, done), cluster := MovedTo(c, source, done)));
    }
  }

  /** Where the phase ends: with all calls done, or after the first that fails, which may be a copy that has
      come as far as `mid`. */
  function StoppedAt(c: Cluster, source: Pods, mid: Store, done: nat): Cluster {
    if done == 1 then MovedTo(c, source, 1).(rook := mid) else MovedTo(c, source, done)
  }

  lemma ResumingTrail(t: Trail, c: Cluster, source: Pods, mid: Store, done: nat) returns (u: Trail)
    requires Walk(t) && done <= 8 && Last(t).place == Picked(source) && Last(t).cluster == c
    requires done == 1 ==> Partial(StoreOf(c.minio, source), c.rook, mid)
    ensures Walk(u) && First(u) == First(t)
    ensures Last(u) == Last(t).(place := Resuming(done == 8), cluster := StoppedAt(c, source, mid, done))
  {
    u := MovingTrail(t, c, source, done);
    if done == 1 {
      u := PartTrail(u, source, mid);
    } else if done < 8 {
      u := Go(u, Bad, Last(t).(place := Resuming(false), cluster := MovedTo(c, source, done)));
    }
  }

  lemma ObjectsTrail(t: Trail, inUse: Option<bool>, source: Pods, mid: Store, done: nat) returns (u: Trail)
    requires Walk(t) && done <= 8 && Last(t).place == Starting && !Last(t).pauses.minio
    requires inUse.Some? ==> inUse.value == InUse(Last(t).cluster.minio)
    requires inUse == Some(true) && done == 1 ==> Partial(StoreOf(Last(t).cluster.minio, source), Last(t).cluster.rook, mid)
    ensures Walk(u) && First(u) == First(t)
    ensures Last(u) == Last(t).(place := ObjectsEnd(inUse.Some? && (inUse.value ==> done == 8)),
                                cluster := if inUse == Some(true) then StoppedAt(Last(t).cluster, source, mid, done) else Last(t).cluster)
  {
    var v := Last(t);
    if inUse == None {
      u := Go(t, Bad, v.(place := ObjectsEnd(false)));
    } else if !inUse.value {
      u := Go(t, Good, v.(place := ObjectsEnd(true)));
    } else {
      u := PausedTrail(t, source, mid, done);
    }
  }

  lemma PickTrail(t: Trail, source: Pods) returns (u: Trail)
    requires Walk(t) && Last(t).place == Preparing
    ensures Walk(u) && First(u) == First(t) && Last(u) == PickAfter(Last(t), source)
  {
    var v := PickAfter(Last(t), source);
    assert Picks(Last(t), v);
    Extends(t, v);
    u := t + [v];
  }

  lemma PausedTrail(t: Trail, source: Pods, mid: Store, done: nat) returns (u: Trail)
    requires Walk(t) && done <= 8 && Last(t).place == Starting && !Last(t).pauses.minio && InUse(Last(t).cluster.minio)
    requires done == 1 ==> Partial(StoreOf(Last(t).cluster.minio, source), Last(t).cluster.rook, mid)
    ensures Walk(u) && First(u) == First(t)
    ensures Last(u) == Last(t).(place := ObjectsEnd(done == 8), cluster := StoppedAt(Last(t).cluster, source, mid, done))
  {
    var v := Last(t);
    u := Go(t, Good, v.(place := Pausing));
    u := Go(u, Good, v.(place := Preparing, pauses := v.pauses.(minio := true)));
    u := PickTrail(u, source);
    u := ResumingTrail(u, v.cluster, source, mid, done);
    u := Go(u, Good, v.(place := ObjectsEnd(done == 8), cluster := StoppedAt(v.cluster, source, mid, done)));
  }

  /** From the copied data to the first delete. */
  lemma SwitchTrail(t: Trail) returns (u: Trail)
    requires Walk(t) && Last(t).place == Switching(0)
    ensures Walk(u) && First(u) == First(t)
    ensures Last(u) == Last(t).(place := Redirected, cluster := Last(t).cluster.(onRook := EVERYONE))
  {
    var v := Last(t);
    u := Go(t, Good, v.(place := Switching(1), cluster := v.cluster.(onRook := v.cluster.onRook + {Registry})));
    u := Go(u, Good, v.(place := Switching(2), cluster := v.cluster.(onRook := v.cluster.onRook + {Registry} + {Velero})));
    AllThree(v.cluster.onRook + {Registry} + {Velero} + {Kotsadm});
    u := Go(u, Good, v.(place := Redirected, cluster := v.cluster.(onRook := EVERYONE)));
  }

  /** Only the registry is switched, and the migration gives up. */
  lemma RegistryOnlyTrail(t: Trail) returns (u: Trail)
    requires Walk(t) && Last(t).place == Switching(0)
    ensures Walk(u) && First(u) == First(t)
    ensures Last(u) == View(Leaving, Failed, Last(t).pauses.(minio := false),
                            Last(t).cluster.(onRook := Last(t).cluster.onRook + {Registry}))
  {
    var v := Last(t).(cluster := Last(t).cluster.(onRook := Last(t).cluster.onRook + {Registry}));
    u := Go(t, Good, v.(place := Switching(1)));
    u := Go(u, Bad, v.(place := Resuming(false)));
    u := Go(u, Good, v.(place := ObjectsEnd(false), pauses := v.pauses.(minio := false)));
    u := Go(u, Good, View(Leaving, Failed, v.pauses.(minio := false), v.cluster));
  }

  /** From taking the lock to turning the service off. */
  lemma FrozenTrail(v: View, source: Pods) returns (u: Trail)
    requires v.place == Locked && v.status != Completed && InUse(v.cluster.minio)
    ensures Walk(u) && First(u) == v
    ensures Last(u) == View(Frozen(source), MovingObjects, v.pauses.(minio := true), v.cluster.(minio := v.cluster.minio.(service := Nowhere)))
  {
    var w := v.(place := Starting, status := MovingObjects);
    var p := w.(place := Preparing, pauses := v.pauses.(minio := true));
    u := Go([v], Good, v.(place := Unchecked));
    u := Go(u, Good, w);
    u := Go(u, Good, w.(place := Pausing));
    u := Go(u, Good, p);
    u := PickTrail(u, source);
    u := Go(u, Good, p.(place := Frozen(source), cluster := v.cluster.(minio := v.cluster.minio.(service := Nowhere))));
  }

  // ---------- the volume phase ----------

  /** The volumes after that many calls with both flags set: scale down, move, delete the class, scale up. */
  function VolumesTo(v: Volumes, done: nat): Volumes {
    if done == 0 then v
    else if done == 1 then v.(prometheusReplicas := 0)
    else if done == 2 then v.(prometheusReplicas := 0, moved := true)
    else if done == 3 then Volumes(true, false, 0)
    else Volumes(true, false, 2)
  }

  function WithVolumes(v: View, place: Place, done: nat): View {
    v.(place := place, cluster := v.cluster.(volumes := VolumesTo(v.cluster.volumes, done)))
  }

  lemma {:induction false} HeldTrail(t: Trail, done: nat) returns (u: Trail)
    requires Walk(t) && done <= 3 && Last(t).place == BothHeld(0) && (done == 3 ==> Last(t).cluster.volumes.oldClass)
    ensures Walk(u) && First(u) == First(t) && Last(u) == WithVolumes(Last(t), BothHeld(done), done)
  {
    if done == 0 {
      u := t;
    } else {
      u := HeldTrail(t, done - 1);
      u := Go(u, Good, WithVolumes(Last(t), BothHeld(done), done));
    }
  }

  lemma ReleasingTrail(t: Trail, done: nat) returns (u: Trail)
    requires Walk(t) && done <= 4 && Last(t).place == BothHeld(0) && (done >= 3 ==> Last(t).cluster.volumes.oldClass)
    ensures Walk(u) && First(u) == First(t) && Last(u) == WithVolumes(Last(t), Releasing(done == 4), done)
  {
    u := HeldTrail(t, if done < 3 then done else 3);
    u := Go(u, if done == 4 then Good else Bad, WithVolumes(Last(t), Releasing(done == 4), done));
  }

  lemma VolumesTrail(t: Trail, done: nat) returns (u: Trail)
    requires Walk(t) && done <= 4 && Last(t).place == VolumesBegin && Last(t).pauses == Pauses(false, false, false)
    requires done >= 3 ==> Last(t).cluster.volumes.oldClass
    ensures Walk(u) && First(u) == First(t) && Last(u) == WithVolumes(Last(t), VolumesEnd(done == 4), done)
  {
    var v := Last(t);
    u := Go(t, Good, v.(place := PrometheusHeld, pauses := Pauses(false, true, false)));
    u := Go(u, Good, v.(place := BothHeld(0), pauses := Pauses(false, true, true)));
    u := ReleasingTrail(u, done);
    u := Go(u, Good, WithVolumes(v, KotsadmReleased(done == 4), done).(pauses := Pauses(false, true, false)));
    u := Go(u, Good, WithVolumes(v, VolumesEnd(done == 4), done));
  }

  // ---------- a whole migration ----------

  /** What happened in one migration: it was completed before, the cluster was not ready, or it ran with that
      many calls of the two phases done, copying from `source`, its copy stopped at `mid` if it was stopped. */
  datatype History = AlreadyDone | Unready(reason: Outcome) | Ran(inUse: Option<bool>, source: Pods, moved: nat, mid: Store, volumes: nat)

  /** The calls made under the MinIO pause. */
  function MoveCalls(h: History): nat {
    if h.Ran? && h.inUse == Some(true) then h.moved else 0
  }

  predicate ObjectsMoved(h: History) {
    h.Ran? && h.inUse.Some? && (h.inUse.value ==> h.moved == 8)
  }

  function VolumeCalls(h: History): nat {
    if ObjectsMoved(h) then h.volumes else 0
  }

  ghost predicate Fits(v: View, h: History) {
    match h
    case AlreadyDone => v.status == Completed
    case Unready(reason) => v.status != Completed && reason != Good
    case Ran(inUse, source, moved, mid, volumes) =>
      && v.status != Completed && moved <= 8 && volumes <= 4
      && (inUse.Some? ==> inUse.value == InUse(v.cluster.minio))
      && (MoveCalls(h) == 1 ==> Partial(StoreOf(v.cluster.minio, source), v.cluster.rook, mid))
      && (VolumeCalls(h) >= 3 ==> v.cluster.volumes.oldClass)
  }

  function ClusterOf(c: Cluster, h: History): Cluster {
    var moved := if h.Ran? && h.inUse == Some(true) then StoppedAt(c, h.source, h.mid, h.moved) else c;
    moved.(volumes := VolumesTo(c.volumes, VolumeCalls(h)))
  }

  function StatusOf(status: Status, h: History): Status {
    match h
    case AlreadyDone => status
    case Unready(reason) => if reason == Bad then Failed else NotReady
    case Ran(_, _, _, _, _) => if VolumeCalls(h) == 4 then Completed else Failed
  }

  function EndOf(v: View, h: History): View {
    View(Leaving, StatusOf(v.status, h), v.pauses, ClusterOf(v.cluster, h))
  }

  /** Every history is a walk of the machine from taking the lock to giving it back. */
  lemma HistoryIsWalk(v: View, h: History) returns (u: Trail)
    requires v.place == Locked && v.pauses == Pauses(false, false, false) && Fits(v, h)
    ensures Walk(u) && First(u) == v && Last(u) == EndOf(v, h)
  {
    u := [v];
    match h
    case AlreadyDone => u := Go(u, Good, EndOf(v, h));
    case Unready(reason) =>
      u := Go(u, Good, v.(place := Unchecked));
      u := Go(u, reason, EndOf(v, h));
    case Ran(_, _, _, _, _) =>
      u := Go(u, Good, v.(place := Unchecked));
      u := Go(u, Good, v.(place := Starting, status := MovingObjects));
      u := RanTrail(u, h);
  }

  /** The part after the readiness check. */
  lemma RanTrail(t: Trail, h: History) returns (u: Trail)
    requires Walk(t) && Last(t).place == Starting && Last(t).status == MovingObjects && Last(t).pauses == Pauses(false, false, false)
    requires h.Ran? && Fits(Last(t), h)
    ensures Walk(u) && First(u) == First(t) && Last(u) == EndOf(Last(t), h)
  {
    u := ObjectsTrail(t, h.inUse, h.source, h.mid, h.moved);
    if ObjectsMoved(h) {
      u := ThroughVolumes(u, h.volumes);
    } else {
      u := Go(u, Good, Last(u).(place := Leaving, status := Failed));
    }
  }

  lemma ThroughVolumes(t: Trail, done: nat) returns (u: Trail)
    requires Walk(t) && done <= 4 && Last(t).place == ObjectsEnd(true) && Last(t).pauses == Pauses(false, false, false)
    requires done >= 3 ==> Last(t).cluster.volumes.oldClass
    ensures Walk(u) && First(u) == First(t)
    ensures Last(u) == WithVolumes(Last(t), Leaving, done).(status := if done == 4 then Completed else Failed)
  {
    var v := Last(t).(place := VolumesBegin, status := MovingVolumes);
    u := Go(t, Good, v);
    u := VolumesTrail(u, done);
    u := Go(u, Good, WithVolumes(v, Leaving, done).(status := if done == 4 then Completed else Failed));
  }

  /** So every migration of the code is a schedule of the machine, whoever else waits. */
  lemma HistoryIsSchedule(s: State, i: nat, v: View, h: History) returns (schedule: seq<Action>, t: State)
    requires Sees(s, i, v) && v.place == Locked && v.pauses == Pauses(false, false, false) && Fits(v, h)
    ensures Leads(s, schedule, t) && Sees(t, i, EndOf(v, h))
  {
    var trail := HistoryIsWalk(v, h);
    schedule, t := WalkIsSchedule(s, i, trail);
  }
}
