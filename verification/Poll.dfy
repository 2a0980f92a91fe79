/**
 When things happen: the poll loop (pkg/ekcoops/poll.go) makes every sixtieth success a full reconcile, and a
 stored timestamp spaces the attempts to rotate certificates (pkg/cluster/certs.go).
 */
module Poll {
  import opened Prelude

  // ---------- the loop ----------

  /** One tick: whether listing the nodes worked, and if it did, whether reconciling did. */
  datatype Tick = Tick(listed: bool, reconciled: bool)

  predicate Success(t: Tick) {
    t.listed && t.reconciled
  }

  function Successes(ticks: seq<Tick>): nat {
    if ticks == [] then 0
    else Successes(ticks[..|ticks| - 1]) + if Success(ticks[|ticks| - 1]) then 1 else 0
  }

  /** Whether tick `k` is a full reconcile. */
  predicate Full(ticks: seq<Tick>, k: nat)
    requires k < |ticks|
  {
    ticks[k].listed && Successes(ticks[..k]) % 60 == 0
  }

  /** The ticks up to the end of the context; the result says which ones reached Reconcile, and how. */
  method PollTicks(ticks: seq<Tick>) returns (calls: seq<Option<bool>>)
    ensures |calls| == |ticks|
    ensures forall k :: 0 <= k < |ticks| ==> calls[k].Some? == ticks[k].listed
    ensures forall k :: 0 <= k < |ticks| && ticks[k].listed ==> calls[k] == Some(Full(ticks, k))
  {
    var i := 0;
    calls := [];
    for k := 0 to |ticks|
      invariant i == Successes(ticks[..k])
      invariant |calls| == k
      invariant forall j :: 0 <= j < k ==> calls[j] == if ticks[j].listed then Some(Full(ticks, j)) else None
    {
      assert ticks[..k + 1][..k] == ticks[..k];
      if !ticks[k].listed {
        calls := calls + [None];
        continue;
      }
      var doFullReconcile := i % 60 == 0;
      calls := calls + [Some(doFullReconcile)];
      if !ticks[k].reconciled {
        continue;
      }
      i := i + 1;
    }
    assert ticks[..|ticks|] == ticks;
  }

  function FullSuccesses(ticks: seq<Tick>): nat {
    if ticks == [] then 0
    else FullSuccesses(ticks[..|ticks| - 1]) + if Success(ticks[|ticks| - 1]) && Full(ticks, |ticks| - 1) then 1 else 0
  }

  /** Exactly one success in sixty is a full one, starting with the first. */
  lemma {:induction false} OneInSixty(ticks: seq<Tick>)
    ensures 60 * FullSuccesses(ticks) >= Successes(ticks) > 60 * FullSuccesses(ticks) - 60
  {
    if ticks != [] {
      OneInSixty(ticks[..|ticks| - 1]);
    }
  }

  lemma {:induction false} NoSuccessBetween(ticks: seq<Tick>, k: nat, n: nat)
    requires k <= n <= |ticks| && forall j :: k <= j < n ==> !Success(ticks[j])
    ensures Successes(ticks[..n]) == Successes(ticks[..k])
  {
    if k < n {
      assert ticks[..n][..n - 1] == ticks[..n - 1];
      NoSuccessBetween(ticks, k, n - 1);
    }
  }

  /** A full reconcile that fails is not lost: every tick that reaches Reconcile is full again, until one
      succeeds, and the one after that is not. */
  lemma FullUntilItSucceeds(ticks: seq<Tick>, k: nat, n: nat)
    requires k < n < |ticks| && Full(ticks, k) && ticks[n].listed
    requires forall j :: k < j < n ==> !Success(ticks[j])
    ensures Full(ticks, n) <==> !Success(ticks[k])
  {
    assert ticks[..k + 1][..k] == ticks[..k];
    NoSuccessBetween(ticks, k + 1, n);
  }

  // ---------- the rotation throttle ----------

  const SECOND := 1_000_000_000

  /** The stored time in nanoseconds, or a text that is not a time. */
  datatype Stamp = Missing | Malformed | At(time: int)

  datatype Call = GetMap | CreateMap | UpdateMap

  /** One check: what the clock shows when it compares and when it writes, in nanoseconds. */
  datatype Check = Check(compared: int, written: int, reset: bool, faults: set<Call>)

  datatype Answer = Due | NotDue | Error

  /** RFC 3339 without fraction: section 5.6 makes the fraction optional, and the format used leaves it out. */
  function Truncated(time: int): int {
    time - time % SECOND
  }

  /** An unforced check comes before the interval has passed since the stored time. */
  predicate TooSoon(stamp: Stamp, c: Check, interval: int) {
    stamp.At? && !c.reset && c.compared < stamp.time + interval
  }

  /** A check grants an attempt when it is the first, forced, or late enough, and can record it. */
  predicate Granted(stamp: Stamp, c: Check, interval: int) {
    && GetMap !in c.faults
    && (stamp == Missing ==> CreateMap !in c.faults)
    && (stamp != Missing ==> stamp != Malformed && !TooSoon(stamp, c, interval) && UpdateMap !in c.faults)
  }

  class Throttle {
    var stamp: Stamp
    ghost var lastAttempt: Option<int>

    constructor ()
      ensures Valid() && stamp == Missing && lastAttempt == None
    {
      stamp, lastAttempt := Missing, None;
    }

    /** The last attempt is stored to the second. */
    ghost predicate Valid()
      reads this
    {
      lastAttempt.Some? ==> stamp.At? && stamp.time <= lastAttempt.value < stamp.time + SECOND
    }

    /** Every attempt is recorded before it starts, and nothing else is. An unforced attempt comes late enough
        after the last one, forced or not. */
    method CheckRotateCertsDue(c: Check, interval: int) returns (answer: Answer)
      requires Valid()
      modifies this
      ensures Valid() && lastAttempt == if answer == Due then Some(c.written) else old(lastAttempt)
      ensures answer == Due && !c.reset && old(lastAttempt).Some? ==> c.compared - old(lastAttempt).value > interval - SECOND
      ensures answer == Due <==> Granted(old(stamp), c, interval)
      ensures answer == NotDue <==> GetMap !in c.faults && TooSoon(old(stamp), c, interval)
      ensures answer == Due ==> stamp.At? && stamp.time <= c.written < stamp.time + SECOND && stamp.time % SECOND == 0
      ensures answer != Due ==> stamp == old(stamp)
      // the first check and a forced one are due; any other from the moment the interval is over
      ensures old(stamp) == Missing && c.faults !! {GetMap, CreateMap} ==> answer == Due
      ensures old(stamp).At? && c.faults !! {GetMap, UpdateMap} ==>
        (answer == Due <==> c.reset || c.compared - old(stamp).time >= interval) && (answer == NotDue <==> answer != Due)
      ensures GetMap in c.faults || old(stamp) == Malformed ==> answer == Error
    {
      if GetMap in c.faults {
        return Error;
      }
      if stamp == Missing {
        if CreateMap in c.faults {
          return Error;
        }
        stamp, lastAttempt := At(Truncated(c.written)), Some(c.written);
        return Due;
      }
      if stamp == Malformed {
        return Error;
      }
      if c.compared - stamp.time < interval && !c.reset {
        return NotDue;
      }
      if UpdateMap in c.faults {
        return Error;
      }
      stamp, lastAttempt := At(Truncated(c.written)), Some(c.written);
      return Due;
    }
  }

  function StampAfter(stamp: Stamp, checks: seq<Check>, interval: int): Stamp {
    if checks == [] then stamp
    else
      var before, last := StampAfter(stamp, checks[..|checks| - 1], interval), checks[|checks| - 1];
      if Granted(before, last, interval) then At(Truncated(last.written)) else before
  }

  /** Check `k` of a run grants an attempt. */
  predicate GrantedAt(stamp: Stamp, checks: seq<Check>, interval: int, k: nat)
    requires k < |checks|
  {
    Granted(StampAfter(stamp, checks[..k], interval), checks[k], interval)
  }

  predicate Monotone(checks: seq<Check>) {
    && (forall i :: 0 <= i < |checks| ==> checks[i].compared <= checks[i].written)
    && (forall i, j :: 0 <= i < j < |checks| ==> checks[i].written <= checks[j].compared)
  }

  /** After an attempt the stored time is never earlier than that attempt, up to the fraction of a second. */
  lemma {:induction false} StampKeepsUp(stamp: Stamp, checks: seq<Check>, interval: int, i: nat, n: nat)
    requires Monotone(checks) && i < n <= |checks| && GrantedAt(stamp, checks, interval, i)
    ensures var s := StampAfter(stamp, checks[..n], interval); s.At? && Truncated(checks[i].written) <= s.time
  {
    assert checks[..n][..n - 1] == checks[..n - 1];
    if n > i + 1 {
      StampKeepsUp(stamp, checks, interval, i, n - 1);
    }
  }

  /** Any unforced attempt comes more than the interval less one second after every attempt before it. */
  lemma AttemptsAreSpaced(stamp: Stamp, checks: seq<Check>, interval: int, i: nat, j: nat)
    requires Monotone(checks) && i < j < |checks| && !checks[j].reset
    requires GrantedAt(stamp, checks, interval, i) && GrantedAt(stamp, checks, interval, j)
    ensures checks[j].compared - checks[i].written > interval - SECOND
  {
    StampKeepsUp(stamp, checks, interval, i, j);
  }

  /** The bound cannot be improved: truncation lets an attempt come one nanosecond after it. */
  lemma SpacingIsTight(interval: int, seconds: int) returns (checks: seq<Check>)
    requires interval >= SECOND
    ensures Monotone(checks) && |checks| == 2 && !checks[1].reset
    ensures GrantedAt(Missing, checks, interval, 0) && GrantedAt(Missing, checks, interval, 1)
    ensures checks[1].compared - checks[0].written == interval - SECOND + 1
  {
    var late := (seconds + 1) * SECOND - 1;
    assert Truncated(late) == seconds * SECOND;
    var next := seconds * SECOND + interval;
    checks := [Check(late, late, false, {}), Check(next, next, false, {})];
    assert checks[..0] == [] && checks[..1] == [checks[0]];
    assert [checks[0]][..0] == [];
    assert StampAfter(Missing, [checks[0]], interval) == At(seconds * SECOND);
  }

  /** A stored text that is not a time is never repaired, not even by a forced check. */
  lemma {:induction false} MalformedForever(checks: seq<Check>, interval: int)
    ensures StampAfter(Malformed, checks, interval) == Malformed
    ensures forall k :: 0 <= k < |checks| ==> !GrantedAt(Malformed, checks, interval, k)
  {
    for n := 0 to |checks|
      invariant forall k :: 0 <= k <= n ==> StampAfter(Malformed, checks[..k], interval) == Malformed
    {
      assert checks[..n + 1][..n] == checks[..n];
    }
    assert checks[..|checks|] == checks;
  }
}
