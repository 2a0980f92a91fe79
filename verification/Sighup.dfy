/**
 Sending SIGHUP to every HAProxy pod at once (pkg/cluster/internallb.go, sighupPods): one worker per pod, a
 buffered channel of results, a closer that waits for the workers, and a receiver with a timeout. Every
 schedule of their steps is a run of this machine.
 */
module Sighup {

  datatype Worker = Unborn | Running | Holding(good: bool) | Sent(good: bool) | Exited(good: bool)

  datatype Closer = Waiting | Woken | Closed

  datatype Verdict = AllSignalled | ExecFailed | TimedOut

  datatype Receiver = Spawning(next: nat) | Receiving | Returned(verdict: Verdict)

  datatype State = State(
    workers: seq<Worker>, // one for each pod
    pending: int,         // the counter of the wait group
    buffer: seq<bool>,    // the results in the channel, oldest first; true is a nil error
    closed: bool,
    closer: Closer,
    receiver: Receiver,
    received: seq<bool>   // history: the results taken from the channel
  )

  /** `ExecReturns` is the end of the remote command, with exit code 0 and no error or otherwise. */
  datatype Action = Spawn | ExecReturns(i: nat, good: bool) | Send(i: nat) | Exit(i: nat)
                  | Wake | Close | Receive | Timeout

  /** After wg.Add and the start of the closer, before the first worker. */
  function Start(pods: nat): State {
    State(seq(pods, _ => Unborn), pods, [], false, Waiting, Spawning(0), [])
  }

  /** The goroutine that takes this action has come to it. */
  predicate Arrived(s: State, a: Action) {
    match a
    case Spawn => s.receiver.Spawning? && s.receiver.next <= |s.workers|
    case ExecReturns(i, _) => i < |s.workers| && s.workers[i].Running?
    case Send(i) => i < |s.workers| && s.workers[i].Holding?
    case Exit(i) => i < |s.workers| && s.workers[i].Sent?
    case Wake => s.closer == Waiting
    case Close => s.closer == Woken
    case Receive => s.receiver == Receiving
    case Timeout => s.receiver == Receiving
  }

  /** The channel has room for one result for each pod. */
  predicate Blocked(s: State, a: Action) {
    match a
    case Send(_) => !s.closed && |s.buffer| >= |s.workers|
    case Wake => s.pending != 0
    case Receive => s.buffer == [] && !s.closed
    case _ => false
  }

  predicate Panics(s: State, a: Action) {
    match a
    case Send(_) => s.closed
    case Exit(_) => s.pending <= 0
    case Close => s.closed
    case _ => false
  }

  predicate Enabled(s: State, a: Action) {
    Arrived(s, a) && !Blocked(s, a) && !Panics(s, a)
  }

  function Next(s: State, a: Action): State
    requires Enabled(s, a)
  {
    match a
    case Spawn =>
      var k := s.receiver.next;
      if k == |s.workers| then s.(receiver := Receiving)
      else s.(workers := s.workers[k := Running], receiver := Spawning(k + 1))
    case ExecReturns(i, good) => s.(workers := s.workers[i := Holding(good)])
    case Send(i) =>
      s.(workers := s.workers[i := Sent(s.workers[i].good)], buffer := s.buffer + [s.workers[i].good])
    case Exit(i) => s.(workers := s.workers[i := Exited(s.workers[i].good)], pending := s.pending - 1)
    case Wake => s.(closer := Woken)
    case Close => s.(closer := Closed, closed := true)
    case Receive =>
      if s.buffer == [] then s.(receiver := Returned(AllSignalled))
      else s.(buffer := s.buffer[1..], received := s.received + [s.buffer[0]],
              receiver := if s.buffer[0] then Receiving else Returned(ExecFailed))
    case Timeout => s.(receiver := Returned(TimedOut))
  }

  /** The states that some schedule reaches in the given steps. */
  ghost predicate Leads(s: State, schedule: seq<Action>, t: State) {
    if schedule == [] then s == t
    else
      var front := schedule[..|schedule| - 1];
      exists m :: Leads(s, front, m) && Enabled(m, schedule[|schedule| - 1]) && t == Next(m, schedule[|schedule| - 1])
  }

  // ---------- counting ----------

  function Count<T>(xs: seq<T>, p: T -> bool): nat {
    if xs == [] then 0 else (if p(xs[0]) then 1 else 0) + Count(xs[1..], p)
  }

  lemma {:induction false} CountUpdate<T>(xs: seq<T>, i: nat, x: T, p: T -> bool)
    requires i < |xs|
    ensures Count(xs[i := x], p) == Count(xs, p) - (if p(xs[i]) then 1 else 0) + (if p(x) then 1 else 0)
  {
    if i > 0 {
      assert xs[i := x] == [xs[0]] + xs[1..][i - 1 := x];
      CountUpdate(xs[1..], i - 1, x, p);
    } else {
      assert xs[i := x] == [x] + xs[1..];
    }
  }

  lemma {:induction false} CountAppend<T>(xs: seq<T>, x: T, p: T -> bool)
    ensures Count(xs + [x], p) == Count(xs, p) + if p(x) then 1 else 0
  {
    if xs == [] {
      assert xs + [x] == [x];
    } else {
      assert xs + [x] == [xs[0]] + (xs[1..] + [x]);
      CountAppend(xs[1..], x, p);
    }
  }

  lemma {:induction false} CountExtremes<T>(xs: seq<T>, p: T -> bool)
    ensures Count(xs, p) <= |xs|
    ensures Count(xs, p) == |xs| <==> forall i :: 0 <= i < |xs| ==> p(xs[i])
    ensures Count(xs, p) == 0 <==> forall i :: 0 <= i < |xs| ==> !p(xs[i])
  {
    if xs != [] {
      CountExtremes(xs[1..], p);
      assert xs == [xs[0]] + xs[1..];
    }
  }

  predicate Delivered(w: Worker) {
    w.Sent? || w.Exited?
  }

  predicate DeliveredBad(w: Worker) {
    Delivered(w) && !w.good
  }

  predicate Gone(w: Worker) {
    w.Exited?
  }

  predicate Bad(good: bool) {
    !good
  }

  // ---------- the invariant ----------

  predicate Valid(s: State) {
    // every result sent is in the channel or was received, and so is every failure
    && |s.received| + |s.buffer| == Count(s.workers, Delivered)
    && Count(s.received + s.buffer, Bad) == Count(s.workers, DeliveredBad)
    // the wait group counts the workers that have not ended
    && s.pending == |s.workers| - Count(s.workers, Gone)
    && (s.closer != Waiting ==> s.pending == 0)
    && (s.closed <==> s.closer == Closed)
    // what the receiver has seen
    && Births(s)
    && (s.receiver != Returned(ExecFailed) ==> Count(s.received, Bad) == 0)
    && (s.receiver == Returned(ExecFailed) ==> Count(s.received, Bad) > 0)
    && (s.receiver == Returned(AllSignalled) ==> s.closed && s.buffer == [])
  }

  /** The workers not yet started are those the receiver still has to start. */
  predicate Births(s: State) {
    && (s.receiver.Spawning? ==> s.receiver.next <= |s.workers|)
    && forall i :: 0 <= i < |s.workers| ==> (s.workers[i].Unborn? <==> s.receiver.Spawning? && s.receiver.next <= i)
  }

  lemma StartValid(pods: nat)
    ensures Valid(Start(pods))
  {
    CountExtremes(Start(pods).workers, Delivered);
    CountExtremes(Start(pods).workers, DeliveredBad);
    CountExtremes(Start(pods).workers, Gone);
  }

  lemma WorkerCounts(ws: seq<Worker>, i: nat, w: Worker)
    requires i < |ws|
    ensures Count(ws[i := w], Delivered) == Count(ws, Delivered) - (if Delivered(ws[i]) then 1 else 0) + (if Delivered(w) then 1 else 0)
    ensures Count(ws[i := w], DeliveredBad) == Count(ws, DeliveredBad) - (if DeliveredBad(ws[i]) then 1 else 0) + (if DeliveredBad(w) then 1 else 0)
    ensures Count(ws[i := w], Gone) == Count(ws, Gone) - (if Gone(ws[i]) then 1 else 0) + (if Gone(w) then 1 else 0)
  {
    CountUpdate(ws, i, w, Delivered);
    CountUpdate(ws, i, w, DeliveredBad);
    CountUpdate(ws, i, w, Gone);
  }

  lemma SpawnKeepsValid(s: State)
    requires Valid(s) && Enabled(s, Spawn)
    ensures Valid(Next(s, Spawn))
  {
    if s.receiver.next < |s.workers| {
      WorkerCounts(s.workers, s.receiver.next, Running);
    }
  }

  lemma ReturnKeepsValid(s: State, i: nat, good: bool)
    requires Valid(s) && Enabled(s, ExecReturns(i, good))
    ensures Valid(Next(s, ExecReturns(i, good)))
  {
    WorkerCounts(s.workers, i, Holding(good));
  }

  lemma SendKeepsValid(s: State, i: nat)
    requires Valid(s) && Enabled(s, Send(i))
    ensures Valid(Next(s, Send(i)))
  {
    var good := s.workers[i].good;
    WorkerCounts(s.workers, i, Sent(good));
    CountAppend(s.received + s.buffer, good, Bad);
    assert s.received + (s.buffer + [good]) == (s.received + s.buffer) + [good];
  }

  lemma ExitKeepsValid(s: State, i: nat)
    requires Valid(s) && Enabled(s, Exit(i))
    ensures Valid(Next(s, Exit(i)))
  {
    WorkerCounts(s.workers, i, Exited(s.workers[i].good));
  }

  lemma ReceiveKeepsValid(s: State)
    requires Valid(s) && Enabled(s, Receive)
    ensures Valid(Next(s, Receive))
  {
    if s.buffer != [] {
      CountAppend(s.received, s.buffer[0], Bad);
      assert (s.received + [s.buffer[0]]) + s.buffer[1..] == s.received + s.buffer;
    }
  }

  lemma StepKeepsValid(s: State, a: Action)
    requires Valid(s) && Enabled(s, a)
    ensures Valid(Next(s, a))
  {
    match a
    case Spawn => SpawnKeepsValid(s);
    case ExecReturns(i, good) => ReturnKeepsValid(s, i, good);
    case Send(i) => SendKeepsValid(s, i);
    case Exit(i) => ExitKeepsValid(s, i);
    case Receive => ReceiveKeepsValid(s);
    case _ =>
  }

  lemma {:induction false} RunsAreValid(pods: nat, schedule: seq<Action>, s: State)
    requires Leads(Start(pods), schedule, s)
    ensures Valid(s) && |s.workers| == pods
  {
    if schedule == [] {
      StartValid(pods);
    } else {
      var front, last := schedule[..|schedule| - 1], schedule[|schedule| - 1];
      var m :| Leads(Start(pods), front, m) && Enabled(m, last) && s == Next(m, last);
      RunsAreValid(pods, front, m);
      StepKeepsValid(m, last);
    }
  }

  // ---------- safety ----------

  predicate AllSucceeded(s: State) {
    forall i :: 0 <= i < |s.workers| ==> s.workers[i] == Exited(true)
  }

  /** A worker that still holds its result finds the channel open and with room. */
  lemma RoomToSend(s: State, i: nat)
    requires Valid(s) && i < |s.workers| && s.workers[i].Holding?
    ensures !s.closed && |s.buffer| < |s.workers|
  {
    CountExtremes(s.workers, Delivered);
    CountExtremes(s.workers, Gone);
  }

  /** In every schedule: no send, worker end or close panics, and no send ever blocks, whatever the receiver
      has returned. */
  lemma NothingPanicsOrBlocks(pods: nat, schedule: seq<Action>, s: State, a: Action)
    requires Leads(Start(pods), schedule, s) && Arrived(s, a)
    ensures !Panics(s, a)
    ensures a.Send? ==> !Blocked(s, a)
  {
    RunsAreValid(pods, schedule, s);
    match a
    case Send(i) => RoomToSend(s, i);
    case Exit(i) => CountExtremes(s.workers, Gone);
    case _ =>
  }

  /** The channel is closed only after every worker has sent its result and ended. */
  lemma ClosesAfterAllSends(pods: nat, schedule: seq<Action>, s: State)
    requires Leads(Start(pods), schedule, s) && (s.closed || Enabled(s, Close))
    ensures forall i :: 0 <= i < |s.workers| ==> s.workers[i].Exited?
  {
    RunsAreValid(pods, schedule, s);
    CountExtremes(s.workers, Gone);
  }

  /** What each verdict means: success only if every command succeeded, failure only if one failed. */
  lemma VerdictMeans(pods: nat, schedule: seq<Action>, s: State)
    requires Leads(Start(pods), schedule, s)
    ensures s.receiver == Returned(AllSignalled) ==> AllSucceeded(s)
    ensures s.receiver == Returned(ExecFailed) ==> exists i :: 0 <= i < |s.workers| && DeliveredBad(s.workers[i])
  {
    RunsAreValid(pods, schedule, s);
    if s.receiver == Returned(AllSignalled) {
      ClosesAfterAllSends(pods, schedule, s);
      assert s.received + s.buffer == s.received;
      CountExtremes(s.workers, DeliveredBad);
      assert forall i :: 0 <= i < |s.workers| ==> !DeliveredBad(s.workers[i]);
    }
    if s.receiver == Returned(ExecFailed) {
      FailuresSplit(s.received, s.buffer);
      CountExtremes(s.workers, DeliveredBad);
    }
  }

  lemma {:induction false} FailuresSplit(a: seq<bool>, b: seq<bool>)
    ensures Count(a + b, Bad) == Count(a, Bad) + Count(b, Bad)
  {
    if a == [] {
      assert a + b == b;
    } else {
      assert a + b == [a[0]] + (a[1..] + b);
      FailuresSplit(a[1..], b);
    }
  }

  // ---------- every schedule ends ----------

  function Rank(w: Worker): nat {
    match w
    case Unborn => 5
    case Running => 4
    case Holding(_) => 3
    case Sent(_) => 1
    case Exited(_) => 0
  }

  function Ranks(ws: seq<Worker>): nat {
    if ws == [] then 0 else Rank(ws[0]) + Ranks(ws[1..])
  }

  lemma {:induction false} RanksUpdate(ws: seq<Worker>, i: nat, w: Worker)
    requires i < |ws|
    ensures Ranks(ws[i := w]) == Ranks(ws) - Rank(ws[i]) + Rank(w)
  {
    if i > 0 {
      assert ws[i := w] == [ws[0]] + ws[1..][i - 1 := w];
      RanksUpdate(ws[1..], i - 1, w);
    } else {
      assert ws[i := w] == [w] + ws[1..];
    }
  }

  function StepsLeft(s: State): nat {
    Ranks(s.workers) + |s.buffer|
    + (match s.closer case Waiting => 2 case Woken => 1 case Closed => 0)
    + (match s.receiver case Spawning(_) => 2 case Receiving => 1 case Returned(_) => 0)
  }

  lemma StepsGoDown(s: State, a: Action)
    requires Enabled(s, a) && Valid(s)
    ensures StepsLeft(Next(s, a)) < StepsLeft(s)
  {
    match a
    case Spawn =>
      if s.receiver.next < |s.workers| {
        RanksUpdate(s.workers, s.receiver.next, Running);
      }
    case ExecReturns(i, good) => RanksUpdate(s.workers, i, Holding(good));
    case Send(i) => RanksUpdate(s.workers, i, Sent(s.workers[i].good));
    case Exit(i) => RanksUpdate(s.workers, i, Exited(s.workers[i].good));
    case _ =>
  }

  lemma {:induction false} StartRanks(pods: nat)
    ensures Ranks(seq(pods, _ => Unborn)) == 5 * pods
  {
    if pods > 0 {
      var all: seq<Worker> := seq(pods, _ => Unborn);
      var rest: seq<Worker> := seq(pods - 1, _ => Unborn);
      assert all[1..] == rest;
      StartRanks(pods - 1);
    }
  }

  /** No schedule is longer than five steps a pod and four more. */
  lemma {:induction false} SchedulesAreBounded(pods: nat, schedule: seq<Action>, s: State)
    requires Leads(Start(pods), schedule, s)
    ensures |schedule| + StepsLeft(s) <= 5 * pods + 4
  {
    if schedule == [] {
      StartRanks(pods);
    } else {
      var front, last := schedule[..|schedule| - 1], schedule[|schedule| - 1];
      var m :| Leads(Start(pods), front, m) && Enabled(m, last) && s == Next(m, last);
      SchedulesAreBounded(pods, front, m);
      RunsAreValid(pods, front, m);
      StepsGoDown(m, last);
    }
  }

  /** The receiver has returned, the closer has closed the channel, and every worker has ended. */
  predicate Finished(s: State) {
    s.receiver.Returned? && s.closer == Closed && forall i :: 0 <= i < |s.workers| ==> s.workers[i].Exited?
  }

  lemma WorkerCanMove(s: State, i: nat)
    requires Valid(s) && !s.receiver.Spawning? && i < |s.workers| && !s.workers[i].Exited?
    ensures exists a :: Enabled(s, a)
  {
    assert !s.workers[i].Unborn?;
    CountExtremes(s.workers, Gone);
    match s.workers[i] {
      case Running => assert Enabled(s, ExecReturns(i, true));
      case Holding(_) =>
        RoomToSend(s, i);
        assert Enabled(s, Send(i));
      case Sent(_) => assert Enabled(s, Exit(i));
    }
  }

  /** Nothing is left to run exactly when all have finished: no goroutine is ever stuck, also after an early
      return of the receiver. */
  lemma StuckOnlyWhenFinished(pods: nat, schedule: seq<Action>, s: State)
    requires Leads(Start(pods), schedule, s)
    ensures Finished(s) <==> forall a :: !Enabled(s, a)
  {
    RunsAreValid(pods, schedule, s);
    CountExtremes(s.workers, Gone);
    if !Finished(s) {
      if s.receiver.Spawning? {
        assert Enabled(s, Spawn);
      } else if i :| 0 <= i < |s.workers| && !s.workers[i].Exited? {
        WorkerCanMove(s, i);
      } else if s.closer == Closed {
        assert Enabled(s, Receive);
      } else {
        assert Enabled(s, if s.closer == Waiting then Wake else Close);
      }
    }
  }

  /** Unless it timed out, the finished call reports success if and only if every command succeeded. */
  lemma FinalVerdict(pods: nat, schedule: seq<Action>, s: State)
    requires Leads(Start(pods), schedule, s) && Finished(s) && s.receiver != Returned(TimedOut)
    ensures s.receiver == Returned(AllSignalled) <==> AllSucceeded(s)
  {
    RunsAreValid(pods, schedule, s);
    VerdictMeans(pods, schedule, s);
    assert s.receiver.verdict != AllSignalled ==> s.receiver.verdict == ExecFailed;
  }
}
