/**
 The drain protocol of rust/porta-server/src/ops/shutdown.rs as interleaved
 atomic steps of any number of threads, each starting any operation at any time.
 Steps are sequentially consistent.
 */
module Drain {
  /** Where a thread stands: between operations, within one, or holding a guard. */
  datatype Thread =
    | Idle
    | BeginCheck
    | BeginAdd
    | BeginRecheck
    | BeginUndo
    | Holding
    | Notifying
    | StopStore
    | StopCancel
    | StopLoad
    | WaitStart
    | WaitLoad(seen: nat)
    | Parked(seen: nat)
    | Drained
    | TimedOut

  /** The shared atomics; `wakeups` counts the calls of notify_waiters. */
  datatype State = State(accepting: bool, cancelled: bool, active: nat, wakeups: nat, threads: seq<Thread>)

  predicate Initial(s: State) {
    && s.accepting && !s.cancelled && s.active == 0 && s.wakeups == 0
    && forall i :: 0 <= i < |s.threads| ==> s.threads[i] == Idle
  }

  function At(s: State, i: nat): Thread {
    if i < |s.threads| then s.threads[i] else Idle
  }

  function Goes(s: State, i: nat, next: Thread): State
    requires i < |s.threads|
  {
    s.(threads := s.threads[i := next])
  }

  /** fetch_sub, and a notification when it took the last one. */
  function Leaves(s: State, i: nat): State
    requires i < |s.threads|
  {
    Goes(s, i, if s.active == 1 then Notifying else Idle).(active := if s.active == 0 then 0 else s.active - 1)
  }

  /** One atomic step of thread `i`. A notified future sees every notify_waiters call after its creation. */
  predicate Step(s: State, t: State, i: nat) {
    && i < |s.threads|
    && match s.threads[i]
       case Idle => t == Goes(s, i, BeginCheck) || t == Goes(s, i, StopStore) || t == Goes(s, i, WaitStart)
       case BeginCheck => t == Goes(s, i, if s.accepting then BeginAdd else Idle)
       case BeginAdd => t == Goes(s, i, BeginRecheck).(active := s.active + 1)
       case BeginRecheck => t == Goes(s, i, if s.accepting then Holding else BeginUndo)
       case BeginUndo => t == Leaves(s, i)
       case Holding => t == Leaves(s, i)
       case Notifying => t == Goes(s, i, Idle).(wakeups := s.wakeups + 1)
       case StopStore => t == Goes(s, i, StopCancel).(accepting := false)
       case StopCancel => t == Goes(s, i, StopLoad).(cancelled := true)
       case StopLoad => t == Goes(s, i, if s.active == 0 then Notifying else Idle)
       case WaitStart => t == Goes(s, i, WaitLoad(s.wakeups))
       case WaitLoad(seen) => t == Goes(s, i, if s.active == 0 then Drained else Parked(seen))
       case Parked(seen) => t == Goes(s, i, TimedOut) || (seen < s.wakeups && t == Goes(s, i, WaitStart))
       case Drained => t == Goes(s, i, Idle)
       case TimedOut => t == Goes(s, i, Idle)
  }

  /** A guard, or a begin that has counted itself. */
  predicate Counted(thread: Thread) {
    thread.Holding? || thread.BeginRecheck? || thread.BeginUndo?
  }

  function Count(threads: seq<Thread>): nat {
    if threads == [] then 0 else Count(threads[..|threads| - 1]) + if Counted(threads[|threads| - 1]) then 1 else 0
  }

  lemma {:induction false} CountUpdate(threads: seq<Thread>, i: nat, next: Thread)
    requires i < |threads|
    ensures Count(threads[i := next]) ==
      Count(threads) - (if Counted(threads[i]) then 1 else 0) + (if Counted(next) then 1 else 0)
  {
    var n := |threads| - 1;
    var updated := threads[i := next];
    if i < n {
      assert updated[..n] == threads[..n][i := next];
      CountUpdate(threads[..n], i, next);
    } else {
      assert updated[..n] == threads[..n];
    }
  }

  lemma {:induction false} CountNone(threads: seq<Thread>)
    ensures Count(threads) == 0 <==> forall i :: 0 <= i < |threads| ==> !Counted(threads[i])
  {
    if threads != [] {
      var n := |threads| - 1;
      CountNone(threads[..n]);
      assert forall i :: 0 <= i < n ==> threads[..n][i] == threads[i];
    }
  }

  predicate AboutToNotify(s: State) {
    exists i :: 0 <= i < |s.threads| && s.threads[i].Notifying?
  }

  predicate Asleep(s: State, i: nat) {
    i < |s.threads| && s.threads[i].Parked? && s.threads[i].seen == s.wakeups
  }

  /** Stops and waits have not run ahead of the shared state. */
  ghost predicate Past(s: State) {
    && (s.cancelled ==> !s.accepting)
    && (forall i :: 0 <= i < |s.threads| && s.threads[i].StopCancel? ==> !s.accepting)
    && (forall i :: 0 <= i < |s.threads| && s.threads[i].WaitLoad? ==> s.threads[i].seen <= s.wakeups)
    && (forall i :: 0 <= i < |s.threads| && s.threads[i].Parked? ==> s.threads[i].seen <= s.wakeups)
  }

  ghost predicate NoLostWakeup(s: State) {
    forall i :: Asleep(s, i) ==> s.active > 0 || AboutToNotify(s)
  }

  /**
   The counter is the number of guards and of begins that have counted
   themselves; and while a sleeping waiter has had no wake-up, either something
   is active or a notification is on its way.
   */
  ghost predicate Inv(s: State) {
    s.active == Count(s.threads) && Past(s) && NoLostWakeup(s)
  }

  lemma {:induction false} InitialInv(s: State)
    requires Initial(s)
    ensures Inv(s)
  {
    CountNone(s.threads);
  }

  /** A thread other than `i` is still about to notify, or thread `i` is now. */
  lemma {:induction false} StillNotifying(s: State, t: State, i: nat)
    requires i < |s.threads| == |t.threads|
    requires forall j :: 0 <= j < |s.threads| && j != i ==> t.threads[j] == s.threads[j]
    requires s.threads[i].Notifying? ==> t.threads[i].Notifying?
    ensures AboutToNotify(s) ==> AboutToNotify(t)
  {
    if AboutToNotify(s) {
      var j :| 0 <= j < |s.threads| && s.threads[j].Notifying?;
      assert t.threads[j].Notifying?;
    }
  }

  lemma {:induction false} StepMovesOne(s: State, t: State, i: nat)
    requires Step(s, t, i)
    ensures |t.threads| == |s.threads| && t.threads == s.threads[i := t.threads[i]]
    ensures t.accepting ==> s.accepting
    ensures t.wakeups == s.wakeups || (s.threads[i].Notifying? && t.wakeups == s.wakeups + 1)
  {
  }

  lemma {:induction false} StepCounts(s: State, t: State, i: nat)
    requires Step(s, t, i) && s.active == Count(s.threads)
    ensures t.active == Count(t.threads)
  {
    StepMovesOne(s, t, i);
    CountUpdate(s.threads, i, t.threads[i]);
    CountNone(s.threads);
    hide Count, Step;
    StepWeighs(s, t, i);
  }

  /** A step moves the counter by what it does to its own thread. */
  lemma {:induction false} StepWeighs(s: State, t: State, i: nat)
    requires Step(s, t, i) && (s.active == 0 ==> !Counted(s.threads[i]))
    ensures |t.threads| == |s.threads|
    ensures t.active == s.active - (if Counted(s.threads[i]) then 1 else 0) + (if Counted(t.threads[i]) then 1 else 0)
  {
  }

  lemma {:induction false} StepKeepsPast(s: State, t: State, i: nat)
    requires Step(s, t, i) && Past(s)
    ensures Past(t)
  {
    StepMovesOne(s, t, i);
  }

  /** A step of a thread that is not asleep afterwards: only a decrement to zero ends activity, and then it notifies. */
  lemma {:induction false} StepWakes(s: State, t: State, i: nat)
    requires Step(s, t, i) && !s.threads[i].Notifying? && (s.active > 0 || AboutToNotify(s))
    ensures t.active > 0 || AboutToNotify(t)
  {
    StepMovesOne(s, t, i);
    StillNotifying(s, t, i);
    assert t.threads[i].Notifying? ==> AboutToNotify(t);
    hide AboutToNotify;
  }

  lemma {:induction false} StepSleeps(s: State, t: State, i: nat, j: nat)
    requires Step(s, t, i) && Past(s) && Asleep(t, j)
    ensures !s.threads[i].Notifying?
    ensures Asleep(s, j) || s.active > 0
  {
    StepMovesOne(s, t, i);
  }

  lemma {:induction false} StepKeepsInv(s: State, t: State, i: nat)
    requires Inv(s) && Step(s, t, i)
    ensures Inv(t)
  {
    hide Step, Past, Count, AboutToNotify, Asleep;
    StepCounts(s, t, i);
    StepKeepsPast(s, t, i);
    forall j | Asleep(t, j)
      ensures t.active > 0 || AboutToNotify(t)
    {
      StepSleeps(s, t, i, j);
      StepWakes(s, t, i);
    }
  }

  // Whole runs.

  /** States `k` and `k + 1` are one step of thread `who[k]` apart. */
  ghost predicate Run(states: seq<State>, who: seq<nat>) {
    && |states| == |who| + 1 && Initial(states[0])
    && forall k :: 0 <= k < |who| ==> Step(states[k], states[k + 1], who[k])
  }

  lemma {:induction false} RunKeepsInv(states: seq<State>, who: seq<nat>, k: nat)
    requires Run(states, who) && k < |states|
    ensures Inv(states[k])
  {
    hide Step, Inv;
    if k == 0 {
      InitialInv(states[0]);
    } else {
      RunKeepsInv(states, who, k - 1);
      assert Step(states[k - 1], states[k - 1 + 1], who[k - 1]);
      StepKeepsInv(states[k - 1], states[k], who[k - 1]);
    }
  }

  /** No guard is live, and none can be issued. */
  ghost predicate Closed(s: State) {
    !s.accepting && forall i :: 0 <= i < |s.threads| ==> !s.threads[i].Holding?
  }

  lemma {:induction false} ClosedStays(states: seq<State>, who: seq<nat>, k: nat, m: nat)
    requires Run(states, who) && k <= m < |states| && Closed(states[k])
    ensures Closed(states[m])
    decreases m
  {
    if k < m {
      hide Step, Closed;
      ClosedStays(states, who, k, m - 1);
      assert Step(states[m - 1], states[m - 1 + 1], who[m - 1]);
      StepStaysClosed(states[m - 1], states[m], who[m - 1]);
    }
  }

  lemma {:induction false} StepStaysClosed(s: State, t: State, i: nat)
    requires Step(s, t, i) && Closed(s)
    ensures Closed(t)
  {
    StepMovesOne(s, t, i);
  }

  /**
   A wait that returns true once requests are refused: at that moment no guard
   is live and no begin has counted itself, and no guard is live ever after.
   */
  lemma {:induction false} WaitMeansDrained(states: seq<State>, who: seq<nat>, k: nat, m: nat)
    requires Run(states, who) && k < |who| && k <= m < |states|
    requires At(states[k], who[k]).WaitLoad? && At(states[k + 1], who[k]).Drained?
    ensures forall i :: 0 <= i < |states[k].threads| ==> !Counted(states[k].threads[i])
    ensures !states[k].accepting ==> Closed(states[m])
  {
    hide Step, Closed;
    RunKeepsInv(states, who, k);
    WaitSawZero(states[k], states[k + 1], who[k]);
    CountNone(states[k].threads);
    if !states[k].accepting {
      NoneHolds(states[k]);
      ClosedStays(states, who, k, m);
    }
  }

  lemma {:induction false} WaitSawZero(s: State, t: State, i: nat)
    requires Step(s, t, i) && At(s, i).WaitLoad? && At(t, i).Drained?
    ensures s.active == 0
  {
  }

  lemma {:induction false} NoneHolds(s: State)
    requires !s.accepting && forall i :: 0 <= i < |s.threads| ==> !Counted(s.threads[i])
    ensures Closed(s)
  {
  }

  /** After a stop has begun, requests are refused for good. */
  lemma {:induction false} StopRefuses(states: seq<State>, who: seq<nat>, k: nat, m: nat)
    requires Run(states, who) && k < |who| && k < m < |states| && At(states[k], who[k]).StopStore?
    ensures !states[m].accepting
    decreases m
  {
    assert Step(states[m - 1], states[m - 1 + 1], who[m - 1]);
    if k + 1 < m {
      StopRefuses(states, who, k, m - 1);
    }
  }

  /** Nothing runs except sleepers. */
  ghost predicate Quiet(s: State) {
    forall i :: 0 <= i < |s.threads| ==>
      s.threads[i].Idle? || s.threads[i].Parked? || s.threads[i].Drained? || s.threads[i].TimedOut?
  }

  /**
   No waiter sleeps on in a quiet system: the counter is zero, and each sleeper has
   a wake-up that leads it to return true.
   */
  lemma {:induction false} NobodyIsForgotten(states: seq<State>, who: seq<nat>, k: nat, i: nat)
    requires Run(states, who) && k < |states| && Quiet(states[k])
    requires i < |states[k].threads| && states[k].threads[i].Parked?
    ensures states[k].active == 0
    ensures var s := states[k];
      var started := Goes(s, i, WaitStart);
      var loading := Goes(started, i, WaitLoad(s.wakeups));
      Step(s, started, i) && Step(started, loading, i) && Step(loading, Goes(loading, i, Drained), i)
  {
    var s := states[k];
    RunKeepsInv(states, who, k);
    CountNone(s.threads);
    hide Count;
    assert !AboutToNotify(s);
    assert !Asleep(s, i);
  }

  /** The state after one more step of a thread that begins a request while requests are accepted. */
  function BeginsNext(s: State, i: nat): State
    requires i < |s.threads|
  {
    match s.threads[i]
    case Drained => Goes(s, i, Idle)
    case Idle => Goes(s, i, BeginCheck)
    case BeginCheck => Goes(s, i, BeginAdd)
    case BeginAdd => Goes(s, i, BeginRecheck).(active := s.active + 1)
    case _ => Goes(s, i, Holding)
  }

  lemma {:induction false} BeginsStep(s: State, i: nat)
    requires i < |s.threads| && s.accepting
    requires match s.threads[i] case Drained | Idle | BeginCheck | BeginAdd | BeginRecheck => true case _ => false
    ensures Step(s, BeginsNext(s, i), i)
    ensures BeginsNext(s, i).accepting && |BeginsNext(s, i).threads| == |s.threads|
  {
  }

  lemma {:induction false} RunMore(states: seq<State>, who: seq<nat>, t: State, i: nat)
    requires Run(states, who) && Step(states[|who|], t, i)
    ensures Run(states + [t], who + [i])
  {
    hide Step, Initial;
    var more, movers := states + [t], who + [i];
    forall k | 0 <= k < |movers|
      ensures Step(more[k], more[k + 1], movers[k])
    {
      if k < |who| {
        assert Step(states[k], states[k + 1], who[k]);
      }
    }
  }

  lemma {:induction false} RunPrefix(states: seq<State>, who: seq<nat>, k: nat)
    requires Run(states, who) && k < |states|
    ensures Run(states[..k + 1], who[..k])
  {
    hide Step, Initial;
    forall j | 0 <= j < k
      ensures Step(states[..k + 1][j], states[..k + 1][j + 1], who[..k][j])
    {
      assert Step(states[j], states[j + 1], who[j]);
    }
  }

  /**
   A wait that returns true while requests are still accepted promises nothing:
   every such run can go on, from that very moment, to a live guard. With
   WaitMeansDrained: a true wait excludes later guards if and only if requests
   were refused when it read the counter.
   */
  lemma {:induction false} WaitBeforeStopPromisesNothing(states: seq<State>, who: seq<nat>, k: nat)
    returns (more: seq<State>, movers: seq<nat>)
    requires Run(states, who) && k < |who|
    requires At(states[k], who[k]).WaitLoad? && At(states[k + 1], who[k]).Drained? && states[k].accepting
    ensures Run(more, movers) && |who[..k + 1]| <= |movers|
    ensures more[..k + 2] == states[..k + 2] && movers[..k + 1] == who[..k + 1]
    ensures At(more[|movers|], who[k]).Holding?
  {
    RunPrefix(states, who, k + 1);
    assert Step(states[k], states[k + 1], who[k]);
    var i := who[k];
    more, movers := states[..k + 2], who[..k + 1];
    var n := 0;
    var s := states[k + 1];
    while n < 5
      invariant 0 <= n <= 5 && Run(more, movers) && |movers| == k + 1 + n
      invariant more[..k + 2] == states[..k + 2] && movers[..k + 1] == who[..k + 1]
      invariant s == more[|movers|] && s.accepting && i < |s.threads|
      invariant s.threads[i] == [Drained, Idle, BeginCheck, BeginAdd, BeginRecheck, Holding][n]
    {
      BeginsStep(s, i);
      var t := BeginsNext(s, i);
      assert t.threads[i] == [Drained, Idle, BeginCheck, BeginAdd, BeginRecheck, Holding][n + 1];
      RunMore(more, movers, t, i);
      more, movers, s := more + [t], movers + [i], t;
      n := n + 1;
    }
  }
}
