/**
 Asynchronous appending through the thread pool: the counter of appends in flight and
 the threads that wait for it to become zero.  The steps of any number of threads
 interleave; the counter is an integer, whose wrap-around at zero is told by its sign.
 */
module InFlight {

  /** Who holds in_flight_mutex between steps. */
  datatype Holder = Free | Checking | Deciding

  /**
   entering: doAppend has counted the event and not yet handed it to the pool
   unwinding: handing over threw, and the event is yet to be subtracted
   queued, running: tasks of the pool
   polling: non-blocking callers that have yet to look at the result of their task
   failed: tasks that ended with an exception nobody has looked at
   notifying: threads that took the counter from one to zero and have yet to notify
   awake, sleeping, returned: waiters outside the mutex, on the condition, and done
   dropped, rethrown: events dropped on a full queue, and task exceptions seen by callers
   underflowed: whether the counter was ever taken below zero
   */
  datatype State = State(
    blocking: bool, inFlight: int, entering: nat, unwinding: nat, queued: nat, running: nat, polling: nat,
    failed: nat, notifying: nat, holder: Holder, awake: nat, sleeping: nat, returned: nat, dropped: nat,
    rethrown: nat, underflowed: bool)

  datatype Action =
    | Start | Accept | Throw | Drop | PollDone | PollThrow | Run | Finish(throws: bool) | Unwind | Notify
    | Wait | Lock | Check | Sleep | Spurious

  /** Nothing has been appended yet. */
  predicate IsInit(s: State) {
    && s.inFlight == s.entering == s.unwinding == s.queued == s.running == s.polling == s.failed == s.notifying == 0
    && s.holder == Free && s.awake == s.sleeping == s.returned == s.dropped == s.rethrown == 0 && !s.underflowed
  }

  predicate Enabled(s: State, a: Action) {
    match a
    case Start => true
    case Accept => s.entering > 0
    case Throw => s.entering > 0
    case Drop => !s.blocking && s.entering > 0
    case PollDone => s.polling > 0
    case PollThrow => s.polling > 0 && s.failed > 0
    case Run => s.queued > 0
    case Finish(_) => s.running > 0
    case Unwind => s.unwinding > 0
    case Notify => s.notifying > 0 && s.holder == Free
    case Wait => true
    case Lock => s.awake > 0 && s.holder == Free
    case Check => s.holder == Checking
    case Sleep => s.holder == Deciding
    case Spurious => s.sleeping > 0
  }

  /** subtract_in_flight up to the test of the previous value. */
  function Subtract(s: State): State {
    s.(inFlight := s.inFlight - 1, notifying := s.notifying + (if s.inFlight == 1 then 1 else 0),
       underflowed := s.underflowed || s.inFlight == 0)
  }

  function Apply(s: State, a: Action): State
    requires Enabled(s, a)
  {
    match a
    case Start => s.(inFlight := s.inFlight + 1, entering := s.entering + 1)
    case Accept =>
      s.(entering := s.entering - 1, queued := s.queued + 1, polling := s.polling + (if s.blocking then 0 else 1))
    case Throw => s.(entering := s.entering - 1, unwinding := s.unwinding + 1)
    case Drop => s.(entering := s.entering - 1, dropped := s.dropped + 1)
    case PollDone => s.(polling := s.polling - 1)
    case PollThrow =>
      s.(polling := s.polling - 1, failed := s.failed - 1, unwinding := s.unwinding + 1, rethrown := s.rethrown + 1)
    case Run => s.(queued := s.queued - 1, running := s.running + 1)
    case Finish(throws) => Subtract(s.(running := s.running - 1, failed := s.failed + (if throws then 1 else 0)))
    case Unwind => Subtract(s.(unwinding := s.unwinding - 1))
    case Notify => s.(notifying := s.notifying - 1, awake := s.awake + s.sleeping, sleeping := 0)
    case Wait => s.(awake := s.awake + 1)
    case Lock => s.(awake := s.awake - 1, holder := Checking)
    case Check =>
      if s.inFlight == 0 then s.(holder := Free, returned := s.returned + 1) else s.(holder := Deciding)
    case Sleep => s.(holder := Free, sleeping := s.sleeping + 1)
    case Spurious => s.(sleeping := s.sleeping - 1, awake := s.awake + 1)
  }

  ghost predicate Runs(s: State, run: seq<Action>, t: State)
    decreases |run|
  {
    if run == [] then s == t else Enabled(s, run[0]) && Runs(Apply(s, run[0]), run[1..], t)
  }

  ghost predicate Reaches(s: State, t: State) {
    exists run :: Runs(s, run, t)
  }

  // ----- The counter -----

  /** Appends that were started and are neither finished nor abandoned. */
  function Live(s: State): nat {
    s.entering + s.unwinding + s.queued + s.running
  }

  predicate CountInv(s: State) {
    && s.inFlight == Live(s) + s.dropped - s.rethrown
    && (s.blocking ==> s.dropped == s.polling == s.rethrown == 0)
    && (s.rethrown == 0 ==> !s.underflowed)
    && (!s.underflowed ==> s.inFlight >= 0)
  }

  /** A waiter that sleeps, or has decided to, while the counter is zero has a notification coming. */
  predicate WakeInv(s: State) {
    !s.underflowed && s.inFlight == 0 && (s.sleeping > 0 || s.holder == Deciding) ==> s.notifying > 0
  }

  lemma StepKeepsInv(s: State, a: Action)
    requires CountInv(s) && WakeInv(s) && Enabled(s, a)
    ensures CountInv(Apply(s, a)) && WakeInv(Apply(s, a)) && Apply(s, a).blocking == s.blocking
  {
  }

  lemma {:induction false} RunKeepsInv(s: State, run: seq<Action>, t: State)
    requires CountInv(s) && WakeInv(s) && Runs(s, run, t)
    ensures CountInv(t) && WakeInv(t) && t.blocking == s.blocking
    decreases |run|
  {
    if run != [] {
      StepKeepsInv(s, run[0]);
      RunKeepsInv(Apply(s, run[0]), run[1..], t);
    }
  }

  ghost predicate Counted(s: State) {
    && (s.inFlight == Live(s) <==> s.dropped == s.rethrown)
    && (s.blocking ==> s.inFlight == Live(s))
  }

  ghost predicate Awaited(s: State) {
    && (!s.underflowed && s.sleeping > 0 && s.inFlight == 0 ==> s.notifying > 0)
    && (s.blocking || s.rethrown == 0 ==> !s.underflowed)
  }

  lemma InvMeans(s: State)
    requires CountInv(s) && WakeInv(s)
    ensures Counted(s) && Awaited(s)
  {
  }

  lemma ReachesInv(s: State, t: State)
    requires CountInv(s) && WakeInv(s) && Reaches(s, t)
    ensures CountInv(t) && WakeInv(t) && t.blocking == s.blocking
  {
    var run :| Runs(s, run, t);
    RunKeepsInv(s, run, t);
  }

  lemma InitInv(s: State)
    requires IsInit(s)
    ensures CountInv(s) && WakeInv(s)
  {
  }

  lemma ReachesSafe(s: State, t: State)
    requires IsInit(s) && Reaches(s, t)
    ensures Counted(t) && Awaited(t) && t.blocking == s.blocking && CountInv(t) && WakeInv(t)
  {
    InitInv(s);
    ReachesInv(s, t);
    InvMeans(t);
  }

  /** In every run the counter is right exactly when as many events were dropped as exceptions rethrown; in
      blocking mode there are none of either, and it never goes below zero. */
  lemma CounterIff(s: State, t: State)
    requires IsInit(s) && Reaches(s, t)
    ensures t.inFlight == Live(t) <==> t.dropped == t.rethrown
    ensures s.blocking ==> t.inFlight == Live(t)
  {
    ReachesSafe(s, t);
  }

  /** In every run that has not taken the counter below zero, and so in every one in blocking mode, no waiter
      sleeps at zero without a notification to come. */
  lemma NoLostWakeup(s: State, t: State)
    requires IsInit(s) && Reaches(s, t)
    ensures !t.underflowed && t.sleeping > 0 && t.inFlight == 0 ==> t.notifying > 0
    ensures s.blocking || t.rethrown == 0 ==> !t.underflowed
  {
    ReachesSafe(s, t);
  }

  lemma ReturnsAtZero(s: State, a: Action)
    requires Enabled(s, a) && Apply(s, a).returned > s.returned
    ensures s.inFlight == 0
  {
  }

  /** In blocking mode a wait ends only at a moment when nothing is in flight. */
  lemma WaitEndsWhenIdle(s: State, t: State, a: Action)
    requires IsInit(s) && s.blocking && Reaches(s, t) && Enabled(t, a) && Apply(t, a).returned > t.returned
    ensures Live(t) == 0
  {
    CounterIff(s, t);
    ReturnsAtZero(t, a);
  }

  /** No step is left that finishes what was begun. */
  predicate Quiet(s: State) {
    && !Enabled(s, Throw) && !Enabled(s, Run) && !Enabled(s, Finish(false)) && !Enabled(s, Unwind)
    && !Enabled(s, Notify) && !Enabled(s, Lock) && !Enabled(s, Check) && !Enabled(s, Sleep)
  }

  lemma QuietState(s: State)
    requires CountInv(s) && WakeInv(s) && s.blocking && Quiet(s)
    ensures s.sleeping == 0 && s.awake == 0 && Live(s) == 0
  {
  }

  /** In blocking mode, when no work is left, no waiter is left. */
  lemma QuietMeansNobodyWaits(s: State, t: State)
    requires IsInit(s) && s.blocking && Reaches(s, t) && Quiet(t)
    ensures t.sleeping == 0 && t.awake == 0 && Live(t) == 0
  {
    ReachesSafe(s, t);
    QuietState(t);
  }

  // ----- Work comes to an end -----

  /** Everything but a new append, a new waiter or a spurious wake-up. */
  predicate Progress(a: Action) {
    a != Start && a != Wait && a != Spurious
  }

  function Tasks(s: State): nat {
    7 * s.entering + 3 * s.queued + 3 * s.polling + 2 * s.running + 2 * s.unwinding + s.notifying
  }

  function Turns(s: State): nat {
    3 * s.awake + (match s.holder case Free => 0 case Checking => 2 case Deciding => 1)
  }

  function Waiters(s: State): nat {
    s.awake + s.sleeping + (if s.holder == Free then 0 else 1)
  }

  lemma StepProgresses(s: State, a: Action)
    requires Enabled(s, a) && Progress(a)
    ensures var t := Apply(s, a);
            && (Tasks(t) < Tasks(s) || (Tasks(t) == Tasks(s) && Turns(t) < Turns(s)))
            && Waiters(t) <= Waiters(s) && Turns(t) <= 3 * Waiters(t)
  {
  }

  /** What is left to do, when there are fewer than k waiters' turns at a time. */
  function Left(s: State, k: nat): nat {
    Tasks(s) * k + Turns(s)
  }

  lemma LeftDecreases(s: State, t: State, k: nat)
    requires Tasks(t) < Tasks(s) || (Tasks(t) == Tasks(s) && Turns(t) < Turns(s))
    requires Turns(t) < k
    ensures Left(t, k) < Left(s, k)
  {
    if Tasks(t) < Tasks(s) { Scaled(Tasks(t), Tasks(s), k); }
  }

  lemma Scaled(a: nat, b: nat, k: nat)
    requires a < b
    ensures a * k + k <= b * k
  {
    assert b * k == (a + 1) * k + (b - a - 1) * k;
  }

  /** Without new calls every run is at most as long as what is left to do, and so comes to rest. */
  lemma {:induction false} BoundedCompletion(s: State, run: seq<Action>, t: State, k: nat)
    requires Runs(s, run, t) && 3 * Waiters(s) < k
    requires forall i :: 0 <= i < |run| ==> Progress(run[i])
    ensures |run| + Left(t, k) <= Left(s, k)
    decreases |run|
  {
    if run != [] {
      var s1, rest := Apply(s, run[0]), run[1..];
      assert Progress(run[0]);
      StepProgresses(s, run[0]);
      LeftDecreases(s, s1, k);
      forall i | 0 <= i < |rest| ensures Progress(rest[i]) { assert rest[i] == run[i + 1]; }
      BoundedCompletion(s1, rest, t, k);
    }
  }
}
