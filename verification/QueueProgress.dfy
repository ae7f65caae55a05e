/**
 The queue neither goes on for ever nor gets stuck: a measure that every step
 decreases, and what is true when no step is left.
 */
module QueueProgress {
  import opened Wrappers
  import opened AsyncQueue
  import opened QueueRuns

  /** Everything but a new call from outside. */
  predicate Internal(a: Action) {
    !a.CallPut? && !a.CallExit?
  }

  function ConsumerWork(s: State): nat {
    match s.consumer
    case Enter => 3
    case Releasing(left) => left + |s.buf| + 5
    case Clearing => 4
    case Refunding => 3
    case Resetting => 2
    case Waiting => if s.signaled then 4 else 1
    case Asleep(seen) => if s.sigcount != seen then 4 else 0
    case Delivering(ret, next) => if !ret.event then 1 else if next <= |s.buf| then |s.buf| - next + 4 else 4
    case Finished => 0
  }

  function CallerWork(s: State): nat {
    12 * |s.callers.arriving| + 11 * |s.callers.admitted| + 5 * s.callers.signalling + s.callers.refusing + 6 * |s.callers.exiting| + 5 * s.callers.exitSignalling
  }

  /** A bound on the internal actions the system can still make. */
  function Work(s: State): nat {
    CallerWork(s) + 5 * |s.queue| + ConsumerWork(s)
  }

  lemma ConsumerWorkDecreases(s: State, a: Action)
    requires FlagInv(s) && Enabled(s, a) && ConsumerStep(a)
    ensures var t := Apply(s, a); 5 * |t.queue| + ConsumerWork(t) < 5 * |s.queue| + ConsumerWork(s)
  {
  }

  lemma CallersProgress(s: State, a: Action)
    requires Enabled(s, a) && !ConsumerStep(a) && Internal(a)
    ensures var t := CallerAction(s, a);
            CallerWork(t) + 5 * |t.queue| + (if a.SignalPut? || a.SignalExit? then 5 else 1)
            <= CallerWork(s) + 5 * |s.queue|
  {
    var t := CallerAction(s, a);
    if a.TakePermit? {
      assert |t.callers.arriving| == |s.callers.arriving| - 1 && |t.callers.admitted| == |s.callers.admitted| + 1;
    } else if a.PutSection? {
      PutProgress(s, a.ev);
    } else if a.ExitSection? {
      ExitProgress(s, a.mode);
    }
  }

  lemma PutProgress(s: State, ev: Event)
    requires ev in s.callers.admitted
    ensures var t := PutCritical(s, ev); CallerWork(t) + 5 * |t.queue| < CallerWork(s) + 5 * |s.queue|
  {
    assert |s.callers.admitted - multiset{ev}| == |s.callers.admitted| - 1;
  }

  lemma ExitProgress(s: State, mode: ExitMode)
    requires mode in s.callers.exiting
    ensures var t := ExitCritical(s, mode); t.queue == s.queue && CallerWork(t) < CallerWork(s)
  {
    assert |s.callers.exiting - multiset{mode}| == |s.callers.exiting| - 1;
  }

  lemma CallersStir(s: State, a: Action)
    requires Enabled(s, a) && !ConsumerStep(a)
    ensures ConsumerWork(CallerAction(s, a)) <= ConsumerWork(s) + (if a.SignalPut? || a.SignalExit? then 4 else 0)
  {
  }

  lemma CallerWorkDecreases(s: State, a: Action)
    requires Enabled(s, a) && !ConsumerStep(a) && Internal(a)
    ensures Work(Apply(s, a)) < Work(s)
  {
    CallersProgress(s, a);
    CallersStir(s, a);
  }

  lemma WorkDecreases(s: State, a: Action)
    requires FlagInv(s) && Enabled(s, a) && Internal(a)
    ensures Work(Apply(s, a)) < Work(s)
  {
    if ConsumerStep(a) {
      ConsumerWorkDecreases(s, a);
      ConsumerKeepsCallers(s, a);
    } else {
      CallerWorkDecreases(s, a);
    }
  }

  /** No livelock: without new calls the system makes at most Work(s) actions. */
  lemma {:induction false} BoundedCompletion(s: State, acts: seq<Action>)
    requires Inv(s) && Continue(s, acts).Some?
    requires forall a :: a in acts ==> Internal(a)
    ensures |acts| + Work(Continue(s, acts).value) <= Work(s)
    decreases |acts|
  {
    if acts != [] {
      assert acts[0] in acts;
      WorkDecreases(s, acts[0]);
      InvStep(s, acts[0]);
      BoundedCompletion(Apply(s, acts[0]), acts[1..]);
    }
  }

  ghost predicate Quiescent(s: State) {
    forall a :: Internal(a) ==> !Enabled(s, a)
  }

  /** No deadlock: when nothing can move, every call has returned, every accepted event was delivered or
      discarded, and the consumer has ended or sleeps with nothing to do. */
  lemma QuiescentMeansDone(len: nat, acts: seq<Action>, s: State)
    requires len >= 1 && Run(len, acts) == Some(s) && Quiescent(s)
    ensures && s.callers.arriving == multiset{} && s.callers.admitted == multiset{} && s.callers.refusing == 0
            && s.callers.signalling == 0 && s.callers.exiting == multiset{} && s.callers.exitSignalling == 0
            && s.queue == [] && s.log.delivered + s.log.dropped == s.log.accepted
            && (if s.flags.exit then s.consumer.Finished? else s.consumer.Asleep? && s.log.dropped == [])
  {
    RunInv(len, acts);
    QuiescentConsumer(s);
    QuiescentCallers(s);
    EmptyMiddle(s.log.delivered, s.log.dropped);
  }

  lemma EmptyMiddle(a: seq<Event>, c: seq<Event>)
    ensures a + [] + c + [] == a + c
  {
  }

  /** The one action the consumer can make, unless it has ended or sleeps unsignalled. */
  function ConsumerMove(s: State): (a: Option<Action>)
    ensures a.Some? ==> Enabled(s, a.value) && Internal(a.value)
    ensures a.None? ==> s.consumer.Finished? || (s.consumer.Asleep? && s.consumer.seen == s.sigcount)
  {
    match s.consumer
    case Enter => Some(GetSection)
    case Releasing(_) => Some(ReleaseOne)
    case Clearing => Some(ResetDiscard)
    case Refunding => Some(RefundOne)
    case Resetting => Some(ResetWait)
    case Waiting => Some(WaitTest)
    case Asleep(seen) => if s.sigcount != seen then Some(WakeUp) else None
    case Delivering(ret, next) => Some(if ret.event && next < |s.buf| then Append else Decide)
    case Finished => None
  }

  lemma QuiescentConsumer(s: State)
    requires Inv(s) && Quiescent(s)
    ensures PendingSignals(s) == 0 && s.callers.refusing == 0
    ensures s.consumer.Finished? || (s.consumer.Asleep? && !s.flags.queue && !s.flags.exit)
  {
    assert !Enabled(s, SignalPut) && !Enabled(s, SignalExit) && !Enabled(s, ReturnPermit);
    assert ConsumerMove(s) == None;
  }

  /** An action some caller can make while the mutex is free. */
  ghost function CallerMove(s: State): (a: Option<Action>)
    requires !HoldsMutex(s.consumer)
    ensures a.Some? ==> Enabled(s, a.value) && Internal(a.value)
    ensures a.None? ==> s.callers.exiting == multiset{} && s.callers.admitted == multiset{}
    ensures a.None? ==> s.callers.arriving == multiset{} || s.free == 0
  {
    var c := s.callers;
    if c.exiting != multiset{} then var mode :| mode in c.exiting; Some(ExitSection(mode))
    else if c.admitted != multiset{} then var ev :| ev in c.admitted; Some(PutSection(ev))
    else if c.arriving != multiset{} && s.free > 0 then var ev :| ev in c.arriving; Some(TakePermit(ev))
    else None
  }

  lemma QuiescentCallers(s: State)
    requires s.len >= 1 && Inv(s) && Quiescent(s)
    ensures s.callers.arriving == multiset{} && s.callers.admitted == multiset{} && s.callers.exiting == multiset{}
  {
    QuiescentConsumer(s);
    assert CallerMove(s) == None;
  }
}
