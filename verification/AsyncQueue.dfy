/**
 The bounded event queue between logging threads and the thread of AsyncAppender.

 Every synchronisation operation of the program is one atomic action: taking a
 permit of the semaphore, one critical section of the mutex, signalling or
 resetting the event, releasing one permit.  Threads have no identity, so a
 state counts how many of them stand at each program point.
 */
module AsyncQueue {
  import opened Wrappers

  type Event = string

  /** The state flags QUEUE, EXIT and DRAIN. */
  datatype Flags = Flags(queue: bool, exit: bool, drain: bool)

  /** The value get_events hands back: the flags, and whether the buffer was filled. */
  datatype Returned = Returned(event: bool, exit: bool, drain: bool)

  /** The argument of signal_exit. */
  datatype ExitMode = Draining | Discarding

  /** Program points of the consumer thread. */
  datatype Consumer =
    | Enter                                  // top of the loop in get_events
    | Releasing(left: nat)                   // batch taken, permits still to release; holds the mutex
    | Clearing                               // queue discarded, event not yet reset; holds the mutex
    | Refunding                              // event reset, one permit to release; holds the mutex
    | Resetting                              // nothing to do, about to reset the event; holds the mutex
    | Waiting                                // about to enter wait()
    | Asleep(seen: nat)                      // inside wait(), having read this signal count
    | Delivering(ret: Returned, next: nat)   // get_events returned; events before next were appended
    | Finished

  /** How many calls stand at each program point of put_event and signal_exit. */
  datatype Callers = Callers(
    arriving: multiset<Event>,     // put_event calls waiting for a permit
    admitted: multiset<Event>,     // holding a permit, waiting for the mutex
    signalling: nat,               // pushed, about to signal the event
    refusing: nat,                 // saw EXIT, about to give the permit back
    exiting: multiset<ExitMode>,   // signal_exit calls waiting for the mutex
    exitSignalling: nat            // set EXIT, about to signal the event
  )

  /** What happened so far. */
  datatype History = History(
    accepted: seq<Event>,          // events pushed, in order
    delivered: seq<Event>,         // events handed to the appenders
    dropped: seq<Event>,           // events discarded
    lateReturns: nat,              // returns of get_events made after EXIT was set
    faulted: bool                  // an assertion failed or the semaphore overflowed
  )

  datatype State = State(
    len: nat,
    queue: seq<Event>,
    flags: Flags,
    free: nat,                     // semaphore value
    signaled: bool,                // the manual-reset event ...
    sigcount: nat,                 // ... and its signal counter
    consumer: Consumer,
    buf: seq<Event>,               // the consumer's ev_buf
    callers: Callers,
    log: History
  )

  function Init(len: nat): State {
    State(len, [], Flags(false, false, true), len, false, 0, Enter, [],
          Callers(multiset{}, multiset{}, 0, 0, multiset{}, 0), History([], [], [], 0, false))
  }

  datatype Action =
    | CallPut(ev: Event) | TakePermit(ev: Event) | PutSection(ev: Event) | SignalPut | ReturnPermit
    | CallExit(mode: ExitMode) | ExitSection(mode: ExitMode) | SignalExit
    | GetSection | ReleaseOne | ResetDiscard | RefundOne | ResetWait | WaitTest | WakeUp
    | Append | Decide

  /** The four branches of get_events, in the order the program tests them. */
  datatype Branch = Take | Discard | Leave | Block

  function BranchOf(f: Flags): Branch {
    if (f.queue && !f.exit) || (f.exit && f.drain && f.queue) then Take
    else if f.exit && f.queue then Discard
    else if f.exit then Leave
    else Block
  }

  predicate HoldsMutex(c: Consumer) {
    c.Releasing? || c.Clearing? || c.Refunding? || c.Resetting?
  }

  predicate Enabled(s: State, a: Action) {
    match a
    case CallPut(_) => true
    case TakePermit(ev) => ev in s.callers.arriving && s.free > 0
    case PutSection(ev) => ev in s.callers.admitted && !HoldsMutex(s.consumer)
    case SignalPut => s.callers.signalling > 0
    case ReturnPermit => s.callers.refusing > 0
    case CallExit(_) => true
    case ExitSection(d) => d in s.callers.exiting && !HoldsMutex(s.consumer)
    case SignalExit => s.callers.exitSignalling > 0
    case GetSection => s.consumer.Enter?
    case ReleaseOne => s.consumer.Releasing?
    case ResetDiscard => s.consumer.Clearing?
    case RefundOne => s.consumer.Refunding?
    case ResetWait => s.consumer.Resetting?
    case WaitTest => s.consumer.Waiting?
    case WakeUp => s.consumer.Asleep? && s.sigcount != s.consumer.seen
    case Append => s.consumer.Delivering? && s.consumer.ret.event && s.consumer.next < |s.buf|
    case Decide => s.consumer.Delivering? && !(s.consumer.ret.event && s.consumer.next < |s.buf|)
  }

  predicate ConsumerStep(a: Action) {
    a.GetSection? || a.ReleaseOne? || a.ResetDiscard? || a.RefundOne? || a.ResetWait?
    || a.WaitTest? || a.WakeUp? || a.Append? || a.Decide?
  }

  /** Semaphore::unlock: it throws when the value is already at its maximum. */
  function Unlock(s: State): State {
    if s.free >= s.len then s.(log := s.log.(faulted := true)) else s.(free := s.free + 1)
  }

  function Signal(s: State): State {
    s.(signaled := true, sigcount := s.sigcount + 1)
  }

  /** get_events gives control back to QueueThread::run. */
  function Return(s: State, event: bool): State {
    s.(consumer := Delivering(Returned(event, s.flags.exit, s.flags.drain), 0),
       log := if s.flags.exit then s.log.(lateReturns := s.log.lateReturns + 1) else s.log)
  }

  function PutCritical(s: State, ev: Event): State {
    var c := s.callers.(admitted := s.callers.admitted - multiset{ev});
    if s.flags.exit then s.(callers := c.(refusing := c.refusing + 1))
    else s.(queue := s.queue + [ev], flags := s.flags.(queue := true),
            callers := c.(signalling := c.signalling + 1),
            log := s.log.(accepted := s.log.accepted + [ev]))
  }

  function ExitCritical(s: State, mode: ExitMode): State {
    var c := s.callers.(exiting := s.callers.exiting - multiset{mode});
    if s.flags.exit then s.(callers := c)
    else s.(flags := s.flags.(exit := true, drain := mode == Draining),
            callers := c.(exitSignalling := c.exitSignalling + 1))
  }

  function GetCritical(s: State): State {
    match BranchOf(s.flags)
    case Take =>
      s.(buf := s.queue, queue := [], flags := s.flags.(queue := false), consumer := Releasing(|s.queue|),
         log := s.log.(faulted := s.log.faulted || s.queue == []))
    case Discard =>
      s.(queue := [], flags := s.flags.(queue := false), consumer := Clearing,
         log := s.log.(dropped := s.log.dropped + s.queue, faulted := s.log.faulted || s.queue == []))
    case Leave => Return(s, false)
    case Block => s.(consumer := Resetting)
  }

  /** QueueThread::run once the batch has been handed over. */
  function Decision(ret: Returned): Consumer {
    if ret.exit && ret.drain && ret.event then Enter
    else if ret.exit then Finished
    else Enter
  }

  function CallerAction(s: State, a: Action): State
    requires Enabled(s, a) && !ConsumerStep(a)
  {
    var c := s.callers;
    match a
    case CallPut(ev) => s.(callers := c.(arriving := c.arriving + multiset{ev}))
    case TakePermit(ev) =>
      s.(free := s.free - 1,
         callers := c.(arriving := c.arriving - multiset{ev}, admitted := c.admitted + multiset{ev}))
    case PutSection(ev) => PutCritical(s, ev)
    case SignalPut => Signal(s.(callers := c.(signalling := c.signalling - 1)))
    case ReturnPermit => Unlock(s.(callers := c.(refusing := c.refusing - 1)))
    case CallExit(mode) => s.(callers := c.(exiting := c.exiting + multiset{mode}))
    case ExitSection(mode) => ExitCritical(s, mode)
    case SignalExit => Signal(s.(callers := c.(exitSignalling := c.exitSignalling - 1)))
  }

  function ConsumerAction(s: State, a: Action): State
    requires Enabled(s, a) && ConsumerStep(a)
  {
    match a
    case GetSection => GetCritical(s)
    case ReleaseOne =>
      if s.consumer.left == 0 then Return(s, true)
      else Unlock(s.(consumer := Releasing(s.consumer.left - 1)))
    case ResetDiscard => s.(signaled := false, consumer := Refunding)
    case RefundOne => Return(Unlock(s), false)
    case ResetWait => s.(signaled := false, consumer := Waiting)
    case WaitTest => s.(consumer := if s.signaled then Enter else Asleep(s.sigcount))
    case WakeUp => s.(consumer := Enter)
    case Append =>
      s.(log := s.log.(delivered := s.log.delivered + [s.buf[s.consumer.next]]),
         consumer := s.consumer.(next := s.consumer.next + 1))
    case Decide => s.(consumer := Decision(s.consumer.ret))
  }

  function Apply(s: State, a: Action): State
    requires Enabled(s, a)
  {
    if ConsumerStep(a) then ConsumerAction(s, a) else CallerAction(s, a)
  }

  lemma ConsumerKeepsCallers(s: State, a: Action)
    requires Enabled(s, a) && ConsumerStep(a)
    ensures Apply(s, a).callers == s.callers
  {
  }

  /** The state after a list of actions, if each was enabled in its turn. */
  function Run(len: nat, acts: seq<Action>): Option<State> {
    if acts == [] then Some(Init(len))
    else
      match Run(len, acts[..|acts| - 1])
      case None => None
      case Some(s) =>
        if Enabled(s, acts[|acts| - 1]) then Some(Apply(s, acts[|acts| - 1])) else None
  }

  // ----- The inductive invariant, clause by clause -----

  /** Events taken out of the queue and not yet handed to the appenders. */
  function InHand(s: State): seq<Event> {
    match s.consumer
    case Releasing(_) => s.buf
    case Delivering(ret, next) => if ret.event && next <= |s.buf| then s.buf[next..] else []
    case _ => []
  }

  /** get_events returned for the last time. */
  predicate LastReturn(s: State) {
    s.consumer.Finished? || (s.consumer.Delivering? && s.consumer.ret.exit && !s.consumer.ret.event)
  }

  predicate FlagInv(s: State) {
    && !s.log.faulted
    && (s.flags.queue <==> s.queue != [])
    && (!s.flags.exit ==> s.flags.drain)
    && (s.consumer.Delivering? ==>
          && s.consumer.next <= |s.buf|
          && (s.consumer.ret.exit ==> s.flags.exit && s.consumer.ret.drain == s.flags.drain && s.queue == [])
          && (!s.consumer.ret.event ==> s.consumer.ret.exit)
          && (s.consumer.ret.event && s.consumer.ret.exit ==> s.flags.drain))
    && (s.consumer.Releasing? ==> s.queue == [] && (s.flags.exit ==> s.flags.drain))
    && (s.consumer.Clearing? || s.consumer.Refunding? ==> s.flags.exit && s.log.dropped != [])
    && (s.consumer.Resetting? ==> !s.flags.queue && !s.flags.exit)
    && (s.consumer.Finished? ==> s.flags.exit && s.queue == [])
    && (s.log.dropped != [] ==>
          && s.flags.exit && !s.flags.drain && s.queue == []
          && (s.consumer.Clearing? || s.consumer.Refunding? || LastReturn(s)))
  }

  /** No event is lost, duplicated or reordered. */
  predicate OrderInv(s: State) {
    s.log.delivered + InHand(s) + s.log.dropped + s.queue == s.log.accepted
  }

  function Held(s: State): nat {
    |s.callers.admitted| + s.callers.refusing
  }

  function ToRelease(s: State): nat {
    if s.consumer.Releasing? then s.consumer.left else 0
  }

  /** Permits: one equation until events are discarded, another once the single refund was made. */
  predicate PermitInv(s: State) {
    && |s.log.dropped| <= s.len
    && s.free + Held(s) + ToRelease(s) + |s.queue| + |s.log.dropped|
       == s.len + (if s.log.dropped != [] && !s.consumer.Clearing? && !s.consumer.Refunding? then 1 else 0)
  }

  function PendingSignals(s: State): nat {
    s.callers.signalling + s.callers.exitSignalling
  }

  /** No lost wake-up. */
  predicate WakeInv(s: State) {
    && (s.consumer.Waiting? && (s.flags.queue || s.flags.exit) ==> s.signaled || PendingSignals(s) > 0)
    && (s.consumer.Asleep? ==>
          && s.consumer.seen <= s.sigcount
          && (s.flags.queue || s.flags.exit ==> s.sigcount > s.consumer.seen || PendingSignals(s) > 0))
  }

  /** How many times get_events may still return once EXIT is set. */
  predicate ReturnInv(s: State) {
    && (!s.flags.exit ==> s.log.lateReturns == 0)
    && s.log.lateReturns <= 2
    && (!s.flags.drain ==> s.log.lateReturns <= 1)
    && (s.log.lateReturns >= 1 ==>
          && s.queue == []
          && (s.consumer.Enter? || s.consumer.Finished? || (s.consumer.Delivering? && s.consumer.ret.exit)))
    && (s.log.lateReturns == 1 && !s.flags.drain ==> LastReturn(s))
    && (s.log.lateReturns == 2 ==> LastReturn(s))
  }

  predicate Inv(s: State) {
    FlagInv(s) && OrderInv(s) && PermitInv(s) && WakeInv(s) && ReturnInv(s)
  }

  lemma FlagCaller(s: State, a: Action)
    requires FlagInv(s) && PermitInv(s) && Enabled(s, a) && !ConsumerStep(a)
    ensures FlagInv(CallerAction(s, a))
  {
  }

  lemma FlagConsumer(s: State, a: Action)
    requires FlagInv(s) && PermitInv(s) && Enabled(s, a) && ConsumerStep(a)
    ensures FlagInv(ConsumerAction(s, a))
  {
  }

  lemma FlagStep(s: State, a: Action)
    requires FlagInv(s) && PermitInv(s) && Enabled(s, a)
    ensures FlagInv(Apply(s, a))
  {
    if ConsumerStep(a) { FlagConsumer(s, a); } else { FlagCaller(s, a); }
  }

  /** The only actions that move events: a push, taking or discarding the queue, handing one event over. */
  lemma OrderFrame(s: State, a: Action)
    requires Inv(s) && Enabled(s, a)
    requires !a.PutSection? && !a.GetSection? && !a.Append?
    ensures var t := Apply(s, a);
            && InHand(t) == InHand(s) && t.log.delivered == s.log.delivered
            && t.log.dropped == s.log.dropped && t.queue == s.queue && t.log.accepted == s.log.accepted
  {
  }

  lemma OrderPut(s: State, ev: Event)
    requires Inv(s) && Enabled(s, PutSection(ev))
    ensures OrderInv(Apply(s, PutSection(ev)))
  {
    var t := Apply(s, PutSection(ev));
    var pre := s.log.delivered + InHand(s) + s.log.dropped;
    assert t.log.delivered + InHand(t) + t.log.dropped == pre;
    assert pre + (s.queue + [ev]) == (pre + s.queue) + [ev];
  }

  lemma OrderGet(s: State)
    requires Inv(s) && s.consumer.Enter?
    ensures OrderInv(Apply(s, GetSection))
  {
    var t := Apply(s, GetSection);
    assert s.log.delivered + InHand(s) + s.log.dropped + s.queue == s.log.delivered + s.queue;
    assert t.log.delivered + InHand(t) + t.log.dropped + t.queue == s.log.delivered + s.queue;
  }

  lemma OrderAppend(s: State)
    requires Inv(s) && Enabled(s, Append)
    ensures OrderInv(Apply(s, Append))
  {
    var t, n := Apply(s, Append), s.consumer.next;
    assert s.buf[n..] == [s.buf[n]] + s.buf[n + 1..];
    assert t.log.delivered + InHand(t) == s.log.delivered + InHand(s);
  }

  lemma OrderStep(s: State, a: Action)
    requires Inv(s) && Enabled(s, a)
    ensures OrderInv(Apply(s, a))
  {
    match a
    case PutSection(ev) => OrderPut(s, ev);
    case GetSection => OrderGet(s);
    case Append => OrderAppend(s);
    case _ => OrderFrame(s, a);
  }

  lemma PermitCaller(s: State, a: Action)
    requires FlagInv(s) && PermitInv(s) && Enabled(s, a) && !ConsumerStep(a)
    ensures PermitInv(Apply(s, a))
  {
    var t := Apply(s, a);
    if a.TakePermit? {
      assert |t.callers.admitted| == |s.callers.admitted| + 1;
    } else if a.PutSection? {
      assert |t.callers.admitted| == |s.callers.admitted| - 1;
    }
  }

  lemma PermitConsumer(s: State, a: Action)
    requires FlagInv(s) && PermitInv(s) && Enabled(s, a) && ConsumerStep(a)
    ensures PermitInv(Apply(s, a))
  {
  }

  lemma PermitStep(s: State, a: Action)
    requires FlagInv(s) && PermitInv(s) && Enabled(s, a)
    ensures PermitInv(Apply(s, a))
  {
    if ConsumerStep(a) { PermitConsumer(s, a); } else { PermitCaller(s, a); }
  }

  lemma WakeCaller(s: State, a: Action)
    requires FlagInv(s) && WakeInv(s) && Enabled(s, a) && !ConsumerStep(a)
    ensures WakeInv(CallerAction(s, a))
  {
  }

  lemma WakeConsumer(s: State, a: Action)
    requires FlagInv(s) && WakeInv(s) && Enabled(s, a) && ConsumerStep(a)
    ensures WakeInv(ConsumerAction(s, a))
  {
  }

  lemma WakeStep(s: State, a: Action)
    requires FlagInv(s) && WakeInv(s) && Enabled(s, a)
    ensures WakeInv(Apply(s, a))
  {
    if ConsumerStep(a) { WakeConsumer(s, a); } else { WakeCaller(s, a); }
  }

  lemma ReturnStep(s: State, a: Action)
    requires FlagInv(s) && ReturnInv(s) && Enabled(s, a)
    ensures ReturnInv(Apply(s, a))
  {
  }

  lemma InvStep(s: State, a: Action)
    requires Inv(s) && Enabled(s, a)
    ensures Inv(Apply(s, a))
  {
    FlagStep(s, a);
    OrderStep(s, a);
    PermitStep(s, a);
    WakeStep(s, a);
    ReturnStep(s, a);
  }

  lemma {:induction false} RunInv(len: nat, acts: seq<Action>)
    ensures var r := Run(len, acts); r.Some? ==> r.value.len == len && Inv(r.value)
  {
    if acts != [] {
      var pre := acts[..|acts| - 1];
      RunInv(len, pre);
      if Run(len, acts).Some? {
        InvStep(Run(len, pre).value, acts[|acts| - 1]);
      }
    }
  }
}
