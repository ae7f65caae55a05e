/**
 What holds in every state of the queue that any interleaving can reach.
 */
module QueueRuns {
  import opened Wrappers
  import opened AsyncQueue

  /** Neither assertion of get_events fails and the semaphore never throws. */
  lemma NoFault(len: nat, acts: seq<Action>, s: State)
    requires Run(len, acts) == Some(s)
    ensures !s.log.faulted
  {
    RunInv(len, acts);
  }

  lemma FirstIsPrefix(a: seq<Event>, b: seq<Event>, c: seq<Event>, d: seq<Event>)
    ensures a <= a + b + c + d
    ensures b + c + d == [] ==> a == a + b + c + d
  {
    assert a + b + c + d == a + (b + c + d);
  }

  /** Delivered, in hand, discarded and queued events are exactly the accepted ones in acceptance order;
      a drained shutdown ends with every accepted event delivered. */
  lemma DeliveryOrder(len: nat, acts: seq<Action>, s: State)
    requires Run(len, acts) == Some(s)
    ensures && s.log.delivered + InHand(s) + s.log.dropped + s.queue == s.log.accepted
            && s.log.delivered <= s.log.accepted
            && (s.log.dropped != [] ==> s.flags.exit && !s.flags.drain)
            && (s.consumer.Finished? && s.flags.drain ==> s.log.delivered == s.log.accepted)
  {
    RunInv(len, acts);
    FirstIsPrefix(s.log.delivered, InHand(s), s.log.dropped, s.queue);
  }

  /** Once EXIT is set get_events returns at most twice more, once if the queue is discarded. */
  lemma ReturnsAfterExit(len: nat, acts: seq<Action>, s: State)
    requires Run(len, acts) == Some(s)
    ensures && s.log.lateReturns <= (if s.flags.drain then 2 else 1)
            && (s.log.lateReturns == (if s.flags.drain then 2 else 1) ==> LastReturn(s))
  {
    RunInv(len, acts);
  }

  /** A consumer that waits while there is work or an exit request was signalled or will be. */
  lemma NoLostWakeup(len: nat, acts: seq<Action>, s: State)
    requires Run(len, acts) == Some(s)
    ensures s.flags.queue || s.flags.exit ==>
              && (s.consumer.Waiting? ==> s.signaled || PendingSignals(s) > 0)
              && (s.consumer.Asleep? ==> Enabled(s, WakeUp) || PendingSignals(s) > 0)
  {
    RunInv(len, acts);
    if s.consumer.Asleep? && s.sigcount > s.consumer.seen { SignalledSleeperWakes(s); }
  }

  lemma SignalledSleeperWakes(s: State)
    requires s.consumer.Asleep? && s.sigcount > s.consumer.seen
    ensures Enabled(s, WakeUp)
  {
  }

  /** Free permits, permits held by producers and queued events add up to the bound; a discard of n
      events leaves len - n + 1 permits in circulation. */
  lemma PermitConservation(len: nat, acts: seq<Action>, s: State)
    requires Run(len, acts) == Some(s)
    ensures && |s.queue| <= len && s.free <= len
            && (s.log.dropped == [] ==> s.free + Held(s) + ToRelease(s) + |s.queue| == len)
            && (s.log.dropped != [] && LastReturn(s) ==> s.free + Held(s) == len - |s.log.dropped| + 1)
            && (s.consumer.Finished? ==> (s.free + Held(s) >= 1 <==> len >= 1))
  {
    RunInv(len, acts);
  }

  /** With a bound of zero no put_event ever gets past the semaphore. */
  lemma ZeroLengthBlocks(acts: seq<Action>, s: State, ev: Event)
    requires Run(0, acts) == Some(s)
    ensures !Enabled(s, TakePermit(ev))
  {
    RunInv(0, acts);
  }

  // ----- Runs continued -----

  function Continue(s: State, acts: seq<Action>): Option<State>
    decreases |acts|
  {
    if acts == [] then Some(s)
    else if Enabled(s, acts[0]) then Continue(Apply(s, acts[0]), acts[1..])
    else None
  }

  /** The first signal_exit decides between draining and discarding, and closes the queue for good. */
  lemma {:induction false} DrainChoiceFixed(s: State, acts: seq<Action>)
    requires s.flags.exit && Continue(s, acts).Some?
    ensures var t := Continue(s, acts).value;
            t.flags.exit && t.flags.drain == s.flags.drain && t.log.accepted == s.log.accepted
    decreases |acts|
  {
    if acts != [] {
      DrainChoiceFixed(Apply(s, acts[0]), acts[1..]);
    }
  }
}
