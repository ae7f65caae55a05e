/**
 What becomes of the calls made to the queue, said of the calls themselves: which
 events are accepted, and what the first request to exit does to them.
 */
module QueueExit {
  import opened Wrappers
  import opened AsyncQueue
  import opened QueueRuns

  /** The argument of the signal_exit that came first. */
  function FirstExit(acts: seq<Action>): Option<ExitMode> {
    if acts == [] then None
    else
      var last := acts[|acts| - 1];
      match FirstExit(acts[..|acts| - 1])
      case Some(mode) => Some(mode)
      case None => if last.ExitSection? then Some(last.mode) else None
  }

  /** The events of the put_event calls that came to push before any signal_exit, in order. */
  function Pushed(acts: seq<Action>): seq<Event> {
    if acts == [] then []
    else
      var front, last := acts[..|acts| - 1], acts[|acts| - 1];
      if last.PutSection? && FirstExit(front) == None then Pushed(front) + [last.ev] else Pushed(front)
  }

  lemma FlagsByCall(s: State, a: Action)
    requires Enabled(s, a)
    ensures var f := Apply(s, a).flags;
            && (f.exit <==> s.flags.exit || a.ExitSection?)
            && f.drain == (if !s.flags.exit && a.ExitSection? then a.mode == Draining else s.flags.drain)
  {
  }

  lemma AcceptedByCall(s: State, a: Action)
    requires Enabled(s, a)
    ensures Apply(s, a).log.accepted
         == if !s.flags.exit && a.PutSection? then s.log.accepted + [a.ev] else s.log.accepted
  {
  }

  /** In every state the flags are those the first signal_exit asked for, and the accepted events those pushed
      before it. */
  lemma {:induction false} CallsDecide(len: nat, acts: seq<Action>, s: State)
    requires Run(len, acts) == Some(s)
    ensures s.flags.exit <==> FirstExit(acts) != None
    ensures s.flags.drain <==> FirstExit(acts) != Some(Discarding)
    ensures s.log.accepted == Pushed(acts)
  {
    if acts != [] {
      var front, last := acts[..|acts| - 1], acts[|acts| - 1];
      var m := Run(len, front).value;
      CallsDecide(len, front, m);
      FlagsByCall(m, last);
      AcceptedByCall(m, last);
    }
  }

  /** The events of all put_event calls. */
  function Called(acts: seq<Action>): multiset<Event> {
    if acts == [] then multiset{}
    else
      var front, last := acts[..|acts| - 1], acts[|acts| - 1];
      if last.CallPut? then Called(front) + multiset{last.ev} else Called(front)
  }

  /** The events of those that came to push after a signal_exit. */
  function Refused(acts: seq<Action>): multiset<Event> {
    if acts == [] then multiset{}
    else
      var front, last := acts[..|acts| - 1], acts[|acts| - 1];
      if last.PutSection? && FirstExit(front) != None then Refused(front) + multiset{last.ev} else Refused(front)
  }

  function OnTheWay(s: State): multiset<Event> {
    s.callers.arriving + s.callers.admitted
  }

  lemma OneMoves(a: multiset<Event>, b: multiset<Event>, ev: Event)
    ensures ev in a ==> (a - multiset{ev}) + (b + multiset{ev}) == a + b
    ensures ev in b ==> a + (b - multiset{ev}) + multiset{ev} == a + b
    ensures a + multiset{ev} + b == a + b + multiset{ev}
  {
  }

  lemma OnTheWayByCall(s: State, a: Action)
    requires Enabled(s, a)
    ensures var was, now := OnTheWay(s), OnTheWay(Apply(s, a));
            && (a.CallPut? ==> now == was + multiset{a.ev})
            && (a.PutSection? ==> now + multiset{a.ev} == was)
            && (!a.CallPut? && !a.PutSection? ==> now == was)
  {
    if ConsumerStep(a) {
      ConsumerKeepsCallers(s, a);
    } else if a.CallPut? || a.TakePermit? || a.PutSection? {
      OneMoves(s.callers.arriving, s.callers.admitted, a.ev);
    } else {
      var c := CallerAction(s, a).callers;
      assert c.arriving == s.callers.arriving && c.admitted == s.callers.admitted;
    }
  }

  /** No call is lost: in every state each event that was passed to put_event waits for a permit, has one, was
      accepted, or was refused because it came after an exit request. */
  lemma {:induction false} CallsAccounted(len: nat, acts: seq<Action>, s: State)
    requires Run(len, acts) == Some(s)
    ensures Called(acts) == OnTheWay(s) + multiset(Pushed(acts)) + Refused(acts)
  {
    if acts != [] {
      var front, last := acts[..|acts| - 1], acts[|acts| - 1];
      var m := Run(len, front).value;
      CallsAccounted(len, front, m);
      OnTheWayByCall(m, last);
    }
  }

  /** Unless discarding was asked for first nothing is dropped, and a consumer that ends after a request to drain
      has delivered every event pushed before it. */
  lemma DrainingDeliversAll(len: nat, acts: seq<Action>, s: State)
    requires Run(len, acts) == Some(s)
    ensures FirstExit(acts) != Some(Discarding) ==> s.log.dropped == []
    ensures FirstExit(acts) == Some(Draining) && s.consumer.Finished? ==> s.log.delivered == Pushed(acts)
  {
    CallsDecide(len, acts, s);
    DeliveryOrder(len, acts, s);
  }

  /** Taken by the consumer, whether handed over yet or not. */
  function Taken(s: State): seq<Event> {
    s.log.delivered + InHand(s)
  }

  lemma OneHandedOver(delivered: seq<Event>, buf: seq<Event>, n: nat)
    requires n < |buf|
    ensures delivered + [buf[n]] + buf[n + 1..] == delivered + buf[n..]
  {
    assert buf[n..] == [buf[n]] + buf[n + 1..];
  }

  lemma DiscardAppend(s: State)
    requires FlagInv(s) && Enabled(s, Append)
    ensures Taken(Apply(s, Append)) == Taken(s)
  {
    var t := ConsumerAction(s, Append);
    assert Apply(s, Append) == t;
    OneHandedOver(s.log.delivered, s.buf, s.consumer.next);
  }

  lemma DiscardTakesNone(s: State, a: Action)
    requires FlagInv(s) && Enabled(s, a) && s.flags.exit && !s.flags.drain
    ensures Taken(Apply(s, a)) == Taken(s)
  {
    if a.Append? { DiscardAppend(s); }
  }

  lemma DiscardDrops(s: State, a: Action)
    requires FlagInv(s) && Enabled(s, a) && s.flags.exit && !s.flags.drain
    ensures var t := Apply(s, a); t.log.dropped + t.queue == s.log.dropped + s.queue
  {
    if a.GetSection? { assert s.log.dropped + s.queue + [] == s.log.dropped + s.queue; }
  }

  lemma {:induction false} DiscardContinues(s: State, acts: seq<Action>)
    requires Inv(s) && s.flags.exit && !s.flags.drain && Continue(s, acts).Some?
    ensures var t := Continue(s, acts).value;
            Taken(t) == Taken(s) && t.log.dropped + t.queue == s.log.dropped + s.queue
    decreases |acts|
  {
    if acts != [] {
      FlagsByCall(s, acts[0]);
      DiscardTakesNone(s, acts[0]);
      DiscardDrops(s, acts[0]);
      InvStep(s, acts[0]);
      DiscardContinues(Apply(s, acts[0]), acts[1..]);
    }
  }

  lemma {:induction false} RunContinues(len: nat, pre: seq<Action>, post: seq<Action>)
    requires Run(len, pre).Some?
    ensures Run(len, pre + post) == Continue(Run(len, pre).value, post)
    decreases |post|
  {
    if post == [] {
      assert pre + post == pre;
    } else {
      var s, a := Run(len, pre).value, post[0];
      assert (pre + [a])[..|pre|] == pre;
      assert pre + post == (pre + [a]) + post[1..];
      if Enabled(s, a) { RunContinues(len, pre + [a], post[1..]); } else { RunStops(len, pre + [a], post[1..]); }
    }
  }

  lemma {:induction false} RunStops(len: nat, pre: seq<Action>, post: seq<Action>)
    requires Run(len, pre).None?
    ensures Run(len, pre + post).None?
    decreases |post|
  {
    if post == [] {
      assert pre + post == pre;
    } else {
      var front := post[..|post| - 1];
      RunStops(len, pre, front);
      assert (pre + post)[..|pre + post| - 1] == pre + front;
    }
  }

  lemma ContinueStep(m: State, a: Action, post: seq<Action>)
    requires Continue(m, [a] + post).Some?
    ensures Enabled(m, a) && Continue(m, [a] + post) == Continue(Apply(m, a), post)
  {
    assert ([a] + post)[0] == a && ([a] + post)[1..] == post;
  }

  lemma Regroup(pre: seq<Action>, a: Action, post: seq<Action>)
    ensures pre + [a] + post == pre + ([a] + post)
  {
  }

  lemma ExitDiscards(m: State)
    requires FlagInv(m) && !m.flags.exit && Enabled(m, ExitSection(Discarding))
    ensures var t := Apply(m, ExitSection(Discarding));
            && t.flags.exit && !t.flags.drain
            && Taken(t) == Taken(m) && t.log.dropped + t.queue == m.queue
  {
    assert m.log.dropped + m.queue == m.queue;
  }

  lemma FinishedTook(s: State)
    requires FlagInv(s)
    ensures s.consumer.Finished? ==> Taken(s) == s.log.delivered && s.log.dropped + s.queue == s.log.dropped
  {
  }

  /** When the first request is to discard, no event that is queued at that moment is ever delivered: only what the
      consumer had already taken is, and the rest is dropped. */
  lemma DiscardingDropsQueue(len: nat, pre: seq<Action>, m: State, post: seq<Action>, s: State)
    requires Run(len, pre) == Some(m) && FirstExit(pre) == None
    requires Run(len, pre + [ExitSection(Discarding)] + post) == Some(s)
    ensures s.log.delivered <= Taken(m) && s.log.dropped + s.queue == m.queue
    ensures s.consumer.Finished? ==> s.log.delivered == Taken(m) && s.log.dropped == m.queue
  {
    var exit := ExitSection(Discarding);
    RunInv(len, pre);
    CallsDecide(len, pre, m);
    Regroup(pre, exit, post);
    RunContinues(len, pre, [exit] + post);
    ContinueStep(m, exit, post);
    InvStep(m, exit);
    ExitDiscards(m);
    DiscardContinues(Apply(m, exit), post);
    RunInv(len, pre + [exit] + post);
    assert s.log.delivered <= Taken(s);
    FinishedTook(s);
  }
}
