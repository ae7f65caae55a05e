/**
 The socket appender and the thread that reconnects it.  Appends run under the
 appender's mutex, the exit flag and the wake event are set under the thread's own.
 */
module Connector {

  /** Where the connector thread is. */
  datatype Pc = Waiting | CheckExit | CheckSocket | Connecting | Napping | Installing | Returned

  /** requested is set by an append that needs a reconnection until the thread next looks at the socket;
      replaced records whether an open socket was ever overwritten. */
  datatype State = State(
    connected: bool, socketOpen: bool, exitFlag: bool, event: bool, pc: Pc, requested: bool, replaced: bool)

  datatype Action =
    | AppendSent | AppendFailed | AppendRefused | Terminate | CloseSocket
    | Wake | LookAtExit | LookAtSocket | Connect(ok: bool) | Nap | Install

  /** The thread starts after the first attempt to open the socket, whatever became of it. */
  function Init(socketOpen: bool): State {
    State(true, socketOpen, false, false, Waiting, false, false)
  }

  predicate Enabled(s: State, a: Action) {
    match a
    case AppendSent => s.connected && s.socketOpen
    case AppendFailed => s.connected
    case AppendRefused => !s.connected
    case Terminate => true
    case CloseSocket => s.exitFlag && s.pc == Returned
    case Wake => s.pc == Waiting
    case LookAtExit => s.pc == CheckExit
    case LookAtSocket => s.pc == CheckSocket
    case Connect(_) => s.pc == Connecting
    case Nap => s.pc == Napping
    case Install => s.pc == Installing
  }

  /** The wait is timed, so that waking does not need the event. */
  function Apply(s: State, a: Action): State
    requires Enabled(s, a)
  {
    match a
    case AppendSent => s
    case AppendFailed => s.(socketOpen := false, connected := false, event := true, requested := true)
    case AppendRefused => s.(event := true, requested := true)
    case Terminate => s.(exitFlag := true, event := true)
    case CloseSocket => s.(socketOpen := false)
    case Wake => s.(pc := CheckExit)
    case LookAtExit => if s.exitFlag then s.(pc := Returned) else s.(event := false, pc := CheckSocket)
    case LookAtSocket => s.(pc := if s.socketOpen then Waiting else Connecting, requested := false)
    case Connect(ok) => s.(pc := if ok then Installing else Napping)
    case Nap => s.(pc := Waiting)
    case Install => s.(socketOpen := true, connected := true, pc := Waiting, replaced := s.replaced || s.socketOpen)
  }

  ghost predicate Runs(s: State, run: seq<Action>, t: State)
    decreases |run|
  {
    if run == [] then s == t else Enabled(s, run[0]) && Runs(Apply(s, run[0]), run[1..], t)
  }

  predicate Inv(s: State) {
    && (!s.connected ==> !s.socketOpen)
    && (s.pc == Connecting || s.pc == Napping || s.pc == Installing ==> !s.socketOpen)
    && (s.exitFlag ==> s.event)
    && (s.requested ==> s.event || s.pc == CheckSocket)
    && (s.pc == Returned ==> s.exitFlag)
    && !s.replaced
  }

  lemma StepKeepsInv(s: State, a: Action)
    requires Inv(s) && Enabled(s, a)
    ensures Inv(Apply(s, a)) && (s.exitFlag ==> Apply(s, a).exitFlag)
  {
  }

  lemma {:induction false} RunKeepsInv(s: State, run: seq<Action>, t: State)
    requires Inv(s) && Runs(s, run, t)
    ensures Inv(t) && (s.exitFlag ==> t.exitFlag)
    decreases |run|
  {
    if run != [] {
      StepKeepsInv(s, run[0]);
      RunKeepsInv(Apply(s, run[0]), run[1..], t);
    }
  }

  /** In every interleaving a disconnected appender has its socket closed, no open socket was ever replaced, a
      request to reconnect keeps the event signalled until the thread goes to look at the socket, and so does a
      call of terminate until the thread returns. */
  lemma EveryRunSafe(open: bool, run: seq<Action>, t: State)
    requires Runs(Init(open), run, t)
    ensures !t.connected ==> !t.socketOpen
    ensures !t.replaced
    ensures t.requested ==> t.event || t.pc == CheckSocket
    ensures t.exitFlag ==> t.event
  {
    RunKeepsInv(Init(open), run, t);
  }

  // ----- Termination of the thread -----

  predicate OfThread(a: Action) {
    a.Wake? || a.LookAtExit? || a.LookAtSocket? || a.Connect? || a.Nap? || a.Install?
  }

  /** How many steps the thread can still take once it is told to exit. */
  function StepsLeft(pc: Pc): nat {
    match pc
    case Returned => 0
    case CheckExit => 1
    case Waiting => 2
    case Napping => 3
    case Installing => 3
    case Connecting => 4
    case CheckSocket => 5
  }

  function ThreadSteps(run: seq<Action>): nat {
    if run == [] then 0 else (if OfThread(run[0]) then 1 else 0) + ThreadSteps(run[1..])
  }

  /** The next step of the thread, which is always possible until it has returned. */
  function NextStep(s: State): Action
    requires s.pc != Returned
  {
    match s.pc
    case Waiting => Wake
    case CheckExit => LookAtExit
    case CheckSocket => LookAtSocket
    case Connecting => Connect(false)
    case Napping => Nap
    case Installing => Install
  }

  lemma StepsLeftDecrease(s: State, a: Action)
    requires Enabled(s, a) && s.exitFlag
    ensures var left := StepsLeft(Apply(s, a).pc);
            if OfThread(a) then left < StepsLeft(s.pc) else left == StepsLeft(s.pc)
  {
  }

  /** After the exit flag is set the thread takes at most five more steps, however the appends interleave; and
      until it has returned it can take one. */
  lemma {:induction false} BoundedReturn(s: State, run: seq<Action>, t: State)
    requires Inv(s) && s.exitFlag && Runs(s, run, t)
    ensures ThreadSteps(run) + StepsLeft(t.pc) <= StepsLeft(s.pc)
    ensures t.pc != Returned ==> Enabled(t, NextStep(t)) && OfThread(NextStep(t))
    decreases |run|
  {
    if run != [] {
      StepsLeftDecrease(s, run[0]);
      StepKeepsInv(s, run[0]);
      BoundedReturn(Apply(s, run[0]), run[1..], t);
    }
  }

  // ----- What the run decides -----

  /** A failed append disconnects, an installed socket connects, and nothing else does either. */
  predicate Connects(was: bool, a: Action) {
    a.Install? || (was && !a.AppendFailed?)
  }

  predicate Opens(was: bool, a: Action) {
    a.Install? || (was && !a.AppendFailed? && !a.CloseSocket?)
  }

  predicate ConnectedAfter(was: bool, run: seq<Action>)
    decreases |run|
  {
    if run == [] then was else ConnectedAfter(Connects(was, run[0]), run[1..])
  }

  predicate OpenAfter(was: bool, run: seq<Action>)
    decreases |run|
  {
    if run == [] then was else OpenAfter(Opens(was, run[0]), run[1..])
  }

  lemma StepDecidesExit(s: State, a: Action)
    requires Enabled(s, a)
    ensures Apply(s, a).exitFlag <==> s.exitFlag || a.Terminate?
  {
  }

  lemma StepDecides(s: State, a: Action)
    requires Enabled(s, a)
    ensures Apply(s, a).connected == Connects(s.connected, a)
    ensures Apply(s, a).socketOpen == Opens(s.socketOpen, a)
  {
  }

  lemma FirstOrLater(run: seq<Action>, a: Action)
    requires run != []
    ensures a in run <==> run[0] == a || a in run[1..]
  {
    assert run == [run[0]] + run[1..];
  }

  /** In every run the thread is told to exit by terminate alone, and whether the appender is connected and its
      socket open is decided by the last failure, installation or closing. */
  lemma {:induction false} RunDecides(s: State, run: seq<Action>, t: State)
    requires Runs(s, run, t)
    ensures t.exitFlag <==> s.exitFlag || Terminate in run
    ensures t.connected == ConnectedAfter(s.connected, run)
    ensures t.socketOpen == OpenAfter(s.socketOpen, run)
    decreases |run|
  {
    if run != [] {
      StepDecidesExit(s, run[0]);
      StepDecides(s, run[0]);
      RunDecides(Apply(s, run[0]), run[1..], t);
      FirstOrLater(run, Terminate);
    }
  }

  lemma {:induction false} RunsSplit(s: State, a: seq<Action>, b: seq<Action>, t: State) returns (m: State)
    requires Runs(s, a + b, t)
    ensures Runs(s, a, m) && Runs(m, b, t)
    decreases |a|
  {
    if a == [] {
      assert a + b == b;
      m := s;
    } else {
      assert (a + b)[1..] == a[1..] + b;
      m := RunsSplit(Apply(s, a[0]), a[1..], b, t);
    }
  }

  /** After terminate the thread takes at most five more steps in any run, and until it has returned it can take
      one. */
  lemma TerminateEndsThread(s: State, before: seq<Action>, after: seq<Action>, t: State)
    requires Inv(s) && Runs(s, before + ([Terminate] + after), t)
    ensures ThreadSteps(after) <= 5
    ensures t.pc != Returned ==> Enabled(t, NextStep(t)) && OfThread(NextStep(t))
  {
    var m := RunsSplit(s, before, [Terminate] + after, t);
    RunKeepsInv(s, before, m);
    StepKeepsInv(m, Terminate);
    assert ([Terminate] + after)[1..] == after;
    var m1 := Apply(m, Terminate);
    StepDecidesExit(m, Terminate);
    BoundedReturn(m1, after, t);
  }

  lemma {:induction false} ReturnedForGood(s: State, run: seq<Action>, t: State)
    requires Runs(s, run, t) && s.pc == Returned && !s.socketOpen
    ensures t.pc == Returned && !t.socketOpen
    decreases |run|
  {
    if run != [] { ReturnedForGood(Apply(s, run[0]), run[1..], t); }
  }

  /** Once close has closed the socket nothing opens it again. */
  lemma ClosedForGood(s: State, before: seq<Action>, after: seq<Action>, t: State)
    requires Runs(s, before + ([CloseSocket] + after), t)
    ensures !t.socketOpen
  {
    var m := RunsSplit(s, before, [CloseSocket] + after, t);
    assert ([CloseSocket] + after)[1..] == after;
    ReturnedForGood(Apply(m, CloseSocket), after, t);
  }

  // ----- Requests are served -----

  /** How many steps the thread can take before and including its next look at the socket. */
  function StepsToLook(pc: Pc): nat {
    match pc
    case Returned => 0
    case CheckSocket => 1
    case CheckExit => 2
    case Waiting => 3
    case Napping => 4
    case Installing => 4
    case Connecting => 5
  }

  lemma StepsToLookDecrease(s: State, a: Action)
    requires Inv(s) && Enabled(s, a) && !Apply(s, a).exitFlag && a != LookAtSocket
    ensures var t := Apply(s, a);
            && (s.requested ==> t.requested)
            && (if OfThread(a) then StepsToLook(t.pc) < StepsToLook(s.pc) else t.pc == s.pc)
  {
  }

  /** From any state with a request, however appends interleave, the thread looks at the socket within five of
      its own steps unless it is told to exit; until then the request and its signal stand, so that the wait
      does not hold it up. */
  lemma {:induction false} RequestServed(s: State, run: seq<Action>, t: State)
    requires Inv(s) && s.requested && Runs(s, run, t) && !t.exitFlag && LookAtSocket !in run
    ensures t.requested && (t.pc == Waiting ==> t.event)
    ensures ThreadSteps(run) + StepsToLook(t.pc) <= StepsToLook(s.pc) <= 5 && StepsToLook(t.pc) >= 1
    ensures t.pc != Returned && Enabled(t, NextStep(t)) && OfThread(NextStep(t))
    decreases |run|
  {
    if run != [] {
      var s1 := Apply(s, run[0]);
      StepKeepsInv(s, run[0]);
      RunKeepsInv(s1, run[1..], t);
      assert run[0] in run && forall a :: a in run[1..] ==> a in run;
      StepsToLookDecrease(s, run[0]);
      RequestServed(s1, run[1..], t);
    }
  }

  /** An append that finds the appender disconnected reconnects it if the server can be reached: five steps of
      the thread later the socket is open. */
  lemma Reconnects(s: State)
    requires Inv(s) && s.pc == Waiting && !s.connected && !s.exitFlag
    ensures Runs(s, [AppendRefused, Wake, LookAtExit, LookAtSocket, Connect(true), Install],
                 s.(event := false, requested := false, socketOpen := true, connected := true))
  {
    var r := [AppendRefused, Wake, LookAtExit, LookAtSocket, Connect(true), Install];
    var s1 := Apply(s, AppendRefused);
    var s2 := Apply(s1, Wake);
    var s3 := Apply(s2, LookAtExit);
    var s4 := Apply(s3, LookAtSocket);
    var s5 := Apply(s4, Connect(true));
    var t := Apply(s5, Install);
    Precede(s5, Install, [], t);
    Precede(s4, Connect(true), [Install], t);
    Precede(s3, LookAtSocket, [Connect(true), Install], t);
    Precede(s2, LookAtExit, [LookAtSocket, Connect(true), Install], t);
    Precede(s1, Wake, [LookAtExit, LookAtSocket, Connect(true), Install], t);
    Precede(s, AppendRefused, [Wake, LookAtExit, LookAtSocket, Connect(true), Install], t);
  }

  lemma Precede(s: State, a: Action, run: seq<Action>, t: State)
    requires Enabled(s, a) && Runs(Apply(s, a), run, t)
    ensures Runs(s, [a] + run, t)
  {
    assert ([a] + run)[1..] == run;
  }
}
