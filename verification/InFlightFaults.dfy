/**
 What goes wrong with the counter without blocking: a dropped event is never
 subtracted, and one whose task throws is subtracted twice.
 */
module InFlightFaults {
  import opened InFlight

  /** A dropped event stays counted: without rethrown exceptions no wait ends after it. */
  lemma {:induction false} DropKeepsWaiting(s: State, run: seq<Action>, t: State)
    requires CountInv(s) && WakeInv(s) && s.dropped > s.rethrown && Runs(s, run, t)
    requires forall i :: 0 <= i < |run| ==> run[i] != PollThrow
    ensures t.returned == s.returned
    decreases |run|
  {
    if run != [] {
      assert run[0] != PollThrow;
      StepKeepsInv(s, run[0]);
      var s1, rest := Apply(s, run[0]), run[1..];
      assert s1.returned == s.returned && s1.dropped - s1.rethrown >= s.dropped - s.rethrown;
      assert forall i | 0 <= i < |rest| :: rest[i] == run[i + 1];
      DropKeepsWaiting(s1, rest, t);
    }
  }

  lemma Precede(s: State, a: Action, run: seq<Action>, t: State)
    requires Enabled(s, a) && Runs(Apply(s, a), run, t)
    ensures Runs(s, [a] + run, t)
  {
    assert ([a] + run)[1..] == run;
  }

  lemma {:induction false} RunsConcat(s: State, r: seq<Action>, t: State, q: seq<Action>, u: State)
    requires Runs(s, r, t) && Runs(t, q, u)
    ensures Runs(s, r + q, u)
    decreases |r|
  {
    if r == [] {
      assert r + q == q;
    } else {
      assert (r + q)[1..] == r[1..] + q;
      RunsConcat(Apply(s, r[0]), r[1..], t, q, u);
    }
  }

  /** One step to a state that is given. */
  predicate Steps(s: State, a: Action, t: State) {
    Enabled(s, a) && Apply(s, a) == t
  }

  lemma ThreeSteps(s: State, a: Action, s1: State, b: Action, s2: State, c: Action, t: State)
    requires Steps(s, a, s1) && Steps(s1, b, s2) && Steps(s2, c, t)
    ensures Reaches(s, t)
  {
    Precede(s2, c, [], t);
    Precede(s1, b, [c] + [], t);
    Precede(s, a, [b] + ([c] + []), t);
  }

  lemma ReachesOn(s: State, t: State, u: State)
    requires Reaches(s, t) && Reaches(t, u)
    ensures Reaches(s, u)
  {
    var r :| Runs(s, r, t);
    var q :| Runs(t, q, u);
    RunsConcat(s, r, t, q, u);
  }

  /** A task that runs while its caller has yet to look. */
  lemma TaskBegins(s: State)
    requires IsInit(s) && !s.blocking
    ensures Reaches(s, s.(inFlight := 1, running := 1, polling := 1))
  {
    var s1 := s.(inFlight := 1, entering := 1);
    var s2 := s.(inFlight := 1, queued := 1, polling := 1);
    ThreeSteps(s, Start, s1, Accept, s2, Run, s.(inFlight := 1, running := 1, polling := 1));
  }

  lemma TaskThrows(s: State)
    requires IsInit(s) && !s.blocking
    ensures Reaches(s.(inFlight := 1, running := 1, polling := 1), Below(s))
  {
    var s4 := s.(polling := 1, failed := 1, notifying := 1);
    var s5 := s.(unwinding := 1, notifying := 1, rethrown := 1);
    ThreeSteps(s.(inFlight := 1, running := 1, polling := 1), Finish(true), s4, PollThrow, s5, Unwind, Below(s));
  }

  function Below(s: State): State {
    s.(inFlight := -1, notifying := 1, rethrown := 1, underflowed := true)
  }

  lemma ReachesBelow(s: State)
    requires IsInit(s) && !s.blocking
    ensures Reaches(s, Below(s))
  {
    TaskBegins(s);
    TaskThrows(s);
    ReachesOn(s, s.(inFlight := 1, running := 1, polling := 1), Below(s));
  }

  /** An append whose task throws before its caller looks is subtracted twice. */
  lemma RethrowUnderflows(s: State)
    requires IsInit(s) && !s.blocking
    ensures exists t :: Reaches(s, t) && Live(t) == 0 && t.inFlight == -1
  {
    ReachesBelow(s);
    var t := Below(s);
    assert Reaches(s, t) && Live(t) == 0 && t.inFlight == -1;
  }

  lemma WaiterComes(s: State)
    requires IsInit(s) && !s.blocking
    ensures Reaches(Below(s), Below(s).(notifying := 0, holder := Checking))
  {
    var u := Below(s);
    ThreeSteps(u, Notify, u.(notifying := 0), Wait, u.(notifying := 0, awake := 1), Lock,
               u.(notifying := 0, holder := Checking));
  }

  lemma WaiterSleeps(s: State)
    requires IsInit(s) && !s.blocking
    ensures var u := Below(s).(notifying := 0);
            Reaches(u.(holder := Checking), u.(sleeping := 1, inFlight := 0, entering := 1))
  {
    var u := Below(s).(notifying := 0);
    ThreeSteps(u.(holder := Checking), Check, u.(holder := Deciding), Sleep, u.(sleeping := 1), Start,
               u.(sleeping := 1, inFlight := 0, entering := 1));
  }

  /** After that a waiter can sleep at zero with nobody to wake it. */
  lemma UnderflowLosesWakeup(s: State)
    requires IsInit(s) && !s.blocking
    ensures exists t :: Reaches(s, t) && t.sleeping > 0 && t.inFlight == 0 && t.notifying == 0
  {
    ReachesBelow(s);
    WaiterComes(s);
    WaiterSleeps(s);
    var u := Below(s).(notifying := 0);
    var t := u.(sleeping := 1, inFlight := 0, entering := 1);
    ReachesOn(s, Below(s), u.(holder := Checking));
    ReachesOn(s, u.(holder := Checking), t);
    assert Reaches(s, t) && t.sleeping > 0 && t.inFlight == 0 && t.notifying == 0;
  }
}
