/**
 The daily rolling appender: events go to the live file, which is archived under the
 name of its period when an event of a later period arrives or the appender closes.
 Times are whole seconds; all comparisons are with whole-second limits.
 */
module DailyRolling {
  import opened Files
  import opened Calendar
  import opened Schedule
  import opened DailyNames

  datatype Event = Event(stamp: int, text: string)

  type EventFile = seq<Event>

  /** The settings, and what the calendar makes of a time. */
  datatype Config = Config(f: string, k: int, rollOnClose: bool, date: int -> string, next: int -> int) {
    function Name(t: int): string {
      ArchiveName(f, date(t))
    }
    predicate Ok() {
      -0x8000_0000 <= k < 0x8000_0000
    }
  }

  /** clock is the reading from which the archive name and the next rollover were computed.  dropped holds
      the events of deleted backups. */
  datatype State = State(files: map<string, EventFile>, clock: int, dropped: multiset<Event>)

  function Contents(files: map<string, EventFile>, name: string): EventFile {
    if name in files then files[name] else []
  }

  /** rollover: archive the live file, start an empty one and look at the clock. */
  function Archived(c: Config, files: map<string, EventFile>, name: string): map<string, EventFile>
    requires c.Ok()
  {
    Rename(Rename(RolloverFiles(files, name, c.k), name, Backup(name, 1)), c.f, name)[c.f := []]
  }

  function Rolled(c: Config, st: State, now: int): State
    requires c.Ok()
  {
    var name := c.Name(st.clock);
    State(Archived(c, st.files, name),
          if now >= c.next(st.clock) then now else st.clock,
          st.dropped + multiset(Contents(st.files, Backup(name, Unsigned(c.k)))))
  }

  function Appended(c: Config, st: State, e: Event, now: int): State
    requires c.Ok()
  {
    var st := if e.stamp >= c.next(st.clock) then Rolled(c, st, now) else st;
    st.(files := st.files[c.f := Contents(st.files, c.f) + [e]])
  }

  /** The constructor: the live file is opened for appending. */
  function Opened(c: Config, files: map<string, EventFile>, now: int): State {
    State(files[c.f := Contents(files, c.f)], now, multiset{})
  }

  function Closed(c: Config, st: State, now: int): State
    requires c.Ok()
  {
    if c.rollOnClose then Rolled(c, st, now) else st
  }

  /** Close at one time, open again at another. */
  function Restarted(c: Config, st: State, closing: int, opening: int): State
    requires c.Ok()
  {
    var st := Closed(c, st, closing);
    Opened(c, st.files, opening).(dropped := st.dropped)
  }

  // ----- Whole runs -----

  datatype Op = Append(e: Event, now: int) | Restart(closing: int, opening: int)

  function Do(c: Config, st: State, op: Op): State
    requires c.Ok()
  {
    match op
    case Append(e, now) => Appended(c, st, e, now)
    case Restart(closing, opening) => Restarted(c, st, closing, opening)
  }

  function DoAll(c: Config, st: State, ops: seq<Op>): State
    requires c.Ok()
    decreases |ops|
  {
    if ops == [] then st else DoAll(c, Do(c, st, ops[0]), ops[1..])
  }

  // ----- Files named after the period of their events -----

  /** n is the archive of time t or one of its numbered backups. */
  ghost predicate Belongs(c: Config, n: string, t: int) {
    n == c.Name(t) || exists i: nat :: n == Backup(c.Name(t), i)
  }

  ghost predicate InPlace(c: Config, files: map<string, EventFile>, n: string) {
    n == c.f || forall e :: e in Contents(files, n) ==> Belongs(c, n, e.stamp)
  }

  /** Every event on disk is in the live file or in an archive of its own period. */
  ghost predicate Filed(c: Config, files: map<string, EventFile>) {
    forall n :: InPlace(c, files, n)
  }

  /** Every event of the live file is of the period it will be archived under. */
  ghost predicate LiveFiled(c: Config, st: State) {
    forall e :: e in Contents(st.files, c.f) ==> c.Name(e.stamp) == c.Name(st.clock)
  }

  ghost predicate Inv(c: Config, st: State) {
    c.f in st.files && Filed(c, st.files) && LiveFiled(c, st)
  }

  ghost predicate Dotless(c: Config) {
    forall t :: '.' !in c.date(t)
  }

  lemma Names(c: Config, t: int, i: nat, j: nat)
    requires Dotless(c)
    ensures c.Name(t) != c.f && Backup(c.Name(t), i) != c.f && Backup(c.Name(t), i) != c.Name(t)
    ensures Backup(c.Name(t), i) == Backup(c.Name(t), j) ==> i == j
  {
    ArchiveNames(c.f, c.date(t), c.date(t), i, j);
  }

  // ----- What a rollover does to the files -----

  ghost predicate IsBackup(n: string, name: string) {
    exists i: nat :: n == Backup(name, i)
  }

  /** Shifting backups leaves every file's events in a file of the same archive. */
  lemma {:induction false} ShiftSources(d: map<string, EventFile>, name: string, i: int, n: string, e: Event)
    requires e in Contents(ShiftFrom(d, name, i), n)
    ensures e in Contents(d, n) || exists j: nat :: e in Contents(d, Backup(name, j))
    ensures !IsBackup(n, name) ==> e in Contents(d, n)
    decreases i
  {
    if i >= 1 {
      var a, b := Backup(name, i), Backup(name, i + 1);
      var d' := Rename(d, a, b);
      assert IsBackup(a, name) && IsBackup(b, name);
      ShiftSources(d', name, i - 1, n, e);
      if e !in Contents(d', n) {
        var j: nat :| e in Contents(d', Backup(name, j));
        assert e in Contents(d, Backup(name, j)) || e in Contents(d, a);
      }
    }
  }

  lemma ShiftMarks(d: map<string, EventFile>, name: string, i: int, n: string, e: Event)
    requires e in Contents(ShiftFrom(d, name, i), n)
    ensures e in Contents(d, n) || (IsBackup(n, name) && exists j: nat :: e in Contents(d, Backup(name, j)))
  {
    ShiftSources(d, name, i, n, e);
  }

  /** Where an event found after a rollover was before. */
  lemma ArchivedSources(c: Config, files: map<string, EventFile>, t: int, n: string, e: Event)
    requires c.Ok() && Dotless(c) && n != c.f && e in Contents(Archived(c, files, c.Name(t)), n)
    ensures e in Contents(files, n)
            || (n == c.Name(t) && e in Contents(files, c.f))
            || (IsBackup(n, c.Name(t)) && (e in Contents(files, c.Name(t))
                                           || exists j: nat :: e in Contents(files, Backup(c.Name(t), j))))
  {
    var name := c.Name(t);
    Names(c, t, 1, 1);
    var d1 := RolloverFiles(files, name, c.k);
    var d2 := Rename(d1, name, Backup(name, 1));
    var d3 := Rename(d2, c.f, name);
    assert Contents(d3, n) == Contents(Archived(c, files, name), n);
    assert c.f in d2 ==> c.f in d1 && d2[c.f] == d1[c.f];
    var m := if n == name && c.f in d2 then c.f else if n == Backup(name, 1) && name in d1 then name else n;
    assert e in Contents(d1, m);
    var cut := Remove(files, Backup(name, Unsigned(c.k)));
    ShiftMarks(cut, name, c.k - 1, m, e);
    if e in Contents(cut, m) {
      assert e in Contents(files, m);
    } else {
      NotBackups(c, t);
      var j: nat :| e in Contents(cut, Backup(name, j));
      assert e in Contents(files, Backup(name, j));
    }
  }

  lemma NotBackups(c: Config, t: int)
    requires Dotless(c)
    ensures !IsBackup(c.f, c.Name(t)) && !IsBackup(c.Name(t), c.Name(t))
  {
    forall i: nat ensures c.f != Backup(c.Name(t), i) && c.Name(t) != Backup(c.Name(t), i) { Names(c, t, i, i); }
  }

  lemma SameArchive(c: Config, t: int, u: int, j: nat)
    requires Dotless(c)
    ensures Belongs(c, c.Name(t), u) <==> c.Name(t) == c.Name(u)
    ensures Belongs(c, Backup(c.Name(t), j), u) <==> c.Name(t) == c.Name(u)
  {
    ArchiveNames(c.f, c.date(t), c.date(u), j, 0);
    forall i: nat
      ensures c.Name(t) != Backup(c.Name(u), i)
      ensures Backup(c.Name(t), j) == Backup(c.Name(u), i) ==> c.Name(t) == c.Name(u)
      ensures Backup(c.Name(t), j) != c.Name(u)
    {
      ArchiveNames(c.f, c.date(u), c.date(t), i, j);
      ArchiveNames(c.f, c.date(t), c.date(u), j, i);
    }
  }

  /** A rollover keeps the files named after their periods and empties the live one. */
  lemma RolledKeeps(c: Config, st: State, now: int)
    requires c.Ok() && Dotless(c) && Inv(c, st)
    ensures Inv(c, Rolled(c, st, now)) && Contents(Rolled(c, st, now).files, c.f) == []
  {
    var t, files' := st.clock, Rolled(c, st, now).files;
    forall n ensures InPlace(c, files', n) {
      if n != c.f {
        forall e | e in Contents(files', n) ensures Belongs(c, n, e.stamp) {
          ArchivedSources(c, st.files, t, n, e);
          assert InPlace(c, st.files, n);
          if e !in Contents(st.files, n) && n != c.Name(t) {
            if e in Contents(st.files, c.Name(t)) {
              assert InPlace(c, st.files, c.Name(t));
              SameArchive(c, t, e.stamp, 0);
            } else {
              var j: nat :| e in Contents(st.files, Backup(c.Name(t), j));
              assert InPlace(c, st.files, Backup(c.Name(t), j));
              Names(c, t, j, j);
              SameArchive(c, t, e.stamp, j);
            }
          }
        }
      }
    }
  }

  /** Where each file goes in a rollover: an exact shift, in which only the last backup is lost. */
  lemma RollShift(c: Config, files: map<string, EventFile>, t: int, n: string)
    requires c.Ok() && c.k >= 1 && Dotless(c) && c.f in files
    ensures var name, files' := c.Name(t), Archived(c, files, c.Name(t));
            && (n == c.f ==> Contents(files', n) == [])
            && (n == name ==> Contents(files', n) == files[c.f])
            && (n == Backup(name, 1) ==> Contents(files', n) == Contents(files, name))
            && (forall j: nat | 2 <= j <= c.k && n == Backup(name, j) ::
                  Contents(files', n) == Contents(files, Backup(name, j - 1)))
            && (n != c.f && n != name && Apart(n, name, c.k) ==> Contents(files', n) == Contents(files, n))
  {
    var name := c.Name(t);
    NotBackups(c, t);
    Names(c, t, 1, 1);
    var d1 := RolloverFiles(files, name, c.k);
    assert Same(d1, c.f, files, c.f) && Same(d1, name, files, name) by {
      assert !IsBackup(c.f, name) && !IsBackup(name, name);
      RolloverFilesKeeps(files, name, c.k, c.f);
      RolloverFilesKeeps(files, name, c.k, name);
    }
    assert Backup(name, 1) !in d1 by { RolloverFilesMoves(files, name, c.k, 1); }
    forall j: nat | 2 <= j <= c.k && n == Backup(name, j)
      ensures Contents(Archived(c, files, name), n) == Contents(files, Backup(name, j - 1))
    {
      RolloverFilesMoves(files, name, c.k, j);
      Names(c, t, j, 1);
    }
    if n != c.f && n != name && Apart(n, name, c.k) {
      RolloverFilesKeeps(files, name, c.k, n);
    }
  }

  /** The live file outlives the shift, and neither rename after it has an existing target. */
  lemma RenameTargets(c: Config, files: map<string, EventFile>, t: int)
    requires c.Ok() && Dotless(c) && c.f in files
    ensures var name, d := c.Name(t), RolloverFiles(files, c.Name(t), c.k);
            && c.f in d && c.f != name && c.f != Backup(name, 1) && name !in Rename(d, name, Backup(name, 1))
            && (c.k >= 1 ==> Backup(name, 1) !in d)
  {
    NotBackups(c, t);
    Names(c, t, 1, 1);
    assert !IsBackup(c.f, c.Name(t));
    RolloverFilesKeeps(files, c.Name(t), c.k, c.f);
    if c.k >= 1 { RolloverFilesMoves(files, c.Name(t), c.k, 1); }
  }

  // ----- Conservation -----

  /** A rollover loses the events of the deleted backup and no other. */
  lemma RolledConserves(c: Config, st: State, now: int)
    requires c.Ok() && c.k >= 1 && Dotless(c) && c.f in st.files
    ensures var r := Rolled(c, st, now); Everything(r.files) + r.dropped == Everything(st.files) + st.dropped
  {
    var name := c.Name(st.clock);
    RenameTargets(c, st.files, st.clock);
    EverythingRolled(st.files, name, c.k);
    var d1 := RolloverFiles(st.files, name, c.k);
    EverythingRenamed(d1, name, Backup(name, 1));
    var d2 := Rename(d1, name, Backup(name, 1));
    EverythingRenamed(d2, c.f, name);
    EverythingWith(Rename(d2, c.f, name), c.f, []);
  }

  lemma WrittenConserves(c: Config, st: State, e: Event)
    requires c.f in st.files
    ensures Everything(st.files[c.f := Contents(st.files, c.f) + [e]]) == Everything(st.files) + multiset{e}
  {
    var rest, live := st.files - {c.f}, st.files[c.f];
    EverythingBut(st.files, c.f);
    EverythingWith(rest, c.f, live + [e]);
    assert rest[c.f := live + [e]] == st.files[c.f := live + [e]];
  }

  /** The events a run appends. */
  function AppendedBy(ops: seq<Op>): multiset<Event> {
    if ops == [] then multiset{}
    else (if ops[0].Append? then multiset{ops[0].e} else multiset{}) + AppendedBy(ops[1..])
  }

  lemma DoConserves(c: Config, st: State, op: Op)
    requires c.Ok() && c.k >= 1 && Dotless(c) && c.f in st.files
    ensures var r := Do(c, st, op);
            && c.f in r.files
            && Everything(r.files) + r.dropped
               == Everything(st.files) + st.dropped + (if op.Append? then multiset{op.e} else multiset{})
  {
    match op
    case Append(e, now) =>
      var st1 := if e.stamp >= c.next(st.clock) then Rolled(c, st, now) else st;
      if e.stamp >= c.next(st.clock) { RolledConserves(c, st, now); }
      WrittenConserves(c, st1, e);
    case Restart(closing, opening) =>
      var st1 := Closed(c, st, closing);
      if c.rollOnClose { RolledConserves(c, st, closing); }
      assert Opened(c, st1.files, opening).files == st1.files;
  }

  /** In every run the events on disk and those of deleted numbered backups are together exactly those there
      were and those appended, each as often as it was appended. */
  lemma {:induction false} RunConserves(c: Config, st: State, ops: seq<Op>)
    requires c.Ok() && c.k >= 1 && Dotless(c) && c.f in st.files
    ensures var r := DoAll(c, st, ops);
            Everything(r.files) + r.dropped == Everything(st.files) + st.dropped + AppendedBy(ops)
    decreases |ops|
  {
    if ops != [] {
      DoConserves(c, st, ops[0]);
      RunConserves(c, Do(c, st, ops[0]), ops[1..]);
    }
  }

  // ----- The calendar -----

  /** The settings use the default pattern and the schedule s. */
  ghost predicate Follows(c: Config, ms: Months, s: Schedule, offset: int) {
    && c.Ok() && IsCalendar(ms) && offset % 60 == 0
    && (forall t :: c.date(t) == DefaultDate(ms, s, t, offset))
    && (forall t :: c.next(t) == NextRollover(ms, s, t, offset))
  }

  lemma FollowsIsDotless(c: Config, ms: Months, s: Schedule, offset: int)
    requires Follows(c, ms, s, offset)
    ensures Dotless(c)
  {
    forall t ensures '.' !in c.date(t) { DefaultDateHasNoDot(ms, s, t, offset); }
  }

  /** A rollover is due exactly for events of later periods, unless the schedule skips the next one. */
  lemma DueIff(ms: Months, s: Schedule, t: int, u: int, offset: int)
    requires IsCalendar(ms) && offset % 60 == 0 && PeriodOf(ms, s, t, offset) <= PeriodOf(ms, s, u, offset)
    ensures (u >= NextRollover(ms, s, t, offset) <==> PeriodOf(ms, s, u, offset) > PeriodOf(ms, s, t, offset))
            <==> !(Skips(ms, s, t, offset) && PeriodOf(ms, s, u, offset) == PeriodOf(ms, s, t, offset) + 1)
  {
    var p := PeriodOf(ms, s, t, offset);
    NextIsPeriodStart(ms, s, t, offset);
    PeriodReached(ms, s, u, p + 1, offset);
    PeriodReached(ms, s, u, p + 2, offset);
  }

  /** The live file becomes the archive, whatever the number of backups. */
  lemma ArchivesLive(c: Config, files: map<string, EventFile>, t: int)
    requires c.Ok() && Dotless(c) && c.f in files
    ensures Contents(Archived(c, files, c.Name(t)), c.Name(t)) == files[c.f] && c.Name(t) != c.f
  {
    NotBackups(c, t);
    Names(c, t, 1, 1);
    assert !IsBackup(c.f, c.Name(t));
    RolloverFilesKeeps(files, c.Name(t), c.k, c.f);
  }

  /** Times that get the same archive: of one period, and for weeks also of one year. */
  ghost predicate SamePlace(ms: Months, s: Schedule, offset: int, t: int, u: int)
    requires IsCalendar(ms)
  {
    && PeriodOf(ms, s, t, offset) == PeriodOf(ms, s, u, offset)
    && (s == Weekly ==> LocalTime(ms, t, offset).year == LocalTime(ms, u, offset).year)
  }

  lemma SameName(c: Config, ms: Months, s: Schedule, offset: int, t: int, u: int)
    requires Follows(c, ms, s, offset)
    ensures c.Name(t) == c.Name(u) <==> SamePlace(ms, s, offset, t, u)
  {
    if s == Weekly { WeekName(ms, t, u, offset); } else { DefaultDateNamesPeriod(ms, s, t, u, offset); }
    FollowsIsDotless(c, ms, s, offset);
    ArchiveNames(c.f, c.date(t), c.date(u), 0, 0);
  }

  /** A live file with an event of another place is archived where that event does not belong. */
  lemma RolloverMisfiles(c: Config, st: State, e: Event, now: int)
    requires c.Ok() && Dotless(c) && c.f in st.files && !LiveFiled(c, st) && e.stamp >= c.next(st.clock)
    ensures !Filed(c, Appended(c, st, e, now).files)
  {
    var e0 :| e0 in Contents(st.files, c.f) && c.Name(e0.stamp) != c.Name(st.clock);
    var name, files' := c.Name(st.clock), Appended(c, st, e, now).files;
    ArchivesLive(c, st.files, st.clock);
    SameArchive(c, st.clock, e0.stamp, 0);
    assert e0 in Contents(files', name);
    assert !InPlace(c, files', name);
  }

  // ----- Restarts -----

  /** A restart leaves the live file to be archived where its events belong if it was archived on closing, is
      empty, or the clock is still in its place; otherwise it does not. */
  lemma RestartKeepsIff(c: Config, ms: Months, s: Schedule, offset: int, st: State, closing: int, opening: int)
    requires Follows(c, ms, s, offset) && Inv(c, st)
    ensures Inv(c, Restarted(c, st, closing, opening))
            <==> c.rollOnClose || Contents(st.files, c.f) == [] || SamePlace(ms, s, offset, opening, st.clock)
  {
    FollowsIsDotless(c, ms, s, offset);
    var st1, st2 := Closed(c, st, closing), Restarted(c, st, closing, opening);
    if c.rollOnClose { RolledKeeps(c, st, closing); }
    assert forall n :: Contents(st1.files, n) == Contents(st2.files, n);
    forall n ensures InPlace(c, st2.files, n) { assert InPlace(c, st1.files, n); }
    SameName(c, ms, s, offset, opening, st.clock);
    if !c.rollOnClose && Contents(st.files, c.f) != [] {
      var e := Contents(st.files, c.f)[0];
      assert e in Contents(st.files, c.f) && c.Name(e.stamp) == c.Name(st.clock);
    }
  }

  /** When it does not, the next rollover archives events under a period they are not of. */
  lemma RestartMisfiles(c: Config, ms: Months, s: Schedule, offset: int, st: State,
                        closing: int, opening: int, e: Event, now: int)
    requires Follows(c, ms, s, offset) && Inv(c, st)
    requires !Inv(c, Restarted(c, st, closing, opening)) && e.stamp >= c.next(opening)
    ensures !Filed(c, Appended(c, Restarted(c, st, closing, opening), e, now).files)
  {
    FollowsIsDotless(c, ms, s, offset);
    RestartKeepsIff(c, ms, s, offset, st, closing, opening);
    var st2 := Restarted(c, st, closing, opening);
    forall n ensures InPlace(c, st2.files, n) { assert InPlace(c, st.files, n); }
    RolloverMisfiles(c, st2, e, now);
  }

  // ----- Appends -----

  /** The schedule does not skip the event's period; and a week's archive is of the event's year. */
  ghost predicate AppendFits(ms: Months, s: Schedule, offset: int, clock: int, e: Event, now: int)
    requires IsCalendar(ms)
  {
    var p, q := PeriodOf(ms, s, clock, offset), PeriodOf(ms, s, e.stamp, offset);
    && !(Skips(ms, s, clock, offset) && q == p + 1)
    && (s == Weekly ==>
          LocalTime(ms, e.stamp, offset).year == LocalTime(ms, if q > p then now else clock, offset).year)
  }

  /** An append in order, with the clock in the event's period, leaves the live file to be archived where its
      events belong exactly when it fits. */
  lemma AppendedKeepsIff(c: Config, ms: Months, s: Schedule, offset: int, st: State, e: Event, now: int)
    requires Follows(c, ms, s, offset) && Inv(c, st)
    requires PeriodOf(ms, s, st.clock, offset) <= PeriodOf(ms, s, e.stamp, offset) == PeriodOf(ms, s, now, offset)
    ensures Inv(c, Appended(c, st, e, now)) <==> AppendFits(ms, s, offset, st.clock, e, now)
    ensures var t := Appended(c, st, e, now).clock; t == st.clock || t == now
  {
    FollowsIsDotless(c, ms, s, offset);
    DueFits(ms, s, offset, st.clock, e, now);
    SameName(c, ms, s, offset, e.stamp, if e.stamp >= c.next(st.clock) then now else st.clock);
    AppendedInv(c, st, e, now);
  }

  /** Event and clock are due together, and the reading the archive is named after is of the event's place
      exactly when the append fits. */
  lemma DueFits(ms: Months, s: Schedule, offset: int, clock: int, e: Event, now: int)
    requires IsCalendar(ms) && offset % 60 == 0
    requires PeriodOf(ms, s, clock, offset) <= PeriodOf(ms, s, e.stamp, offset) == PeriodOf(ms, s, now, offset)
    ensures var due := e.stamp >= NextRollover(ms, s, clock, offset);
            && (due <==> now >= NextRollover(ms, s, clock, offset))
            && (SamePlace(ms, s, offset, e.stamp, if due then now else clock)
                <==> AppendFits(ms, s, offset, clock, e, now))
  {
    DueIff(ms, s, clock, e.stamp, offset);
    DueIff(ms, s, clock, now, offset);
  }

  /** The event joins the live file, and nothing else changes but by a rollover. */
  lemma AppendedInv(c: Config, st: State, e: Event, now: int)
    requires c.Ok() && Dotless(c) && Inv(c, st)
    ensures var st1 := if e.stamp >= c.next(st.clock) then Rolled(c, st, now) else st;
            Inv(c, Appended(c, st, e, now)) <==> c.Name(e.stamp) == c.Name(st1.clock)
  {
    if e.stamp >= c.next(st.clock) { RolledKeeps(c, st, now); }
    var st1 := if e.stamp >= c.next(st.clock) then Rolled(c, st, now) else st;
    var st2 := Appended(c, st, e, now);
    forall n ensures InPlace(c, st2.files, n) {
      assert InPlace(c, st1.files, n);
      assert n != c.f ==> Contents(st2.files, n) == Contents(st1.files, n);
    }
    assert e in Contents(st2.files, c.f);
  }

  /** When it does not fit, the next rollover archives the event under a place that is not its own. */
  lemma AppendMisfiles(c: Config, ms: Months, s: Schedule, offset: int, st: State, e: Event, now: int,
                       later: Event, after: int)
    requires Follows(c, ms, s, offset) && Inv(c, st)
    requires !Inv(c, Appended(c, st, e, now)) && later.stamp >= c.next(Appended(c, st, e, now).clock)
    ensures !Filed(c, Appended(c, Appended(c, st, e, now), later, after).files)
  {
    FollowsIsDotless(c, ms, s, offset);
    AppendedInv(c, st, e, now);
    var st2 := Appended(c, st, e, now);
    assert e in Contents(st2.files, c.f);
    RolloverMisfiles(c, st2, later, after);
  }

  // ----- Whole runs keep the files in order -----

  /** Periods never go back, and the clock is in the period of the event. */
  ghost predicate Ordered(ms: Months, s: Schedule, offset: int, ops: seq<Op>, last: int)
    requires IsCalendar(ms)
    decreases |ops|
  {
    ops == [] ||
    match ops[0]
    case Append(e, now) =>
      && PeriodOf(ms, s, last, offset) <= PeriodOf(ms, s, e.stamp, offset) == PeriodOf(ms, s, now, offset)
      && Ordered(ms, s, offset, ops[1..], now)
    case Restart(closing, opening) =>
      && PeriodOf(ms, s, last, offset) <= PeriodOf(ms, s, opening, offset)
      && Ordered(ms, s, offset, ops[1..], opening)
  }

  ghost predicate Fits(c: Config, ms: Months, s: Schedule, offset: int, st: State, op: Op)
    requires IsCalendar(ms)
  {
    match op
    case Append(e, now) => AppendFits(ms, s, offset, st.clock, e, now)
    case Restart(_, opening) =>
      c.rollOnClose || Contents(st.files, c.f) == [] || SamePlace(ms, s, offset, opening, st.clock)
  }

  ghost predicate AllFit(c: Config, ms: Months, s: Schedule, offset: int, st: State, ops: seq<Op>)
    requires c.Ok() && IsCalendar(ms)
    decreases |ops|
  {
    ops == [] || (Fits(c, ms, s, offset, st, ops[0]) && AllFit(c, ms, s, offset, Do(c, st, ops[0]), ops[1..]))
  }

  /** Before and after every operation every event is in the live file, to be archived where it belongs, or in
      an archive or numbered backup of its own. */
  ghost predicate AlwaysFiled(c: Config, st: State, ops: seq<Op>)
    requires c.Ok()
    decreases |ops|
  {
    Inv(c, st) && (ops == [] || AlwaysFiled(c, Do(c, st, ops[0]), ops[1..]))
  }

  lemma DoKeepsIff(c: Config, ms: Months, s: Schedule, offset: int, st: State, ops: seq<Op>, last: int)
    requires Follows(c, ms, s, offset) && Inv(c, st) && ops != [] && Ordered(ms, s, offset, ops, last)
    requires PeriodOf(ms, s, st.clock, offset) <= PeriodOf(ms, s, last, offset)
    ensures Inv(c, Do(c, st, ops[0])) <==> Fits(c, ms, s, offset, st, ops[0])
    ensures var now := if ops[0].Append? then ops[0].now else ops[0].opening;
            && Ordered(ms, s, offset, ops[1..], now)
            && PeriodOf(ms, s, Do(c, st, ops[0]).clock, offset) <= PeriodOf(ms, s, now, offset)
  {
    match ops[0]
    case Append(e, now) => AppendedKeepsIff(c, ms, s, offset, st, e, now);
    case Restart(closing, opening) => RestartKeepsIff(c, ms, s, offset, st, closing, opening);
  }

  /** In every ordered run events are filed throughout exactly when every append and restart fits. */
  lemma {:induction false} RunFiledIff(c: Config, ms: Months, s: Schedule, offset: int,
                                       st: State, ops: seq<Op>, last: int)
    requires Follows(c, ms, s, offset) && Inv(c, st) && Ordered(ms, s, offset, ops, last)
    requires PeriodOf(ms, s, st.clock, offset) <= PeriodOf(ms, s, last, offset)
    ensures AlwaysFiled(c, st, ops) <==> AllFit(c, ms, s, offset, st, ops)
    decreases |ops|
  {
    if ops != [] {
      DoKeepsIff(c, ms, s, offset, st, ops, last);
      if Fits(c, ms, s, offset, st, ops[0]) {
        RunFiledIff(c, ms, s, offset, Do(c, st, ops[0]), ops[1..], if ops[0].Append? then ops[0].now else ops[0].opening);
      }
    }
  }

  /** Without weekly rollover, no reading since the epoch makes the schedule skip. */
  lemma NoSkip(ms: Months, s: Schedule, t: int, offset: int)
    requires IsCalendar(ms) && s != Weekly && 0 <= t
    ensures !Skips(ms, s, t, offset)
  {
  }

  predicate SinceEpoch(ops: seq<Op>) {
    forall i :: 0 <= i < |ops| ==> 0 <= (if ops[i].Append? then ops[i].now else ops[i].opening)
  }

  lemma {:induction false} SinceEpochFits(c: Config, ms: Months, s: Schedule, offset: int, st: State, ops: seq<Op>)
    requires c.Ok() && IsCalendar(ms) && s != Weekly && c.rollOnClose && 0 <= st.clock && SinceEpoch(ops)
    ensures AllFit(c, ms, s, offset, st, ops)
    decreases |ops|
  {
    if ops != [] {
      NoSkip(ms, s, st.clock, offset);
      assert 0 <= (if ops[0].Append? then ops[0].now else ops[0].opening);
      assert SinceEpoch(ops[1..]) by {
        forall i | 0 <= i < |ops[1..]|
          ensures 0 <= (if ops[1..][i].Append? then ops[1..][i].now else ops[1..][i].opening)
        {
          assert ops[1..][i] == ops[i + 1];
        }
      }
      SinceEpochFits(c, ms, s, offset, Do(c, st, ops[0]), ops[1..]);
    }
  }

  lemma {:induction false} FiledAtEnd(c: Config, st: State, ops: seq<Op>)
    requires c.Ok() && AlwaysFiled(c, st, ops)
    ensures Inv(c, DoAll(c, st, ops))
    decreases |ops|
  {
    if ops != [] { FiledAtEnd(c, Do(c, st, ops[0]), ops[1..]); }
  }

  /** From an empty directory, with the default setting of rolling on close and all readings since the epoch,
      every ordered run of every schedule but the weekly one is filed throughout. */
  lemma {:induction false} RunFiledSinceEpoch(c: Config, ms: Months, s: Schedule, offset: int, start: int, ops: seq<Op>)
    requires Follows(c, ms, s, offset) && s != Weekly && c.rollOnClose && 0 <= start && SinceEpoch(ops)
    requires Ordered(ms, s, offset, ops, start)
    ensures var st := Opened(c, map[], start); AlwaysFiled(c, st, ops) && Filed(c, DoAll(c, st, ops).files)
  {
    var st := Opened(c, map[], start);
    assert Inv(c, st);
    SinceEpochFits(c, ms, s, offset, st, ops);
    RunFiledIff(c, ms, s, offset, st, ops, start);
    FiledAtEnd(c, st, ops);
  }

  /** Weekly files opened on a Sunday take in the following week and are archived under one name. */
  lemma WeeklyMixesWeeks(c: Config, ms: Months, offset: int, st: State, e1: Event, e2: Event,
                         now1: int, now2: int)
    requires Follows(c, ms, Weekly, offset) && c.f in st.files && IsSunday(ms, st.clock, offset)
    requires PeriodOf(ms, Weekly, e1.stamp, offset) == PeriodOf(ms, Weekly, st.clock, offset) + 1
    requires PeriodOf(ms, Weekly, e2.stamp, offset) > PeriodOf(ms, Weekly, st.clock, offset) + 1
    ensures Contents(Appended(c, Appended(c, st, e1, now1), e2, now2).files, c.Name(st.clock)) == st.files[c.f] + [e1]
  {
    FollowsIsDotless(c, ms, Weekly, offset);
    DueIff(ms, Weekly, st.clock, e1.stamp, offset);
    DueIff(ms, Weekly, st.clock, e2.stamp, offset);
    var st1 := Appended(c, st, e1, now1);
    ArchivesLive(c, st1.files, st.clock);
    assert st1.files[c.f] == st.files[c.f] + [e1];
  }

  // ----- The appender as it updates its fields -----

  class DailyRollingFileAppender {
    const fs: FileSystem<EventFile>
    const settings: Config
    var scheduledFilename: string
    var nextRolloverTime: int
    ghost var clock: int
    ghost var dropped: multiset<Event>

    ghost function View(): State
      reads this, fs
    {
      State(fs.disk, clock, dropped)
    }

    ghost predicate Valid()
      reads this, fs
    {
      && settings.Ok() && settings.f in fs.disk
      && scheduledFilename == settings.Name(clock) && nextRolloverTime == settings.next(clock)
    }

    constructor (fs: FileSystem<EventFile>, settings: Config, now: int)
      requires settings.Ok()
      modifies fs
      ensures Valid() && this.fs == fs && this.settings == settings
      ensures View() == Opened(settings, old(fs.disk), now)
    {
      this.fs, this.settings := fs, settings;
      scheduledFilename, nextRolloverTime := settings.Name(now), settings.next(now);
      clock, dropped := now, multiset{};
      new;
      fs.disk := fs.disk[settings.f := if settings.f in fs.disk then fs.disk[settings.f] else []];
    }

    /** With at least one backup, and no dot in the date, no rename destroys a file. */
    method Rollover(now: int)
      requires Valid()
      modifies this, fs
      ensures Valid() && View() == Rolled(settings, old(View()), now)
      ensures Dotless(settings) && settings.k >= 1 ==> fs.clobbered == old(fs.clobbered)
    {
      if Dotless(settings) { RenameTargets(settings, fs.disk, clock); }
      dropped := dropped + multiset(Contents(fs.disk, Backup(scheduledFilename, Unsigned(settings.k))));
      fs.ShiftBackups(scheduledFilename, settings.k);
      fs.FileRename(scheduledFilename, Backup(scheduledFilename, 1));
      fs.FileRename(settings.f, scheduledFilename);
      fs.disk := fs.disk[settings.f := []];
      if now >= nextRolloverTime {
        scheduledFilename, nextRolloverTime := settings.Name(now), settings.next(now);
        clock := now;
      }
    }

    method Append(e: Event, now: int)
      requires Valid()
      modifies this, fs
      ensures Valid() && View() == Appended(settings, old(View()), e, now)
      ensures Dotless(settings) && settings.k >= 1 ==> fs.clobbered == old(fs.clobbered)
    {
      if e.stamp >= nextRolloverTime {
        Rollover(now);
      }
      fs.disk := fs.disk[settings.f := fs.disk[settings.f] + [e]];
    }

    method Close(now: int)
      requires Valid()
      modifies this, fs
      ensures Valid() && View() == Closed(settings, old(View()), now)
      ensures Dotless(settings) && settings.k >= 1 ==> fs.clobbered == old(fs.clobbered)
    {
      if settings.rollOnClose {
        Rollover(now);
      }
    }
  }
}
