/**
 RollingFileAppender shared by several processes that take the lock file around
 each append.  Names lead to inodes and every process keeps its own open handle,
 which a rollover by another process leaves pointing at a renamed file.
 */
module SharedRollingFile {
  import opened Files
  import opened RollingFile

  type Pid = nat

  /** dir: names to inodes; files: contents of the inodes; open: each process's handle. */
  datatype World = World(dir: map<string, nat>, files: seq<Content>, open: map<Pid, nat>)

  predicate Shared(c: Config) {
    c.Ok() && c.lock && c.max >= 1
  }

  /** The file is opened by name in append mode, and created if it is missing. */
  function OpenByName(c: Config, w: World, p: Pid): World {
    if c.f in w.dir then w.(open := w.open[p := w.dir[c.f]])
    else World(w.dir[c.f := |w.files|], w.files + [[]], w.open[p := |w.files|])
  }

  /** rollover: another process may have been faster, so the size is checked again by name. */
  function RollShared(c: Config, w: World, p: Pid): World
    requires Shared(c)
  {
    if c.f !in w.dir || w.dir[c.f] >= |w.files| || Size(w.files[w.dir[c.f]]) < c.max then OpenByName(c, w, p)
    else
      World(Rename(RolloverFiles(w.dir, c.f, c.k), c.f, Backup(c.f, 1))[c.f := |w.files|],
            w.files + [[]], w.open[p := |w.files|])
  }

  function HandleSize(w: World, p: Pid): nat {
    if p in w.open && w.open[p] < |w.files| then Size(w.files[w.open[p]]) else 0
  }

  function RollIfOver(c: Config, w: World, p: Pid): World
    requires Shared(c)
  {
    if HandleSize(w, p) > c.max then RollShared(c, w, p) else w
  }

  function WriteShared(w: World, p: Pid, rec: Record): World {
    if p in w.open && w.open[p] < |w.files| then
      w.(files := w.files[w.open[p] := w.files[w.open[p]] + [rec]])
    else w
  }

  function AppendShared(c: Config, w: World, p: Pid, rec: Record): World
    requires Shared(c)
  {
    RollIfOver(c, WriteShared(RollIfOver(c, w, p), p, rec), p)
  }

  // ----- The invariant -----

  predicate Linked(w: World) {
    && (forall n :: n in w.dir ==> w.dir[n] < |w.files|)
    && (forall n, m :: n in w.dir && m in w.dir && w.dir[n] == w.dir[m] ==> n == m)
    && (forall p :: p in w.open ==> w.open[p] < |w.files|)
  }

  /** p's handle no longer leads to the live file. */
  predicate Stale(c: Config, w: World, p: Pid) {
    p in w.open && (c.f !in w.dir || w.open[p] != w.dir[c.f])
  }

  /** A handle another process made stale leads to a file over the limit, so its owner will notice. */
  ghost predicate Inv(c: Config, w: World) {
    && Linked(w)
    && (w.open != map[] ==> c.f in w.dir)
    && (forall p :: Stale(c, w, p) ==> HandleSize(w, p) > c.max)
  }

  /** The directory as one sees it by name. */
  ghost function View(w: World): Disk
    requires Linked(w)
  {
    map n | n in w.dir :: w.files[w.dir[n]]
  }

  function LiveSize(c: Config, w: World): nat
    requires Linked(w)
  {
    if c.f in w.dir then Size(w.files[w.dir[c.f]]) else 0
  }

  // ----- Renaming by name and by inode agree -----

  ghost predicate Names(dir: map<string, nat>, files: seq<Content>, d: Disk) {
    dir.Keys == d.Keys && forall n :: n in dir ==> dir[n] < |files| && d[n] == files[dir[n]]
  }

  predicate Injective(dir: map<string, nat>) {
    forall n, m :: n in dir && m in dir && dir[n] == dir[m] ==> n == m
  }

  lemma NamesView(w: World, d: Disk)
    requires Linked(w) && Names(w.dir, w.files, d)
    ensures View(w) == d
  {
  }

  lemma RenameAgrees(dir: map<string, nat>, files: seq<Content>, d: Disk, a: string, b: string)
    requires Names(dir, files, d) && Injective(dir)
    ensures Names(Rename(dir, a, b), files, Rename(d, a, b)) && Injective(Rename(dir, a, b))
  {
  }

  lemma {:induction false} ShiftAgrees(dir: map<string, nat>, files: seq<Content>, d: Disk, f: string, i: int)
    requires Names(dir, files, d) && Injective(dir)
    ensures Names(ShiftFrom(dir, f, i), files, ShiftFrom(d, f, i)) && Injective(ShiftFrom(dir, f, i))
    decreases i
  {
    if i >= 1 {
      var a, b := Backup(f, i), Backup(f, i + 1);
      RenameAgrees(dir, files, d, a, b);
      ShiftAgrees(Rename(dir, a, b), files, Rename(d, a, b), f, i - 1);
    }
  }

  lemma CreateAgrees(dir: map<string, nat>, files: seq<Content>, d: Disk, f: string)
    requires Names(dir, files, d) && Injective(dir)
    ensures Names(dir[f := |files|], files + [[]], d[f := []]) && Injective(dir[f := |files|])
  {
  }

  /** The world seen through p's handle and the directory as one process would see it. */
  function Single(c: Config, d: Disk): State {
    State(d, Size(Get(d, c.f)), 0)
  }

  /** The directory after a rollover, by inode. */
  function RolledDir(c: Config, dir: map<string, nat>, inode: nat): map<string, nat>
    requires c.Ok()
  {
    Rename(RolloverFiles(dir, c.f, c.k), c.f, Backup(c.f, 1))[c.f := inode]
  }

  lemma RolledDirNames(c: Config, dir: map<string, nat>, files: seq<Content>, d: Disk)
    requires Shared(c) && Names(dir, files, d) && Injective(dir) && c.f in dir && Size(d[c.f]) >= c.max
    ensures Names(RolledDir(c, dir, |files|), files + [[]], Rolled(c, Single(c, d)).disk)
    ensures Injective(RolledDir(c, dir, |files|))
  {
    var last := Backup(c.f, c.k);
    ShiftAgrees(Remove(dir, last), files, Remove(d, last), c.f, c.k - 1);
    var dir1, d1 := RolloverFiles(dir, c.f, c.k), RolloverFiles(d, c.f, c.k);
    RenameAgrees(dir1, files, d1, c.f, Backup(c.f, 1));
    CreateAgrees(Rename(dir1, c.f, Backup(c.f, 1)), files, Rename(d1, c.f, Backup(c.f, 1)), c.f);
  }

  lemma RollSharedEffect(c: Config, w: World, p: Pid)
    requires Shared(c) && Linked(w) && c.f in w.dir && LiveSize(c, w) >= c.max
    ensures var r := RollShared(c, w, p);
            && Linked(r) && c.f in r.dir && r.dir[c.f] == |w.files|
            && r.files == w.files + [[]] && r.open == w.open[p := |w.files|]
            && View(r) == Rolled(c, Single(c, View(w))).disk
  {
    RolledDirNames(c, w.dir, w.files, View(w));
    var r := RollShared(c, w, p);
    assert r.dir == RolledDir(c, w.dir, |w.files|);
    NamesView(r, Rolled(c, Single(c, View(w))).disk);
  }

  /** Rolling over a file that is over the limit leaves no stale handle unnoticed. */
  lemma RollKeepsInv(c: Config, w: World, p: Pid)
    requires Shared(c) && Inv(c, w) && p in w.open && LiveSize(c, w) > c.max
    ensures var r := RollShared(c, w, p); Inv(c, r) && p in r.open && !Stale(c, r, p)
  {
    RollSharedEffect(c, w, p);
    var r := RollShared(c, w, p);
    forall q | Stale(c, r, q) ensures HandleSize(r, q) > c.max {
      assert q != p && r.open[q] == w.open[q] && r.files[w.open[q]] == w.files[w.open[q]];
      if w.open[q] != w.dir[c.f] { assert Stale(c, w, q); }
    }
  }

  /** The size check of a process whose handle leads to the live file. */
  lemma CurrentRoll(c: Config, w: World, p: Pid)
    requires Shared(c) && Inv(c, w) && p in w.open && !Stale(c, w, p)
    ensures var r := RollIfOver(c, w, p);
            && Inv(c, r) && p in r.open && !Stale(c, r, p)
            && View(r) == RollIfNeeded(c, Single(c, View(w))).disk
  {
    if HandleSize(w, p) > c.max {
      RollSharedEffect(c, w, p);
      RollKeepsInv(c, w, p);
    }
  }

  /** The check goes wrong when the handle is stale and the new live file is at exactly the limit. */
  predicate Risky(c: Config, w: World, p: Pid)
    requires Linked(w)
  {
    Stale(c, w, p) && LiveSize(c, w) == c.max
  }

  lemma ReopenKeepsInv(c: Config, w: World, p: Pid)
    requires Inv(c, w) && c.f in w.dir
    ensures var r := OpenByName(c, w, p); Inv(c, r) && p in r.open && !Stale(c, r, p) && View(r) == View(w)
  {
    var r := OpenByName(c, w, p);
    forall q | Stale(c, r, q) ensures HandleSize(r, q) > c.max {
      assert Stale(c, w, q);
    }
  }

  lemma FirstRoll(c: Config, w: World, p: Pid)
    requires Shared(c) && Inv(c, w) && p in w.open && !Risky(c, w, p)
    ensures var r := RollIfOver(c, w, p);
            && Inv(c, r) && p in r.open && !Stale(c, r, p)
            && View(r) == RollIfNeeded(c, Single(c, View(w))).disk
  {
    if Stale(c, w, p) {
      if LiveSize(c, w) > c.max {
        RollSharedEffect(c, w, p);
        RollKeepsInv(c, w, p);
      } else {
        ReopenKeepsInv(c, w, p);
      }
    } else {
      CurrentRoll(c, w, p);
    }
  }

  lemma WriteView(c: Config, w: World, p: Pid, rec: Record)
    requires Linked(w) && p in w.open && c.f in w.dir && w.open[p] == w.dir[c.f]
    ensures var r := WriteShared(w, p, rec);
            && Linked(r) && r.dir == w.dir && r.open == w.open
            && View(r) == View(w)[c.f := View(w)[c.f] + [rec]]
  {
    var r := WriteShared(w, p, rec);
    assert View(r) == View(w)[c.f := View(w)[c.f] + [rec]];
  }

  lemma WriteSharedEffect(c: Config, w: World, p: Pid, rec: Record)
    requires Inv(c, w) && p in w.open && !Stale(c, w, p)
    ensures var r := WriteShared(w, p, rec);
            && Inv(c, r) && p in r.open && !Stale(c, r, p)
            && View(r) == View(w)[c.f := View(w)[c.f] + [rec]]
  {
    WriteView(c, w, p, rec);
    var r := WriteShared(w, p, rec);
    forall q | Stale(c, r, q) ensures HandleSize(r, q) > c.max {
      assert Stale(c, w, q);
    }
  }

  /** An append by any process does to the directory exactly what a lone process would do. */
  lemma AppendRefines(c: Config, w: World, p: Pid, rec: Record)
    requires Shared(c) && Inv(c, w) && p in w.open && !Risky(c, w, p)
    ensures var r := AppendShared(c, w, p, rec);
            && Inv(c, r) && p in r.open && !Stale(c, r, p)
            && View(r) == Appended(c, Single(c, View(w)), rec).disk
            && LiveSize(c, r) <= c.max
  {
    FirstRoll(c, w, p);
    var w1 := RollIfOver(c, w, p);
    WriteSharedEffect(c, w1, p, rec);
    var w2 := WriteShared(w1, p, rec);
    CurrentRoll(c, w2, p);
    AppendRetains(c, Single(c, View(w)), rec);
  }

  lemma RiskyWorlds(c: Config, w: World, p: Pid, rec: Record)
    requires Shared(c) && Inv(c, w) && Risky(c, w, p)
    ensures var r := AppendShared(c, w, p, rec);
            && Linked(r)
            && (if |rec| > c.max then Get(View(r), Backup(c.f, 1)) == [rec] else Get(View(r), c.f) == [rec])
  {
    RollSharedEffect(c, w, p);
    var w1 := RollShared(c, w, p);
    assert View(w1)[c.f] == [];
    WriteView(c, w1, p, rec);
    var w2 := WriteShared(w1, p, rec);
    SizeGrows([], rec);
    assert View(w2)[c.f] == [] + [rec] == [rec];
    if |rec| > c.max {
      RollSharedEffect(c, w2, p);
      RolloverIsShift(c, Single(c, View(w2)));
    }
  }

  lemma SizeGrows(c: Content, rec: Record)
    ensures Size(c + [rec]) == Size(c) + |rec|
  {
    assert (c + [rec])[..|c|] == c;
  }

  /** What a lone process would do in the place of a risky append. */
  lemma RiskySingle(c: Config, d: Disk, rec: Record)
    requires Shared(c) && c.f in d && Size(d[c.f]) == c.max
    ensures var e := Appended(c, Single(c, d), rec).disk;
            if |rec| > 0 then Get(e, c.f) == [] && Get(e, Backup(c.f, 1)) == d[c.f] + [rec]
            else Get(e, c.f) == d[c.f] + [rec]
  {
    var s := Write(c, Single(c, d), rec);
    SizeGrows(d[c.f], rec);
    assert Appended(c, Single(c, d), rec) == RollIfNeeded(c, s);
    if |rec| > 0 { RolloverIsShift(c, s); }
  }

  /** Sharing is invisible exactly when the append is not risky. */
  lemma AppendRefinesIff(c: Config, w: World, p: Pid, rec: Record)
    requires Shared(c) && Inv(c, w) && p in w.open
    ensures var r := AppendShared(c, w, p, rec);
            Linked(r) && (View(r) == Appended(c, Single(c, View(w)), rec).disk <==> !Risky(c, w, p))
  {
    if Risky(c, w, p) {
      RiskyWorlds(c, w, p, rec);
      RiskySingle(c, View(w), rec);
      assert View(w)[c.f] != [];
    } else {
      AppendRefines(c, w, p, rec);
    }
  }

  // ----- Whole runs -----

  datatype Act = Join(p: Pid) | Log(p: Pid, rec: Record)

  function Step(c: Config, w: World, a: Act): World
    requires Shared(c)
  {
    match a
    case Join(p) => OpenByName(c, w, p)
    case Log(p, rec) => AppendShared(c, w, p, rec)
  }

  function RunShared(c: Config, w: World, acts: seq<Act>): World
    requires Shared(c)
  {
    if acts == [] then w else Step(c, RunShared(c, w, acts[..|acts| - 1]), acts[|acts| - 1])
  }

  /** Processes log only after they opened the file. */
  predicate Joined(c: Config, w: World, acts: seq<Act>)
    requires Shared(c)
  {
    acts == [] ||
    (var front, last := acts[..|acts| - 1], acts[|acts| - 1];
     Joined(c, w, front) && (last.Log? ==> last.p in RunShared(c, w, front).open))
  }

  /** No append is risky. */
  predicate Careful(c: Config, w: World, acts: seq<Act>)
    requires Shared(c)
  {
    acts == [] ||
    (var front, last := acts[..|acts| - 1], acts[|acts| - 1];
     && Careful(c, w, front)
     && (last.Log? ==> var m := RunShared(c, w, front); Linked(m) && !Risky(c, m, last.p)))
  }

  function Logged(acts: seq<Act>): seq<Record> {
    if acts == [] then []
    else Logged(acts[..|acts| - 1]) + (if acts[|acts| - 1].Log? then [acts[|acts| - 1].rec] else [])
  }

  /** The directory with an empty live file if there is none. */
  function WithLive(c: Config, d: Disk): Disk {
    d[c.f := Get(d, c.f)]
  }

  lemma LiveIsThere(c: Config, d: Disk)
    ensures c.f in d ==> WithLive(c, d) == d
    ensures c.f !in d ==> WithLive(c, d) == d[c.f := []] == WithLive(c, d[c.f := []])
  {
  }

  /** The first process to open creates the live file. */
  lemma CreateLive(c: Config, w: World, p: Pid)
    requires Inv(c, w) && c.f !in w.dir
    ensures var r := OpenByName(c, w, p); Inv(c, r) && View(r) == View(w)[c.f := []]
  {
    var r := OpenByName(c, w, p);
    assert w.open == map[];
    CreateAgrees(w.dir, w.files, View(w), c.f);
    NamesView(r, View(w)[c.f := []]);
  }

  lemma JoinKeeps(c: Config, w: World, p: Pid)
    requires Inv(c, w)
    ensures var r := OpenByName(c, w, p); Inv(c, r) && WithLive(c, View(r)) == WithLive(c, View(w))
  {
    LiveIsThere(c, View(w));
    if c.f in w.dir {
      ReopenKeepsInv(c, w, p);
    } else {
      CreateLive(c, w, p);
    }
  }

  /** With the lock held the effect of an append depends on the directory alone. */
  lemma AppendedByDisk(c: Config, s: State, t: State, rec: Record)
    requires Shared(c) && s.disk == t.disk
    ensures Appended(c, s, rec).disk == Appended(c, t, rec).disk
  {
    var s1, t1 := SeekEnd(c, s), SeekEnd(c, t);
    RollByDisk(c, s1, t1);
    RollByDisk(c, Write(c, RollIfNeeded(c, s1), rec), Write(c, RollIfNeeded(c, t1), rec));
  }

  lemma RollByDisk(c: Config, s: State, t: State)
    requires c.Ok() && s.disk == t.disk && s.pos == t.pos
    ensures RollIfNeeded(c, s).disk == RollIfNeeded(c, t).disk && RollIfNeeded(c, s).pos == RollIfNeeded(c, t).pos
  {
  }

  lemma LogKeeps(c: Config, m: World, p: Pid, rec: Record, s: State)
    requires Shared(c) && Inv(c, m) && p in m.open && !Risky(c, m, p) && s.disk == WithLive(c, View(m))
    ensures var r := AppendShared(c, m, p, rec);
            Inv(c, r) && WithLive(c, View(r)) == Appended(c, s, rec).disk
  {
    AppendRefines(c, m, p, rec);
    LiveIsThere(c, View(m));
    AppendedByDisk(c, s, Single(c, View(m)), rec);
    LiveIsThere(c, View(AppendShared(c, m, p, rec)));
  }

  lemma LoggedLast(acts: seq<Act>)
    requires acts != []
    ensures var front, last := acts[..|acts| - 1], acts[|acts| - 1];
            if last.Log? then Logged(acts) != [] && Logged(acts)[..|Logged(acts)| - 1] == Logged(front)
                              && Logged(acts)[|Logged(acts)| - 1] == last.rec
            else Logged(acts) == Logged(front)
  {
  }

  /** Any number of processes interleaving appends, without risky ones, leave the directory a lone
      process leaves that appends the same records in the same order. */
  lemma {:induction false} RunRefines(c: Config, w: World, acts: seq<Act>)
    requires Shared(c) && Inv(c, w) && Joined(c, w, acts) && Careful(c, w, acts)
    ensures var r := RunShared(c, w, acts);
            Inv(c, r) && WithLive(c, View(r)) == AppendedAll(c, Open(c, View(w)), Logged(acts)).disk
  {
    if acts != [] {
      var front, last := acts[..|acts| - 1], acts[|acts| - 1];
      RunRefines(c, w, front);
      var m := RunShared(c, w, front);
      LoggedLast(acts);
      match last
      case Join(p) => JoinKeeps(c, m, p);
      case Log(p, rec) => LogKeeps(c, m, p, rec, AppendedAll(c, Open(c, View(w)), Logged(front)));
    }
  }

  /** After a run the directory is that of the lone process. */
  ghost predicate Refined(c: Config, w: World, acts: seq<Act>)
    requires Shared(c) && Linked(w)
  {
    var r := RunShared(c, w, acts);
    Linked(r) && WithLive(c, View(r)) == AppendedAll(c, Open(c, View(w)), Logged(acts)).disk
  }

  /** After a run and all its beginnings. */
  ghost predicate AlwaysRefined(c: Config, w: World, acts: seq<Act>)
    requires Shared(c) && Linked(w)
  {
    Refined(c, w, acts) && (acts == [] || AlwaysRefined(c, w, acts[..|acts| - 1]))
  }

  lemma {:induction false} CarefulRefined(c: Config, w: World, acts: seq<Act>)
    requires Shared(c) && Inv(c, w) && Joined(c, w, acts) && Careful(c, w, acts)
    ensures AlwaysRefined(c, w, acts)
  {
    RunRefines(c, w, acts);
    if acts != [] { CarefulRefined(c, w, acts[..|acts| - 1]); }
  }

  lemma {:induction false} CarelessShows(c: Config, w: World, acts: seq<Act>)
    requires Shared(c) && Inv(c, w) && Joined(c, w, acts) && !Careful(c, w, acts)
    ensures !AlwaysRefined(c, w, acts)
  {
    var front, last := acts[..|acts| - 1], acts[|acts| - 1];
    if Careful(c, w, front) {
      LastIsRisky(c, w, acts, front, last);
      assert acts == front + [last];
      RiskyStep(c, w, front, last.p, last.rec, acts);
    } else {
      CarelessShows(c, w, front);
    }
  }

  lemma LastIsRisky(c: Config, w: World, acts: seq<Act>, front: seq<Act>, last: Act)
    requires Shared(c) && Inv(c, w) && Joined(c, w, acts) && !Careful(c, w, acts)
    requires acts != [] && front == acts[..|acts| - 1] && last == acts[|acts| - 1] && Careful(c, w, front)
    ensures last.Log? && var m := RunShared(c, w, front); last.p in m.open && Linked(m) && Risky(c, m, last.p)
  {
    RunRefines(c, w, front);
  }

  /** The directory is that of the lone process throughout exactly when no append is risky. */
  lemma {:induction false} RunRefinesIff(c: Config, w: World, acts: seq<Act>)
    requires Shared(c) && Inv(c, w) && Joined(c, w, acts)
    ensures AlwaysRefined(c, w, acts) <==> Careful(c, w, acts)
  {
    if Careful(c, w, acts) { CarefulRefined(c, w, acts); } else { CarelessShows(c, w, acts); }
  }

  lemma RiskyStep(c: Config, w: World, front: seq<Act>, p: Pid, rec: Record, acts: seq<Act>)
    requires Shared(c) && Inv(c, w) && Joined(c, w, front) && Careful(c, w, front) && acts == front + [Log(p, rec)]
    requires var m := RunShared(c, w, front); p in m.open && Linked(m) && Risky(c, m, p)
    ensures !Refined(c, w, acts)
  {
    RunRefines(c, w, front);
    var m, s := RunShared(c, w, front), AppendedAll(c, Open(c, View(w)), Logged(front));
    assert acts[..|front|] == front && acts[|front|] == Log(p, rec);
    LoggedLast(acts);
    AppendRefinesIff(c, m, p, rec);
    LiveIsThere(c, View(m));
    AppendedByDisk(c, s, Single(c, View(m)), rec);
    var r := AppendShared(c, m, p, rec);
    RiskyLive(c, m, p, rec);
    LiveIsThere(c, View(r));
    assert RunShared(c, w, acts) == r;
    assert AppendedAll(c, Open(c, View(w)), Logged(acts)) == Appended(c, s, rec);
  }

  lemma RiskyLive(c: Config, w: World, p: Pid, rec: Record)
    requires Shared(c) && Inv(c, w) && Risky(c, w, p)
    ensures c.f in AppendShared(c, w, p, rec).dir
  {
    RollSharedEffect(c, w, p);
    var w1 := RollShared(c, w, p);
    WriteView(c, w1, p, rec);
    var w2 := WriteShared(w1, p, rec);
    if HandleSize(w2, p) > c.max { RollSharedEffect(c, w2, p); }
  }

  const NOBODY := World(map[], [], map[])

  /** The invariant holds before anyone has opened the file. */
  lemma NobodyInv(c: Config)
    ensures Inv(c, NOBODY)
  {
  }

  /** Two processes that open the file one after the other. */
  lemma BothJoin(c: Config)
    requires Shared(c)
    ensures RunShared(c, NOBODY, [Join(0), Join(1)]) == Both(c) && Joined(c, NOBODY, [Join(0), Join(1)])
  {
    var acts := [Join(0), Join(1)];
    assert acts[..1] == [Join(0)] && acts[..1][..0] == [];
    var w := Step(c, NOBODY, Join(0));
    assert w == World(map[c.f := 0], [[]], map[0 := 0]);
    assert RunShared(c, NOBODY, acts[..1]) == w;
    assert Step(c, w, Join(1)) == Both(c);
  }

  /** Two processes 0 and 1 that both hold the live file. */
  function Both(c: Config): World {
    World(map[c.f := 0], [[]], map[0 := 0, 1 := 0])
  }

  lemma OneRecord(rec: Record)
    ensures Size([rec]) == |rec| && [] + [rec] == [rec]
  {
    SizeGrows([], rec);
    assert [] + [rec] == [rec];
  }

  lemma RolledDirTop(c: Config, dir: map<string, nat>, inode: nat)
    requires c.Ok() && c.f in dir
    ensures var r := RolledDir(c, dir, inode);
            c.f in r && r[c.f] == inode && Backup(c.f, 1) in r && r[Backup(c.f, 1)] == dir[c.f]
  {
    forall j: nat ensures c.f != Backup(c.f, j) { BackupNames(c.f, j, j); }
    RolloverFilesKeeps(dir, c.f, c.k, c.f);
  }

  /** Process 0 rolls an oversized file. */
  lemma ExampleRoll(c: Config, big: Record)
    requires Shared(c) && |big| == c.max + 1
    ensures AppendShared(c, Both(c), 0, big)
            == World(RolledDir(c, map[c.f := 0], 1), [[big], []], map[0 := 1, 1 := 0])
  {
    OneRecord(big);
    var w := WriteShared(RollIfOver(c, Both(c), 0), 0, big);
    assert w == World(map[c.f := 0], [[big]], map[0 := 0, 1 := 0]);
    assert w.files + [[]] == [[big], []];
    assert w.open[0 := 1] == map[0 := 1, 1 := 0];
  }

  /** Process 0 fills the next file to exactly the limit. */
  lemma ExampleFill(c: Config, dir: map<string, nat>, big: Record, full: Record)
    requires Shared(c) && |full| == c.max
    ensures AppendShared(c, World(dir, [[big], []], map[0 := 1, 1 := 0]), 0, full)
            == World(dir, [[big], [full]], map[0 := 1, 1 := 0])
  {
    OneRecord(full);
  }

  /** Process 1, still holding the first file, rolls the second although it is within the limit. */
  lemma ExampleSteal(c: Config, dir: map<string, nat>, big: Record, full: Record, b: Record)
    requires Shared(c) && |big| == c.max + 1 && |full| == c.max && |b| < c.max && c.f in dir && dir[c.f] == 1
    ensures AppendShared(c, World(dir, [[big], [full]], map[0 := 1, 1 := 0]), 1, b)
            == World(RolledDir(c, dir, 2), [[big], [full], [b]], map[0 := 1, 1 := 2])
  {
    OneRecord(big);
    OneRecord(full);
    OneRecord(b);
    var w := World(dir, [[big], [full]], map[0 := 1, 1 := 0]);
    assert w.files + [[]] == [[big], [full], []];
    assert w.open[1 := 2] == map[0 := 1, 1 := 2];
    assert RollIfOver(c, w, 1) == World(RolledDir(c, dir, 2), [[big], [full], []], map[0 := 1, 1 := 2]);
    assert [[big], [full], []][2 := [b]] == [[big], [full], [b]];
  }

  /** Process 0 does not notice, and its record goes to the backup. */
  lemma ExampleLost(c: Config, dir: map<string, nat>, big: Record, full: Record, b: Record, a: Record)
    requires Shared(c) && |full| == c.max && |b| < c.max && 1 <= |a| && c.f in dir && dir[c.f] == 2
    ensures AppendShared(c, World(dir, [[big], [full], [b]], map[0 := 1, 1 := 2]), 0, a)
            == World(dir, [[big], [full, a], [b]], map[0 := 2, 1 := 2])
  {
    OneRecord(full);
    OneRecord(b);
    SizeGrows([full], a);
    assert [full] + [a] == [full, a];
    var w := World(dir, [[big], [full], [b]], map[0 := 1, 1 := 2]);
    assert WriteShared(RollIfOver(c, w, 0), 0, a) == World(dir, [[big], [full, a], [b]], map[0 := 1, 1 := 2]);
    assert map[0 := 1, 1 := 2][0 := 2] == map[0 := 2, 1 := 2];
  }

  /** The run in which a live file of exactly the limit is rolled and a record is written to a backup. */
  lemma ExactlyFullExample(c: Config, big: Record, full: Record, b: Record, a: Record)
    requires Shared(c) && |big| == c.max + 1 && |full| == c.max && |b| < c.max && 1 <= |a|
    ensures var w := RunShared(c, Both(c), [Log(0, big), Log(0, full), Log(1, b), Log(0, a)]);
            && c.f in w.dir && w.dir[c.f] == 2 && Backup(c.f, 1) in w.dir && w.dir[Backup(c.f, 1)] == 1
            && w.files == [[big], [full, a], [b]]
  {
    var acts := [Log(0, big), Log(0, full), Log(1, b), Log(0, a)];
    assert acts[..3] == [Log(0, big), Log(0, full), Log(1, b)] && acts[..3][..2] == acts[..2] && acts[..2][..1] == acts[..1];
    assert acts[..1][..0] == [];
    var dir := RolledDir(c, map[c.f := 0], 1);
    RolledDirTop(c, map[c.f := 0], 1);
    RolledDirTop(c, dir, 2);
    ExampleRoll(c, big);
    assert RunShared(c, Both(c), acts[..1]) == World(dir, [[big], []], map[0 := 1, 1 := 0]);
    ExampleFill(c, dir, big, full);
    assert RunShared(c, Both(c), acts[..2]) == World(dir, [[big], [full]], map[0 := 1, 1 := 0]);
    ExampleSteal(c, dir, big, full, b);
    assert RunShared(c, Both(c), acts[..3]) == World(RolledDir(c, dir, 2), [[big], [full], [b]], map[0 := 1, 1 := 2]);
    ExampleLost(c, RolledDir(c, dir, 2), big, full, b, a);
  }
}
