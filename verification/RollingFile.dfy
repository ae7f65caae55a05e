/**
 RollingFileAppender in one process: events go to the live file f; when it grows
 past maxFileSize it becomes f.1, f.1 becomes f.2 and so on up to f.k.
 */
module RollingFile {
  import opened Files

  const MINIMUM_ROLLING_LOG_SIZE := 200 * 1024

  datatype Config = Config(f: string, max: nat, k: int, lock: bool) {
    predicate Ok() {
      1 <= k < 0x8000_0000
    }
  }

  /** pos is the stream position tellp() reports; rolled counts the rollovers. */
  datatype State = State(disk: Disk, pos: nat, rolled: nat)

  /** The file is opened in append mode, positioned at its start until the first write. */
  function Open(c: Config, disk: Disk): State {
    State(disk[c.f := Get(disk, c.f)], 0, 0)
  }

  function Rolled(c: Config, s: State): State
    requires c.Ok()
  {
    if c.lock && (c.f !in s.disk || Size(s.disk[c.f]) < c.max) then
      State(s.disk[c.f := Get(s.disk, c.f)], Size(Get(s.disk, c.f)), s.rolled)
    else
      State(Rename(RolloverFiles(s.disk, c.f, c.k), c.f, Backup(c.f, 1))[c.f := []], 0, s.rolled + 1)
  }

  function RollIfNeeded(c: Config, s: State): State
    requires c.Ok()
  {
    if s.pos > c.max then Rolled(c, s) else s
  }

  function SeekEnd(c: Config, s: State): State {
    if c.lock then s.(pos := Size(Get(s.disk, c.f))) else s
  }

  function Write(c: Config, s: State, rec: Record): State {
    var content := Get(s.disk, c.f) + [rec];
    State(s.disk[c.f := content], Size(content), s.rolled)
  }

  function Appended(c: Config, s: State, rec: Record): State
    requires c.Ok()
  {
    RollIfNeeded(c, Write(c, RollIfNeeded(c, SeekEnd(c, s)), rec))
  }

  function AppendedAll(c: Config, s: State, recs: seq<Record>): State
    requires c.Ok()
  {
    if recs == [] then s else Appended(c, AppendedAll(c, s, recs[..|recs| - 1]), recs[|recs| - 1])
  }

  // ----- What is retained -----

  /** Contents of backups i, ..., 2, 1, oldest first. */
  function Archive(d: Disk, f: string, i: nat): Content {
    if i == 0 then [] else Get(d, Backup(f, i)) + Archive(d, f, i - 1)
  }

  function Total(c: Config, d: Disk): Content
    requires c.Ok()
  {
    Archive(d, c.f, c.k) + Get(d, c.f)
  }

  predicate IsSuffix(a: Content, b: Content) {
    |a| <= |b| && a == b[|b| - |a|..]
  }

  /** The directory after a rollover, file by file. */
  ghost predicate RolledOnce(c: Config, d: Disk, e: Disk)
    requires c.Ok()
  {
    && c.f in e && e[c.f] == []
    && Same(e, Backup(c.f, 1), d, c.f)
    && (forall j: nat :: 2 <= j <= c.k ==> Same(e, Backup(c.f, j), d, Backup(c.f, j - 1)))
  }

  lemma RolloverIsShift(c: Config, s: State)
    requires c.Ok() && c.f in s.disk && (c.lock ==> Size(s.disk[c.f]) >= c.max)
    ensures RolledOnce(c, s.disk, Rolled(c, s).disk)
    ensures forall n :: Apart(n, c.f, c.k) && n != c.f ==> Same(Rolled(c, s).disk, n, s.disk, n)
  {
    var d, e := s.disk, Rolled(c, s).disk;
    var shifted := RolloverFiles(d, c.f, c.k);
    forall j: nat ensures Backup(c.f, j) != c.f && (j != 1 ==> Backup(c.f, j) != Backup(c.f, 1)) {
      BackupNames(c.f, j, 1);
    }
    RolloverFilesMoves(d, c.f, c.k, 1);
    RolloverFilesKeeps(d, c.f, c.k, c.f);
    forall j: nat | 2 <= j <= c.k ensures Same(e, Backup(c.f, j), d, Backup(c.f, j - 1)) {
      RolloverFilesMoves(d, c.f, c.k, j);
    }
    forall n | Apart(n, c.f, c.k) && n != c.f ensures Same(e, n, d, n) {
      assert n != Backup(c.f, 1) && n != Backup(c.f, c.k);
      RolloverFilesKeeps(d, c.f, c.k, n);
    }
  }

  lemma {:induction false} ArchiveShifts(c: Config, d: Disk, e: Disk, i: nat)
    requires c.Ok() && RolledOnce(c, d, e) && 1 <= i <= c.k
    ensures Archive(e, c.f, i) == Archive(d, c.f, i - 1) + Get(d, c.f)
  {
    if i == 1 {
      assert Archive(e, c.f, 0) == [];
    } else {
      ArchiveShifts(c, d, e, i - 1);
      assert Same(e, Backup(c.f, i), d, Backup(c.f, i - 1));
      assert Get(d, Backup(c.f, i - 1)) + (Archive(d, c.f, i - 2) + Get(d, c.f))
             == (Get(d, Backup(c.f, i - 1)) + Archive(d, c.f, i - 2)) + Get(d, c.f);
    }
  }

  /** A rollover forgets exactly the oldest backup. */
  lemma RolloverRetains(c: Config, d: Disk, e: Disk)
    requires c.Ok() && RolledOnce(c, d, e)
    ensures Total(c, d) == Get(d, Backup(c.f, c.k)) + Total(c, e)
  {
    ArchiveShifts(c, d, e, c.k);
    assert Total(c, e) == Archive(e, c.f, c.k);
    assert Get(d, Backup(c.f, c.k)) + (Archive(d, c.f, c.k - 1) + Get(d, c.f))
           == (Get(d, Backup(c.f, c.k)) + Archive(d, c.f, c.k - 1)) + Get(d, c.f);
  }

  lemma {:induction false} ArchiveFrame(d: Disk, e: Disk, f: string, i: nat)
    requires forall n :: n != f ==> Same(d, n, e, n)
    ensures Archive(d, f, i) == Archive(e, f, i)
  {
    if i > 0 {
      BackupNames(f, i, i);
      assert Same(d, Backup(f, i), e, Backup(f, i));
      ArchiveFrame(d, e, f, i - 1);
    }
  }

  lemma WriteRetains(c: Config, s: State, rec: Record)
    requires c.Ok()
    ensures Total(c, Write(c, s, rec).disk) == Total(c, s.disk) + [rec]
  {
    ArchiveFrame(s.disk, Write(c, s, rec).disk, c.f, c.k);
    assert Archive(s.disk, c.f, c.k) + (Get(s.disk, c.f) + [rec]) == Total(c, s.disk) + [rec];
  }

  /** The stream position never exceeds the size of the live file. */
  predicate Sane(c: Config, s: State) {
    c.f in s.disk && s.pos <= Size(s.disk[c.f])
  }

  lemma RollIfNeededEffect(c: Config, s: State)
    requires c.Ok() && Sane(c, s)
    ensures var r := RollIfNeeded(c, s);
            && Sane(c, r)
            && (if s.pos > c.max then RolledOnce(c, s.disk, r.disk) && r.rolled == s.rolled + 1 && r.pos == 0 else r == s)
            && IsSuffix(Total(c, r.disk), Total(c, s.disk))
  {
    if s.pos > c.max {
      RolloverIsShift(c, s);
      RolloverRetains(c, s.disk, RollIfNeeded(c, s).disk);
    }
  }

  lemma SuffixTrans(a: Content, b: Content, d: Content, x: Content)
    requires IsSuffix(a, b + x) && IsSuffix(b, d)
    ensures IsSuffix(a, d + x)
  {
    assert d == d[..|d| - |b|] + b;
    assert d + x == d[..|d| - |b|] + (b + x);
  }

  /** After an append the live file is within the limit and nothing but old records at the far end is gone. */
  lemma AppendRetains(c: Config, s: State, rec: Record)
    requires c.Ok() && Sane(c, s)
    ensures var r := Appended(c, s, rec);
            Sane(c, r) && Size(r.disk[c.f]) <= c.max && IsSuffix(Total(c, r.disk), Total(c, s.disk) + [rec])
  {
    var s1 := SeekEnd(c, s);
    var s2 := RollIfNeeded(c, s1);
    RollIfNeededEffect(c, s1);
    WriteRetains(c, s2, rec);
    RollIfNeededEffect(c, Write(c, s2, rec));
    SuffixTrans(Total(c, Appended(c, s, rec).disk), Total(c, s2.disk), Total(c, s.disk), [rec]);
  }

  /** Over any run: backups and live file together are the last records of everything ever appended. */
  lemma {:induction false} RunRetains(c: Config, s: State, recs: seq<Record>)
    requires c.Ok() && Sane(c, s)
    ensures var r := AppendedAll(c, s, recs);
            && Sane(c, r)
            && (recs != [] ==> Size(r.disk[c.f]) <= c.max)
            && IsSuffix(Total(c, r.disk), Total(c, s.disk) + recs)
  {
    if recs == [] {
      assert Total(c, s.disk) + recs == Total(c, s.disk);
    } else {
      var front, last := recs[..|recs| - 1], recs[|recs| - 1];
      assert recs == front + [last];
      RunRetains(c, s, front);
      AppendRetains(c, AppendedAll(c, s, front), last);
      SuffixStep(Total(c, AppendedAll(c, s, recs).disk), Total(c, AppendedAll(c, s, front).disk), Total(c, s.disk),
                 front, last);
    }
  }

  lemma SuffixStep(e: seq<Record>, d: seq<Record>, start: seq<Record>, front: seq<Record>, last: Record)
    requires IsSuffix(d, start + front) && IsSuffix(e, d + [last])
    ensures IsSuffix(e, start + (front + [last]))
  {
    SuffixTrans(e, d, start + front, [last]);
    assert start + front + [last] == start + (front + [last]);
  }

  // ----- The size of the backups -----

  /** Over the limit by the last record only. */
  predicate JustOver(c: Config, content: Content) {
    content != [] && Size(content[..|content| - 1]) <= c.max < Size(content)
  }

  /** The live file of the start, itself over the limit, with at most one more record. */
  predicate FromStart(c: Config, start: Disk, content: Content) {
    var live := Get(start, c.f);
    Size(live) > c.max && live <= content && |content| <= |live| + 1
  }

  /** After r rollovers backup i is a file just over the limit if i <= r, and backup i - r of the start otherwise;
      only the first file rolled over can be one that was over the limit from the start. */
  ghost predicate BackupAt(c: Config, start: Disk, d: Disk, r: nat, i: nat) {
    if i <= r then
      var n := Backup(c.f, i);
      n in d && (JustOver(c, d[n]) || (i == r && FromStart(c, start, d[n])))
    else Same(d, Backup(c.f, i), start, Backup(c.f, i - r))
  }

  ghost predicate BackupsAfter(c: Config, start: Disk, d: Disk, r: nat) {
    forall i: nat :: 1 <= i <= c.k ==> BackupAt(c, start, d, r, i)
  }

  /** One more rollover, of a live file just over the limit or the first of all. */
  lemma BackupsShift(c: Config, start: Disk, d: Disk, e: Disk, r: nat)
    requires c.Ok() && RolledOnce(c, d, e) && c.f in d && BackupsAfter(c, start, d, r)
    requires JustOver(c, d[c.f]) || (r == 0 && FromStart(c, start, d[c.f]))
    ensures BackupsAfter(c, start, e, r + 1)
  {
    var r' := r + 1;
    forall i: nat | 1 <= i <= c.k ensures BackupAt(c, start, e, r', i) {
      if i > 1 {
        assert BackupAt(c, start, d, r, i - 1);
        assert Same(e, Backup(c.f, i), d, Backup(c.f, i - 1));
      }
    }
  }

  lemma BackupsUntouched(c: Config, start: Disk, d: Disk, content: Content, r: nat)
    requires BackupsAfter(c, start, d, r)
    ensures BackupsAfter(c, start, d[c.f := content], r)
  {
    var e := d[c.f := content];
    forall i: nat | 1 <= i <= c.k ensures BackupAt(c, start, e, r, i) {
      BackupNames(c.f, i, i);
      assert BackupAt(c, start, d, r, i);
    }
  }

  /** Rolling over a live file that was within the limit before its last record. */
  lemma RollBackups(c: Config, start: Disk, w: State)
    requires c.Ok() && Sane(c, w) && w.pos == Size(w.disk[c.f]) && BackupsAfter(c, start, w.disk, w.rolled)
    requires w.disk[c.f] != [] && Size(w.disk[c.f][..|w.disk[c.f]| - 1]) <= c.max
    ensures var r := RollIfNeeded(c, w); BackupsAfter(c, start, r.disk, r.rolled)
  {
    RollIfNeededEffect(c, w);
    if w.pos > c.max { BackupsShift(c, start, w.disk, RollIfNeeded(c, w).disk, w.rolled); }
  }

  lemma AppendBackups(c: Config, start: Disk, s: State, rec: Record)
    requires c.Ok() && Sane(c, s) && Size(s.disk[c.f]) <= c.max && BackupsAfter(c, start, s.disk, s.rolled)
    ensures var r := Appended(c, s, rec); BackupsAfter(c, start, r.disk, r.rolled)
  {
    var w := Write(c, SeekEnd(c, s), rec);
    assert w.disk[c.f][..|w.disk[c.f]| - 1] == s.disk[c.f];
    BackupsUntouched(c, start, s.disk, w.disk[c.f], s.rolled);
    RollBackups(c, start, w);
  }

  /** The first append to a file that is over the limit already. */
  lemma FirstBackups(c: Config, start: Disk, s: State, rec: Record)
    requires c.Ok() && Sane(c, s) && s.rolled == 0 && BackupsAfter(c, start, s.disk, 0)
    requires s.disk[c.f] == Get(start, c.f) && Size(s.disk[c.f]) > c.max
    ensures var r := Appended(c, s, rec); BackupsAfter(c, start, r.disk, r.rolled)
  {
    var s1 := SeekEnd(c, s);
    if s1.pos > c.max {
      RollIfNeededEffect(c, s1);
      var s2 := RollIfNeeded(c, s1);
      BackupsShift(c, start, s1.disk, s2.disk, 0);
      WrittenAfter(c, start, s2, rec);
    } else {
      FirstWritten(c, start, s1, rec);
    }
  }

  lemma WrittenAfter(c: Config, start: Disk, s: State, rec: Record)
    requires c.Ok() && Sane(c, s) && s.disk[c.f] == [] && BackupsAfter(c, start, s.disk, s.rolled)
    ensures var r := RollIfNeeded(c, Write(c, s, rec)); BackupsAfter(c, start, r.disk, r.rolled)
  {
    var w := Write(c, s, rec);
    BackupsUntouched(c, start, s.disk, w.disk[c.f], s.rolled);
    assert w.disk[c.f] == [] + [rec] && w.disk[c.f][..0] == [];
    RollBackups(c, start, w);
  }

  lemma FirstWritten(c: Config, start: Disk, s: State, rec: Record)
    requires c.Ok() && Sane(c, s) && s.rolled == 0 && BackupsAfter(c, start, s.disk, 0)
    requires s.disk[c.f] == Get(start, c.f) && Size(s.disk[c.f]) > c.max
    ensures var r := RollIfNeeded(c, Write(c, s, rec)); BackupsAfter(c, start, r.disk, r.rolled)
  {
    var w := Write(c, s, rec);
    BackupsUntouched(c, start, s.disk, w.disk[c.f], 0);
    assert w.disk[c.f] == s.disk[c.f] + [rec];
    assert w.disk[c.f][..|w.disk[c.f]| - 1] == s.disk[c.f];
    RollIfNeededEffect(c, w);
    BackupsShift(c, start, w.disk, RollIfNeeded(c, w).disk, 0);
  }

  /** Every backup made in a run exceeds the limit by one record, but for the live file of a start over the limit,
      and older backups keep their place in line. */
  lemma {:induction false} RunBackups(c: Config, s: State, recs: seq<Record>)
    requires c.Ok() && Sane(c, s) && s.rolled == 0
    ensures var r := AppendedAll(c, s, recs); BackupsAfter(c, s.disk, r.disk, r.rolled)
  {
    if recs != [] {
      var front := recs[..|recs| - 1];
      RunBackups(c, s, front);
      RunRetains(c, s, front);
      var m := AppendedAll(c, s, front);
      if Size(m.disk[c.f]) <= c.max {
        AppendBackups(c, s.disk, m, recs[|recs| - 1]);
      } else {
        FirstBackups(c, s.disk, m, recs[|recs| - 1]);
      }
    }
  }

  /** A file that is over the limit when it is opened: with a lock file its size is looked up, so that it is rolled
      over before the first record; without one it is taken for empty and gets that record too. */
  lemma OpenedOverLimit(c: Config, disk: Disk, rec: Record)
    requires c.Ok() && Size(Get(disk, c.f)) > c.max >= Size([rec])
    ensures var d, live, first := Appended(c, Open(c, disk), rec).disk, Get(disk, c.f), Backup(c.f, 1);
            && c.f in d && first in d
            && (if c.lock then d[first] == live && d[c.f] == [rec] else d[first] == live + [rec] && d[c.f] == [])
  {
    var s := SeekEnd(c, Open(c, disk));
    BackupNames(c.f, 1, 1);
    if c.lock {
      RollIfNeededEffect(c, s);
      var s2 := RollIfNeeded(c, s);
      assert Same(s2.disk, Backup(c.f, 1), s.disk, c.f);
      var w := Write(c, s2, rec);
      assert w.disk[c.f] == [] + [rec] == [rec];
    } else {
      var w := Write(c, s, rec);
      assert w.disk[c.f][..|w.disk[c.f]| - 1] == Get(disk, c.f);
      RollIfNeededEffect(c, w);
    }
  }

  // ----- The appender object -----

  class RollingFileAppender {
    const fs: FileSystem<Content>
    const filename: string
    const maxFileSize: nat
    const maxBackupIndex: int
    const useLockFile: bool
    var pos: nat
    ghost var rolled: nat

    ghost function Settings(): Config {
      Config(filename, maxFileSize, maxBackupIndex, useLockFile)
    }

    ghost function View(): State
      reads this, fs
    {
      State(fs.disk, pos, rolled)
    }

    ghost predicate Valid()
      reads this, fs
    {
      Settings().Ok() && Sane(Settings(), View())
    }

    /** Too small limits are raised and at least one backup is kept. */
    constructor (fs: FileSystem<Content>, filename: string, size: int, backups: int, useLockFile: bool)
      requires backups < 0x8000_0000
      modifies fs
      ensures Valid() && this.fs == fs && this.filename == filename && this.useLockFile == useLockFile
      ensures maxFileSize == (if size < MINIMUM_ROLLING_LOG_SIZE then MINIMUM_ROLLING_LOG_SIZE else size)
      ensures maxBackupIndex == (if backups < 1 then 1 else backups)
      ensures View() == Open(Settings(), old(fs.disk))
    {
      this.fs, this.filename, this.useLockFile := fs, filename, useLockFile;
      maxFileSize := if size < MINIMUM_ROLLING_LOG_SIZE then MINIMUM_ROLLING_LOG_SIZE else size;
      maxBackupIndex := if backups < 1 then 1 else backups;
      pos, rolled := 0, 0;
      new;
      fs.disk := fs.disk[filename := if filename in fs.disk then fs.disk[filename] else []];
    }

    method Rollover()
      requires Valid()
      modifies this, fs
      ensures Valid() && View() == Rolled(Settings(), old(View()))
      ensures fs.clobbered == old(fs.clobbered)
    {
      if useLockFile && (filename !in fs.disk || Size(fs.disk[filename]) < maxFileSize) {
        pos := Size(fs.disk[filename]);
        return;
      }
      RolloverFilesMoves(fs.disk, filename, maxBackupIndex, 1);
      if maxBackupIndex > 0 {
        fs.ShiftBackups(filename, maxBackupIndex);
        fs.FileRename(filename, Backup(filename, 1));
      }
      fs.disk := fs.disk[filename := []];
      pos, rolled := 0, rolled + 1;
    }

    method Append(rec: Record)
      requires Valid()
      modifies this, fs
      ensures Valid() && View() == Appended(Settings(), old(View()), rec)
      ensures fs.clobbered == old(fs.clobbered)
    {
      AppendRetains(Settings(), View(), rec);
      if useLockFile {
        pos := Size(fs.disk[filename]);
      }
      if pos > maxFileSize {
        Rollover();
      }
      fs.disk := fs.disk[filename := fs.disk[filename] + [rec]];
      pos := Size(fs.disk[filename]);
      if pos > maxFileSize {
        Rollover();
      }
    }
  }
}
