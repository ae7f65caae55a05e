/**
 A directory of log files, the POSIX calls on it, and the shift of numbered
 backups that every rolling appender makes.
 */
module Files {
  import opened Decimals

  /** One rendered logging event; a file is the events written to it. */
  type Record = string
  type Content = seq<Record>
  type Disk = map<string, Content>

  function Size(c: Content): nat {
    if c == [] then 0 else Size(c[..|c| - 1]) + |c[|c| - 1]|
  }

  function Get(d: Disk, name: string): Content {
    if name in d then d[name] else []
  }

  function Remove<T>(d: map<string, T>, name: string): map<string, T> {
    d - {name}
  }

  /** rename(2): a missing source is an error without effect, an existing target is replaced. */
  function Rename<T>(d: map<string, T>, source: string, target: string): map<string, T> {
    if source in d then (d - {source})[target := d[source]] else d
  }

  /** Name of backup i of file f. */
  function Backup(f: string, i: nat): string {
    f + "." + Decimal(i)
  }

  lemma BackupNames(f: string, i: nat, j: nat)
    ensures Backup(f, i) != f
    ensures Backup(f, i) == Backup(f, j) ==> i == j
  {
    assert |Backup(f, i)| > |f|;
    if Backup(f, i) == Backup(f, j) {
      assert Decimal(i) == Backup(f, i)[|f| + 1..] == Backup(f, j)[|f| + 1..] == Decimal(j);
      DecimalInjective(i, j);
    }
  }

  // ----- rolloverFiles -----

  /** The conversion of the int field maxBackupIndex to the unsigned parameter. */
  function Unsigned(k: int): nat
    requires -0x8000_0000 <= k
  {
    if k < 0 then k + 0x1_0000_0000 else k
  }

  function ShiftFrom<T>(d: map<string, T>, f: string, i: int): map<string, T>
    decreases i
  {
    if i < 1 then d else ShiftFrom(Rename(d, Backup(f, i), Backup(f, i + 1)), f, i - 1)
  }

  function RolloverFiles<T>(d: map<string, T>, f: string, k: int): map<string, T>
    requires -0x8000_0000 <= k
  {
    ShiftFrom(Remove(d, Backup(f, Unsigned(k))), f, k - 1)
  }

  /** Name n is in d with the same content as name m in e, or missing from both. */
  predicate Same<T(==)>(d: map<string, T>, n: string, e: map<string, T>, m: string) {
    (n in d <==> m in e) && (n in d ==> d[n] == e[m])
  }

  /** n is none of the backups 1..k. */
  ghost predicate Apart(n: string, f: string, k: int) {
    forall j: nat :: 1 <= j <= k ==> n != Backup(f, j)
  }

  lemma {:induction false} ShiftKeeps<T>(d: map<string, T>, f: string, i: int, n: string)
    requires Apart(n, f, i + 1)
    ensures Same(ShiftFrom(d, f, i), n, d, n)
    decreases i
  {
    if i >= 1 {
      assert n != Backup(f, i) && n != Backup(f, i + 1);
      ShiftKeeps(Rename(d, Backup(f, i), Backup(f, i + 1)), f, i - 1, n);
    }
  }

  /** Backups 1..i move up by one; backup i + 1 was missing before. */
  lemma {:induction false} ShiftMoves<T>(d: map<string, T>, f: string, i: int, j: nat)
    requires 1 <= j <= i + 1 && (i >= 1 ==> Backup(f, i + 1) !in d)
    ensures i >= 1 ==> (if j == 1 then Backup(f, 1) !in ShiftFrom(d, f, i)
                        else Same(ShiftFrom(d, f, i), Backup(f, j), d, Backup(f, j - 1)))
    decreases i
  {
    if i >= 1 {
      var d' := Rename(d, Backup(f, i), Backup(f, i + 1));
      BackupNames(f, i, i + 1);
      if j == i + 1 {
        forall m: nat | 1 <= m <= i ensures Backup(f, i + 1) != Backup(f, m) { BackupNames(f, i + 1, m); }
        ShiftKeeps(d', f, i - 1, Backup(f, i + 1));
      } else {
        ShiftMoves(d', f, i - 1, j);
        if j > 1 {
          BackupNames(f, j - 1, i);
          BackupNames(f, j - 1, i + 1);
        }
      }
    }
  }

  /** rolloverFiles moves every existing backup up by one, drops the last and leaves 1 free, whatever
      gaps there are. */
  lemma RolloverFilesMoves<T>(d: map<string, T>, f: string, k: int, j: nat)
    requires 1 <= j <= k < 0x8000_0000
    ensures if j == 1 then Backup(f, 1) !in RolloverFiles(d, f, k)
            else Same(RolloverFiles(d, f, k), Backup(f, j), d, Backup(f, j - 1))
  {
    ShiftMoves(Remove(d, Backup(f, k)), f, k - 1, j);
    if j > 1 { BackupNames(f, j - 1, k); }
  }

  /** No other file is touched. */
  lemma RolloverFilesKeeps<T>(d: map<string, T>, f: string, k: int, n: string)
    requires -0x8000_0000 <= k < 0x8000_0000
    requires Apart(n, f, k) && n != Backup(f, Unsigned(k))
    ensures Same(RolloverFiles(d, f, k), n, d, n)
  {
    ShiftKeeps(Remove(d, Backup(f, Unsigned(k))), f, k - 1, n);
  }

  // ----- Everything in a directory -----

  ghost function AnyName<T>(d: map<string, T>): (n: string)
    requires d != map[]
    ensures n in d
  {
    var n :| n in d; n
  }

  /** The contents of all files together. */
  ghost function Everything<T>(d: map<string, seq<T>>): multiset<T>
    decreases |d|
  {
    if d == map[] then multiset{}
    else
      var n := AnyName(d);
      assert (d - {n}).Keys == d.Keys - {n};
      multiset(d[n]) + Everything(d - {n})
  }

  lemma {:induction false} EverythingBut<T>(d: map<string, seq<T>>, n: string)
    requires n in d
    ensures Everything(d) == multiset(d[n]) + Everything(d - {n})
    decreases |d|
  {
    var m := AnyName(d);
    if m != n {
      var e := d - {m};
      assert e.Keys == d.Keys - {m} && (d - {n}).Keys == d.Keys - {n};
      EverythingBut(e, n);
      EverythingBut(d - {n}, m);
      assert e - {n} == (d - {n}) - {m};
    }
  }

  lemma EverythingWith<T>(d: map<string, seq<T>>, n: string, content: seq<T>)
    requires n !in d
    ensures Everything(d[n := content]) == Everything(d) + multiset(content)
  {
    EverythingBut(d[n := content], n);
    assert d[n := content] - {n} == d;
  }

  lemma EverythingRenamed<T>(d: map<string, seq<T>>, a: string, b: string)
    requires b !in d
    ensures Everything(Rename(d, a, b)) == Everything(d)
  {
    if a in d {
      EverythingBut(d, a);
      EverythingWith(d - {a}, b, d[a]);
    }
  }

  /** A shift onto free names loses nothing. */
  lemma {:induction false} EverythingShifted<T>(d: map<string, seq<T>>, f: string, i: int)
    requires i >= 1 ==> Backup(f, i + 1) !in d
    ensures Everything(ShiftFrom(d, f, i)) == Everything(d)
    decreases i
  {
    if i >= 1 {
      BackupNames(f, i, i + 1);
      EverythingRenamed(d, Backup(f, i), Backup(f, i + 1));
      EverythingShifted(Rename(d, Backup(f, i), Backup(f, i + 1)), f, i - 1);
    }
  }

  /** rolloverFiles loses the contents of the last backup and nothing else. */
  lemma EverythingRolled<T>(d: map<string, seq<T>>, f: string, k: int)
    requires 1 <= k < 0x8000_0000
    ensures var last := Backup(f, k);
            Everything(d) == Everything(RolloverFiles(d, f, k)) + (if last in d then multiset(d[last]) else multiset{})
  {
    var last := Backup(f, k);
    var cut := Remove(d, last);
    if last in d { EverythingBut(d, last); } else { assert cut == d; }
    EverythingShifted(cut, f, k - 1);
    assert RolloverFiles(d, f, k) == ShiftFrom(cut, f, k - 1);
  }

  /** The directory as the running program sees it. */
  class FileSystem<T> {
    var disk: map<string, T>
    /** How many renames destroyed an existing file. */
    var clobbered: nat

    constructor (disk: map<string, T>)
      ensures this.disk == disk && clobbered == 0
    {
      this.disk := disk;
      clobbered := 0;
    }

    method FileRemove(name: string)
      modifies this
      ensures disk == Remove(old(disk), name) && clobbered == old(clobbered)
    {
      disk := disk - {name};
    }

    method FileRename(source: string, target: string)
      modifies this
      ensures disk == Rename(old(disk), source, target)
      ensures clobbered == old(clobbered) + (if source in old(disk) && target in old(disk) then 1 else 0)
    {
      if source in disk {
        if target in disk { clobbered := clobbered + 1; }
        disk := (disk - {source})[target := disk[source]];
      }
    }

    /** rolloverFiles: delete the oldest backup, then rename from the top down.  No rename lands on an
        existing file. */
    method ShiftBackups(filename: string, maxBackupIndex: int)
      requires -0x8000_0000 <= maxBackupIndex < 0x8000_0000
      modifies this
      ensures disk == RolloverFiles(old(disk), filename, maxBackupIndex)
      ensures clobbered == old(clobbered)
    {
      FileRemove(Backup(filename, Unsigned(maxBackupIndex)));
      var i := maxBackupIndex - 1;
      ghost var result := ShiftFrom(disk, filename, i);
      while i >= 1
        invariant i >= 1 ==> Backup(filename, i + 1) !in disk
        invariant ShiftFrom(disk, filename, i) == result && clobbered == old(clobbered)
      {
        BackupNames(filename, i, i + 1);
        FileRename(Backup(filename, i), Backup(filename, i + 1));
        i := i - 1;
      }
    }
  }
}
