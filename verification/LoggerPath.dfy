/**
 What the two walks of a logging call find, said on the path from a logger up
 to the root, and which calls decide what stands on that path.
 */
module LoggerPath {
  import opened LoggerTree
  import opened LoggerChain

  /** The loggers from q along the parent links, up to and including the root. */
  ghost predicate IsPath(h: Loggers, q: Parent, path: seq<Parent>)
    requires Valid(h)
  {
    && path != [] && path[0] == q && path[|path| - 1] == Root
    && (forall i :: 0 <= i < |path| ==> Known(h, path[i]))
    && (forall i :: 0 <= i < |path| - 1 ==> path[i].Of? && path[i + 1] == h.tree.parent[path[i].name])
  }

  lemma PathTail(h: Loggers, q: Parent, path: seq<Parent>)
    requires Valid(h) && IsPath(h, q, path) && q.Of?
    ensures |path| > 1 && IsPath(h, h.tree.parent[q.name], path[1..])
  {
  }

  /** Every logger has a path. */
  lemma {:induction false} PathExists(h: Loggers, q: Parent) returns (path: seq<Parent>)
    requires Valid(h) && Known(h, q)
    ensures IsPath(h, q, path)
    decreases Height(q)
  {
    if q.Root? {
      path := [q];
    } else {
      var rest := PathExists(h, h.tree.parent[q.name]);
      path := [q] + rest;
    }
  }

  /** And only one. */
  lemma {:induction false} PathUnique(h: Loggers, q: Parent, a: seq<Parent>, b: seq<Parent>)
    requires Valid(h) && IsPath(h, q, a) && IsPath(h, q, b)
    ensures a == b
    decreases |a|
  {
    if q.Root? {
      assert |a| == 1 && |b| == 1;
    } else {
      PathTail(h, q, a);
      PathTail(h, q, b);
      PathUnique(h, h.tree.parent[q.name], a[1..], b[1..]);
      assert a == [q] + a[1..] && b == [q] + b[1..];
    }
  }

  // ----- The effective level -----

  /** The first logger of the path that has a level is at k; without one k is the root's place. */
  ghost predicate LevelAt(h: Loggers, path: seq<Parent>, k: nat)
    requires k < |path| && forall i :: 0 <= i < |path| ==> Known(h, path[i])
  {
    && (forall i :: 0 <= i < k ==> NodeOf(h, path[i]).level == NOT_SET_LOG_LEVEL)
    && (NodeOf(h, path[k]).level != NOT_SET_LOG_LEVEL || k == |path| - 1)
  }

  /** The effective level is that of the first logger on the path, the logger itself included, that has one. */
  lemma {:induction false} LevelOnPath(h: Loggers, q: Parent, path: seq<Parent>, k: nat)
    requires Valid(h) && IsPath(h, q, path) && k < |path| && LevelAt(h, path, k)
    ensures Level(h, q) == NodeOf(h, path[k]).level
    decreases k
  {
    if k > 0 {
      assert NodeOf(h, path[0]).level == NOT_SET_LOG_LEVEL && path[0].Of?;
      PathTail(h, q, path);
      LevelOnPath(h, path[1], path[1..], k - 1);
    }
  }

  // ----- The appenders -----

  /** The walk ends at k: every logger before it is additive, and it is not, or it is the root. */
  ghost predicate StopsAt(h: Loggers, path: seq<Parent>, k: nat)
    requires k < |path| && forall i :: 0 <= i < |path| ==> Known(h, path[i])
  {
    && (forall i :: 0 <= i < k ==> NodeOf(h, path[i]).additive)
    && (!NodeOf(h, path[k]).additive || k == |path| - 1)
  }

  function AppendersOf(h: Loggers, part: seq<Parent>): seq<Appender>
    requires forall i :: 0 <= i < |part| ==> Known(h, part[i])
  {
    if part == [] then [] else NodeOf(h, part[0]).appenders + AppendersOf(h, part[1..])
  }

  /** An event reaches the appenders of the loggers up to and including the first that is not additive, in path
      order and in each logger's own order. */
  lemma {:induction false} ReachedOnPath(h: Loggers, q: Parent, path: seq<Parent>, k: nat)
    requires Valid(h) && IsPath(h, q, path) && k < |path| && StopsAt(h, path, k)
    ensures Reached(h, q) == AppendersOf(h, path[..k + 1])
    decreases k
  {
    var part := path[..k + 1];
    assert part[0] == q && part[1..] == path[1..][..k];
    if k == 0 {
      assert AppendersOf(h, part[1..]) == [];
    } else {
      assert NodeOf(h, path[0]).additive && path[0].Of?;
      PathTail(h, q, path);
      ReachedOnPath(h, path[1], path[1..], k - 1);
    }
  }

  lemma {:induction false} SamePart(h: Loggers, r: Loggers, part: seq<Parent>)
    requires forall i :: 0 <= i < |part| ==> Known(h, part[i]) && Known(r, part[i])
    requires forall i :: 0 <= i < |part| ==> NodeOf(h, part[i]).appenders == NodeOf(r, part[i]).appenders
    ensures AppendersOf(h, part) == AppendersOf(r, part)
  {
    if part != [] { SamePart(h, r, part[1..]); }
  }

  /** No setting of any logger above the one where the walk ends, nor of any logger off the path, makes a difference
      to what an event reaches. */
  lemma OnlyThePathMatters(h: Loggers, r: Loggers, q: Parent, path: seq<Parent>, k: nat)
    requires Valid(h) && Valid(r) && r.tree == h.tree
    requires IsPath(h, q, path) && k < |path| && StopsAt(h, path, k)
    requires forall i :: 0 <= i <= k ==> NodeOf(r, path[i]) == NodeOf(h, path[i])
    ensures Reached(r, q) == Reached(h, q)
  {
    assert IsPath(r, q, path) && StopsAt(r, path, k);
    ReachedOnPath(h, q, path, k);
    ReachedOnPath(r, q, path, k);
    SamePart(h, r, path[..k + 1]);
  }

  // ----- Which calls decide a logger's settings -----

  predicate SetsLevel(op: Op, q: Parent) {
    op.ResetConfiguration? || (op.SetLevel? && op.logger == q)
  }

  predicate SetsAdditivity(op: Op, q: Parent) {
    op.ResetConfiguration? || (op.SetAdditivity? && op.logger == q)
  }

  predicate DropsAppenders(op: Op, q: Parent) {
    op.ResetConfiguration? || (op.RemoveAllAppenders? && op.logger == q)
  }

  predicate NoRepeats(s: seq<Appender>) {
    forall i, j :: 0 <= i < j < |s| ==> s[i] != s[j]
  }

  lemma StepKeeps(h: Loggers, op: Op, q: Parent)
    requires Valid(h) && Known(h, q)
    ensures var r := Do(h, op);
            && Known(r, q)
            && (!SetsLevel(op, q) ==> NodeOf(r, q).level == NodeOf(h, q).level)
            && (!SetsAdditivity(op, q) ==> NodeOf(r, q).additive == NodeOf(h, q).additive)
  {
  }

  lemma StepAppenders(h: Loggers, op: Op, q: Parent)
    requires Valid(h) && Known(h, q) && !DropsAppenders(op, q)
    ensures Known(Do(h, op), q)
    ensures var was, now := NodeOf(h, q).appenders, NodeOf(Do(h, op), q).appenders;
            && was <= now && (NoRepeats(was) ==> NoRepeats(now))
            && forall a :: a in now <==> a in was || op == AddAppender(q, a)
  {
  }

  /** A level holds until the next call that sets that logger's level or resets the configuration. */
  lemma {:induction false} LevelStays(h: Loggers, q: Parent, level: int, ops: seq<Op>)
    requires Valid(h) && Known(h, q) && NodeOf(h, q).level == level
    requires forall i :: 0 <= i < |ops| ==> !SetsLevel(ops[i], q)
    ensures var r := DoAll(h, ops); Known(r, q) && NodeOf(r, q).level == level
    decreases |ops|
  {
    if ops != [] {
      DoKeepsValid(h, ops[0]);
      StepKeeps(h, ops[0], q);
      LevelStays(Do(h, ops[0]), q, level, ops[1..]);
    }
  }

  lemma {:induction false} AdditivityStays(h: Loggers, q: Parent, additive: bool, ops: seq<Op>)
    requires Valid(h) && Known(h, q) && NodeOf(h, q).additive == additive
    requires forall i :: 0 <= i < |ops| ==> !SetsAdditivity(ops[i], q)
    ensures var r := DoAll(h, ops); Known(r, q) && NodeOf(r, q).additive == additive
    decreases |ops|
  {
    if ops != [] {
      DoKeepsValid(h, ops[0]);
      StepKeeps(h, ops[0], q);
      AdditivityStays(Do(h, ops[0]), q, additive, ops[1..]);
    }
  }

  /** The level and the additivity a logger was given last are those it has. */
  lemma {:induction false} LastSettingHolds(h: Loggers, q: Parent, level: int, additive: bool, ops: seq<Op>)
    requires Valid(h) && Known(h, q)
    ensures (forall i :: 0 <= i < |ops| ==> !SetsLevel(ops[i], q)) ==>
              var r := DoAll(h, [SetLevel(q, level)] + ops); Known(r, q) && NodeOf(r, q).level == level
    ensures (forall i :: 0 <= i < |ops| ==> !SetsAdditivity(ops[i], q)) ==>
              var r := DoAll(h, [SetAdditivity(q, additive)] + ops); Known(r, q) && NodeOf(r, q).additive == additive
  {
    var l, a := SetLevel(q, level), SetAdditivity(q, additive);
    DoKeepsValid(h, l);
    DoKeepsValid(h, a);
    assert ([l] + ops)[1..] == ops && ([a] + ops)[1..] == ops;
    if forall i :: 0 <= i < |ops| ==> !SetsLevel(ops[i], q) { LevelStays(Do(h, l), q, level, ops); }
    if forall i :: 0 <= i < |ops| ==> !SetsAdditivity(ops[i], q) { AdditivityStays(Do(h, a), q, additive, ops); }
  }

  /** Between two removals a logger's appenders are those it had and then those added to it, each once and in the
      order they came. */
  lemma {:induction false} AppendersAccumulate(h: Loggers, q: Parent, ops: seq<Op>)
    requires Valid(h) && Known(h, q)
    requires forall i :: 0 <= i < |ops| ==> !DropsAppenders(ops[i], q)
    ensures Known(DoAll(h, ops), q)
    ensures var was, now := NodeOf(h, q).appenders, NodeOf(DoAll(h, ops), q).appenders;
            && was <= now && (NoRepeats(was) ==> NoRepeats(now))
            && forall a :: a in now <==> a in was || AddAppender(q, a) in ops
    decreases |ops|
  {
    if ops != [] {
      DoKeepsValid(h, ops[0]);
      StepAppenders(h, ops[0], q);
      AppendersAccumulate(Do(h, ops[0]), q, ops[1..]);
      forall a ensures AddAppender(q, a) in ops <==> ops[0] == AddAppender(q, a) || AddAppender(q, a) in ops[1..] {
        assert ops == [ops[0]] + ops[1..];
      }
    }
  }

  /** After a removal a logger has those appenders that were added to it since, and no others. */
  lemma {:induction false} AddedSinceRemoval(h: Loggers, q: Parent, ops: seq<Op>)
    requires Valid(h) && Known(h, q)
    requires forall i :: 0 <= i < |ops| ==> !DropsAppenders(ops[i], q)
    ensures var r := DoAll(h, [RemoveAllAppenders(q)] + ops);
            && Known(r, q) && NoRepeats(NodeOf(r, q).appenders)
            && forall a :: a in NodeOf(r, q).appenders <==> AddAppender(q, a) in ops
  {
    var op := RemoveAllAppenders(q);
    DoKeepsValid(h, op);
    assert ([op] + ops)[1..] == ops;
    AppendersAccumulate(Do(h, op), q, ops);
  }
}
