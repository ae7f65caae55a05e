/**
 The mapped diagnostic context of one thread: a map for rendering, and for each key a
 stack of the values that pushes have covered.
 */
module MappedContext {
  import opened Wrappers

  datatype State = State(context: map<string, string>, stacks: map<string, seq<string>>) {
    function Value(k: string): Option<string> {
      if k in context then Some(context[k]) else None
    }
    function Stack(k: string): seq<string> {
      if k in stacks then stacks[k] else []
    }
  }

  datatype Op = Put(key: string, value: string) | Push(key: string, value: string) | Pop(key: string)

  /** A push saves the value it covers, if there is one; a pop brings back the saved value, or removes the key
      when none is saved. */
  function Do(st: State, op: Op): State {
    match op
    case Put(k, v) => st.(context := st.context[k := v])
    case Push(k, v) =>
      State(st.context[k := v],
            if k in st.context then st.stacks[k := st.Stack(k) + [st.context[k]]] else st.stacks)
    case Pop(k) =>
      var s := st.Stack(k);
      if s != [] then State(st.context[k := s[|s| - 1]], st.stacks[k := s[..|s| - 1]])
      else st.(context := st.context - {k})
  }

  function DoAll(st: State, ops: seq<Op>): State
    decreases |ops|
  {
    if ops == [] then st else DoAll(Do(st, ops[0]), ops[1..])
  }

  // ----- The invariant -----

  /** A key with saved values is present. */
  ghost predicate Inv(st: State) {
    forall k :: st.Stack(k) != [] ==> k in st.context
  }

  lemma DoKeepsInv(st: State, op: Op)
    requires Inv(st)
    ensures Inv(Do(st, op))
  {
    forall k | Do(st, op).Stack(k) != [] ensures k in Do(st, op).context {
      assert st.Stack(k) != [] ==> k in st.context;
    }
  }

  lemma {:induction false} RunKeepsInv(st: State, ops: seq<Op>)
    requires Inv(st)
    ensures Inv(DoAll(st, ops))
    decreases |ops|
  {
    if ops != [] {
      DoKeepsInv(st, ops[0]);
      RunKeepsInv(Do(st, ops[0]), ops[1..]);
    }
  }

  // ----- Brackets -----

  /** The pushes and pops of key k match, when d of its pushes are open at the start.  Those of other keys may
      come in any order. */
  predicate Nested(ops: seq<Op>, k: string, d: nat)
    decreases |ops|
  {
    if ops == [] then d == 0
    else if ops[0].key != k || ops[0].Put? then Nested(ops[1..], k, d)
    else if ops[0].Push? then Nested(ops[1..], k, d + 1)
    else d > 0 && Nested(ops[1..], k, d - 1)
  }

  predicate NoPut(ops: seq<Op>, k: string) {
    forall i :: 0 <= i < |ops| ==> !(ops[i].Put? && ops[i].key == k)
  }

  lemma OtherKey(st: State, op: Op, k: string)
    requires op.key != k
    ensures Do(st, op).Value(k) == st.Value(k) && Do(st, op).Stack(k) == st.Stack(k)
  {
  }

  lemma {:induction false} DoAllSplit(st: State, a: seq<Op>, b: seq<Op>)
    ensures DoAll(st, a + b) == DoAll(DoAll(st, a), b)
    decreases |a|
  {
    if a == [] {
      assert a + b == b;
    } else {
      assert (a + b)[1..] == a[1..] + b;
      DoAllSplit(Do(st, a[0]), a[1..], b);
    }
  }

  /** Inside a bracket the key stays present, and each matching pair leaves the saved values as they were. */
  lemma {:induction false} Inside(st: State, ops: seq<Op>, k: string, base: seq<string>, d: nat)
    requires k in st.context && |st.Stack(k)| == |base| + d && base <= st.Stack(k) && Nested(ops, k, d)
    ensures k in DoAll(st, ops).context && DoAll(st, ops).Stack(k) == base
    decreases |ops|
  {
    if ops != [] {
      var st1 := Do(st, ops[0]);
      if ops[0].key != k {
        OtherKey(st, ops[0], k);
        assert st1.Value(k) == st.Value(k);
        Inside(st1, ops[1..], k, base, d);
      } else if ops[0].Put? {
        Inside(st1, ops[1..], k, base, d);
      } else if ops[0].Push? {
        Inside(st1, ops[1..], k, base, d + 1);
      } else {
        Inside(st1, ops[1..], k, base, d - 1);
      }
    }
  }

  /** Whatever happens inside a bracket, and however other keys' brackets overlap it, the closing pop restores
      the key to its presence and value, and its saved values, before the push. */
  lemma BracketRestoresKey(st: State, k: string, v: string, ops: seq<Op>)
    requires Inv(st) && Nested(ops, k, 0)
    ensures var st' := DoAll(st, [Push(k, v)] + ops + [Pop(k)]);
            st'.Value(k) == st.Value(k) && st'.Stack(k) == st.Stack(k)
  {
    var st1 := Do(st, Push(k, v));
    var st2 := DoAll(st1, ops);
    assert DoAll(st, [Push(k, v)] + ops + [Pop(k)]) == Do(st2, Pop(k)) by {
      DoAllSplit(st, [Push(k, v)] + ops, [Pop(k)]);
      DoAllSplit(st, [Push(k, v)], ops);
      assert [Push(k, v)][1..] == [] && [Pop(k)][1..] == [];
    }
    Inside(st1, ops, k, st1.Stack(k), 0);
    if k in st.context {
      assert st1.Stack(k) == st.Stack(k) + [st.context[k]];
    } else {
      assert st.Stack(k) == [];
    }
  }

  // ----- Without puts the whole context comes back -----

  /** The saved values of the open pushes, where those that covered nothing saved nothing. */
  function Saved(frames: seq<Option<string>>): seq<string> {
    if frames == [] then []
    else Saved(frames[..|frames| - 1]) + (match frames[|frames| - 1] case Some(v) => [v] case None => [])
  }

  /** Only the first open push can have covered nothing, and then nothing was saved before it. */
  ghost predicate Frames(st: State, k: string, base: seq<string>, frames: seq<Option<string>>) {
    && st.Stack(k) == base + Saved(frames)
    && (frames != [] ==> k in st.context)
    && (k !in st.context ==> base == [])
    && (forall i :: 0 <= i < |frames| && frames[i] == None ==> i == 0 && base == [])
  }

  lemma PopFrame(st: State, k: string, base: seq<string>, frames: seq<Option<string>>)
    requires Frames(st, k, base, frames) && frames != []
    ensures var st', n := Do(st, Pop(k)), |frames| - 1;
            Frames(st', k, base, frames[..n]) && st'.Value(k) == frames[n]
  {
    var n := |frames| - 1;
    var s := st.Stack(k);
    match frames[n]
    case Some(v) =>
      assert s == (base + Saved(frames[..n])) + [v];
      assert s[..|s| - 1] == base + Saved(frames[..n]);
    case None =>
      assert n == 0 && frames[..0] == [];
      assert Saved(frames[..0]) == [] && Saved(frames) == Saved(frames[..0]) + [];
      assert s == [];
  }

  lemma PushFrame(st: State, k: string, v: string, base: seq<string>, frames: seq<Option<string>>)
    requires Frames(st, k, base, frames)
    ensures Frames(Do(st, Push(k, v)), k, base, frames + [st.Value(k)])
  {
    var fs := frames + [st.Value(k)];
    assert fs[..|frames|] == frames;
    if k in st.context {
      assert base + Saved(frames) + [st.context[k]] == base + Saved(fs);
    } else {
      assert frames == [];
    }
  }

  lemma {:induction false} KeyRestored(st: State, ops: seq<Op>, k: string, base: seq<string>, frames: seq<Option<string>>)
    requires Frames(st, k, base, frames) && Nested(ops, k, |frames|) && NoPut(ops, k)
    ensures var st' := DoAll(st, ops);
            st'.Value(k) == (if frames == [] then st.Value(k) else frames[0]) && st'.Stack(k) == base
    decreases |ops|
  {
    if ops == [] {
      assert base + [] == base;
    } else {
      var st1 := Do(st, ops[0]);
      assert !(ops[0].Put? && ops[0].key == k);
      assert NoPut(ops[1..], k) by {
        forall i | 0 <= i < |ops[1..]| ensures !(ops[1..][i].Put? && ops[1..][i].key == k) {
          assert ops[1..][i] == ops[i + 1];
        }
      }
      if ops[0].key != k {
        OtherKey(st, ops[0], k);
        assert st1.Value(k) == st.Value(k);
        KeyRestored(st1, ops[1..], k, base, frames);
      } else if ops[0].Push? {
        PushFrame(st, k, ops[0].value, base, frames);
        KeyRestored(st1, ops[1..], k, base, frames + [st.Value(k)]);
      } else {
        PopFrame(st, k, base, frames);
        KeyRestored(st1, ops[1..], k, base, frames[..|frames| - 1]);
      }
    }
  }

  /** A sequence without puts whose pushes and pops match, key by key, restores the whole context. */
  lemma WholeContextRestored(st: State, ops: seq<Op>)
    requires Inv(st) && forall k :: Nested(ops, k, 0) && NoPut(ops, k)
    ensures DoAll(st, ops).context == st.context
    ensures forall k :: DoAll(st, ops).Stack(k) == st.Stack(k)
  {
    var st' := DoAll(st, ops);
    forall k ensures st'.Value(k) == st.Value(k) && st'.Stack(k) == st.Stack(k) {
      assert Nested(ops, k, 0) && NoPut(ops, k);
      assert st.Stack(k) + [] == st.Stack(k);
      KeyRestored(st, ops, k, st.Stack(k), []);
    }
    forall k ensures k in st'.context <==> k in st.context { assert st'.Value(k) == st.Value(k); }
    forall k | k in st.context ensures k in st'.context && st'.context[k] == st.context[k] {
      assert st'.Value(k) == st.Value(k);
    }
  }

  // ----- What is read back -----

  /** A key reads as a push or a put left it whenever its pushes and pops since then match; those of other keys
      may come in any order. */
  lemma ValueVisible(st: State, op: Op, ops: seq<Op>)
    requires Inv(st) && !op.Pop? && Nested(ops, op.key, 0) && NoPut(ops, op.key)
    ensures DoAll(st, [op] + ops).Value(op.key) == Some(op.value)
  {
    var st1 := Do(st, op);
    assert ([op] + ops)[1..] == ops;
    assert st1.Stack(op.key) + [] == st1.Stack(op.key);
    KeyRestored(st1, ops, op.key, st1.Stack(op.key), []);
  }

  /** Untouched since, a key has the value last written to it, whatever came before. */
  lemma LastWriteHolds(st: State, before: seq<Op>, op: Op, after: seq<Op>)
    requires Inv(st) && !op.Pop? && forall i :: 0 <= i < |after| ==> after[i].key != op.key
    ensures DoAll(st, before + ([op] + after)).Value(op.key) == Some(op.value)
  {
    RunKeepsInv(st, before);
    DoAllSplit(st, before, [op] + after);
    OthersNest(after, op.key);
    ValueVisible(DoAll(st, before), op, after);
  }

  lemma {:induction false} OthersNest(ops: seq<Op>, k: string)
    requires forall i :: 0 <= i < |ops| ==> ops[i].key != k
    ensures Nested(ops, k, 0) && NoPut(ops, k)
    decreases |ops|
  {
    if ops != [] { OthersNest(ops[1..], k); }
  }

  /** The simplest account of one key: a pile of cells over one that may be empty.  A put writes the top cell, a
      push adds one, a pop takes one away, or empties the last. */
  function Cells(ops: seq<Op>, k: string): (cells: seq<Option<string>>)
    ensures cells != []
  {
    if ops == [] then [None]
    else
      var cells, op := Cells(ops[..|ops| - 1], k), ops[|ops| - 1];
      var n := |cells| - 1;
      if op.key != k then cells
      else match op
        case Put(_, v) => cells[n := Some(v)]
        case Push(_, v) => cells + [Some(v)]
        case Pop(_) => if n > 0 then cells[..n] else [None]
  }

  /** Only the last cell can be empty, and what is saved is what the cells under the top one hold. */
  ghost predicate Piled(st: State, k: string, cells: seq<Option<string>>) {
    && cells != [] && st.Value(k) == cells[|cells| - 1]
    && (forall i :: 0 < i < |cells| ==> cells[i].Some?)
    && st.Stack(k) == Saved(cells[..|cells| - 1])
  }

  lemma PiledPush(st: State, k: string, v: string, cells: seq<Option<string>>)
    requires Piled(st, k, cells)
    ensures Piled(Do(st, Push(k, v)), k, cells + [Some(v)])
  {
    assert (cells + [Some(v)])[..|cells|] == cells;
  }

  lemma PiledPut(st: State, k: string, v: string, cells: seq<Option<string>>)
    requires Piled(st, k, cells)
    ensures Piled(Do(st, Put(k, v)), k, cells[|cells| - 1 := Some(v)])
  {
    var n := |cells| - 1;
    assert cells[n := Some(v)][..n] == cells[..n];
  }

  lemma PiledPop(st: State, k: string, cells: seq<Option<string>>)
    requires Piled(st, k, cells)
    ensures Piled(Do(st, Pop(k)), k, if |cells| > 1 then cells[..|cells| - 1] else [None])
  {
    var n := |cells| - 1;
    if n > 0 {
      var under := cells[..n];
      assert under[..n - 1] == cells[..n - 1] && under[n - 1] == cells[n - 1];
      if n - 1 > 0 { assert cells[n - 1].Some?; }
      if cells[n - 1].None? { assert cells[..0] == []; }
    }
  }

  /** In every run every key reads as the top cell of its pile. */
  lemma {:induction false} RunRefinesCells(ops: seq<Op>, k: string)
    ensures Piled(DoAll(State(map[], map[]), ops), k, Cells(ops, k))
  {
    var start := State(map[], map[]);
    if ops != [] {
      var front, op := ops[..|ops| - 1], ops[|ops| - 1];
      RunRefinesCells(front, k);
      DoAllSplit(start, front, [op]);
      assert front + [op] == ops && [op][1..] == [];
      var st, cells := DoAll(start, front), Cells(front, k);
      assert DoAll(start, ops) == Do(st, op);
      if op.key != k {
        OtherKey(st, op, k);
      } else {
        match op
        case Put(_, v) => PiledPut(st, k, v, cells);
        case Push(_, v) => PiledPush(st, k, v, cells);
        case Pop(_) => PiledPop(st, k, cells);
      }
    }
  }

  // ----- The context as it is updated in place -----

  class MDC {
    var contextMap: map<string, string>
    var stacksMap: map<string, seq<string>>

    ghost function View(): State
      reads this
    {
      State(contextMap, stacksMap)
    }

    constructor ()
      ensures View() == State(map[], map[]) && Inv(View())
    {
      contextMap, stacksMap := map[], map[];
    }

    method InsertOrAssign(key: string, value: string) returns (previous: Option<string>)
      modifies this`contextMap
      ensures contextMap == old(contextMap)[key := value] && previous == old(View()).Value(key)
    {
      if key !in contextMap {
        previous := None;
      } else {
        previous := Some(contextMap[key]);
      }
      contextMap := contextMap[key := value];
    }

    method PushToStack(key: string, value: string)
      modifies this`stacksMap
      ensures stacksMap == old(stacksMap)[key := old(View()).Stack(key) + [value]]
    {
      if key in stacksMap {
        stacksMap := stacksMap[key := stacksMap[key] + [value]];
      } else {
        assert [] + [value] == [value];
        stacksMap := stacksMap[key := [value]];
      }
    }

    method Put(key: string, value: string)
      modifies this
      ensures View() == Do(old(View()), Op.Put(key, value))
    {
      var _ := InsertOrAssign(key, value);
    }

    method Push(key: string, value: string)
      modifies this
      ensures View() == Do(old(View()), Op.Push(key, value))
    {
      var previous := InsertOrAssign(key, value);
      if previous.Some? {
        PushToStack(key, previous.value);
      }
    }

    method Pop(key: string)
      modifies this
      ensures View() == Do(old(View()), Op.Pop(key))
    {
      if key in stacksMap {
        var stack := stacksMap[key];
        if stack != [] {
          var _ := InsertOrAssign(key, stack[|stack| - 1]);
          stacksMap := stacksMap[key := stack[..|stack| - 1]];
          return;
        }
      }
      contextMap := contextMap - {key};
    }
  }
}
