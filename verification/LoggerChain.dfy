/**
 Levels, additivity and appenders of the loggers, and the two walks along the
 parent links that every logging call makes: the effective level and the
 appenders an event reaches.
 */
module LoggerChain {
  import opened LoggerTree

  const NOT_SET_LOG_LEVEL := -1
  const DEBUG_LOG_LEVEL := 10000

  type Appender = nat

  datatype Node = Node(level: int, additive: bool, appenders: seq<Appender>)

  /** A logger as the default factory makes it. */
  const Fresh := Node(NOT_SET_LOG_LEVEL, true, [])

  datatype Loggers = Loggers(tree: Tree, root: Node, nodes: map<string, Node>)

  /** Parent links lead to existing loggers with shorter names, or to the root. */
  predicate Rooted(t: Tree) {
    forall n :: n in t.parent && t.parent[n].Of? ==> t.parent[n].name in t.parent && DottedPrefix(t.parent[n].name, n)
  }

  ghost predicate TreeValid(t: Tree) {
    "" !in t.parent && WaitingKnown(t) && WaitingSound(t) && Rooted(t)
  }

  ghost predicate Valid(h: Loggers) {
    TreeValid(h.tree) && h.nodes.Keys == h.tree.parent.Keys
  }

  predicate Known(h: Loggers, q: Parent) {
    q.Root? || q.name in h.nodes
  }

  function NodeOf(h: Loggers, q: Parent): Node
    requires Known(h, q)
  {
    if q.Root? then h.root else h.nodes[q.name]
  }

  function Height(q: Parent): nat {
    if q.Root? then 0 else |q.name| + 1
  }

  /** LoggerImpl::getChainedLogLevel; NOT_SET_LOG_LEVEL where it finds no level. */
  ghost function Level(h: Loggers, q: Parent): int
    requires Valid(h) && Known(h, q)
    decreases Height(q)
  {
    var node := NodeOf(h, q);
    if node.level != NOT_SET_LOG_LEVEL || q.Root? then node.level else Level(h, h.tree.parent[q.name])
  }

  /** The appenders LoggerImpl::callAppenders hands the event to, in order. */
  ghost function Reached(h: Loggers, q: Parent): seq<Appender>
    requires Valid(h) && Known(h, q)
    decreases Height(q)
  {
    var node := NodeOf(h, q);
    if !node.additive || q.Root? then node.appenders else node.appenders + Reached(h, h.tree.parent[q.name])
  }

  lemma {:induction false} LevelIsSet(h: Loggers, q: Parent)
    requires Valid(h) && Known(h, q) && h.root.level != NOT_SET_LOG_LEVEL
    ensures Level(h, q) != NOT_SET_LOG_LEVEL
    decreases Height(q)
  {
    if q.Of? && h.nodes[q.name].level == NOT_SET_LOG_LEVEL {
      LevelIsSet(h, h.tree.parent[q.name]);
    }
  }

  /** Every walk finds a level exactly when the root has one. */
  lemma LevelsSetIff(h: Loggers)
    requires Valid(h)
    ensures (forall q :: Known(h, q) ==> Level(h, q) != NOT_SET_LOG_LEVEL) <==> h.root.level != NOT_SET_LOG_LEVEL
  {
    if h.root.level != NOT_SET_LOG_LEVEL {
      forall q | Known(h, q) ensures Level(h, q) != NOT_SET_LOG_LEVEL { LevelIsSet(h, q); }
    } else {
      assert Known(h, Root) && Level(h, Root) == NOT_SET_LOG_LEVEL;
    }
  }

  // ----- Operations -----

  /** The calls that a program makes through Logger handles.  These bind to LoggerImpl::setLogLevel even for the
      root, whose own version of it, which refuses NOT_SET_LOG_LEVEL, is not virtual. */
  datatype Op =
    | Create(name: string)
    | SetLevel(logger: Parent, level: int)
    | SetAdditivity(logger: Parent, additive: bool)
    | AddAppender(logger: Parent, appender: Appender)
    | RemoveAllAppenders(logger: Parent)
    | ResetConfiguration

  function SetNode(h: Loggers, q: Parent, node: Node): Loggers
    requires Known(h, q)
  {
    if q.Root? then h.(root := node) else h.(nodes := h.nodes[q.name := node])
  }

  /** Hierarchy::getInstance with the default factory. */
  ghost function CreateLogger(h: Loggers, x: string): Loggers
    requires Valid(h)
  {
    Loggers(GetInstance(h.tree, x), h.root,
            if x == "" || x in h.nodes then h.nodes else h.nodes[x := Fresh])
  }

  ghost function Do(h: Loggers, op: Op): Loggers
    requires Valid(h)
  {
    match op
    case Create(x) => CreateLogger(h, x)
    case SetLevel(q, l) =>
      if !Known(h, q) then h else SetNode(h, q, NodeOf(h, q).(level := l))
    case SetAdditivity(q, b) => if !Known(h, q) then h else SetNode(h, q, NodeOf(h, q).(additive := b))
    case AddAppender(q, a) =>
      if !Known(h, q) || a in NodeOf(h, q).appenders then h
      else SetNode(h, q, NodeOf(h, q).(appenders := NodeOf(h, q).appenders + [a]))
    case RemoveAllAppenders(q) => if !Known(h, q) then h else SetNode(h, q, NodeOf(h, q).(appenders := []))
    case ResetConfiguration =>
      Loggers(h.tree, h.root.(level := DEBUG_LOG_LEVEL, appenders := []), map n | n in h.nodes :: Fresh)
  }

  lemma KeptOrAdopted(t: Tree, x: string, n: string)
    requires TreeValid(t) && x !in t.parent && n in t.parent
    ensures var q := WithChildren(t, x).parent[n]; q == t.parent[n] || (q == Of(x) && DottedPrefix(x, n))
  {
    if x in t.waiting { LinkChildrenEffect(t.parent[x := Root], t.waiting[x], x, n); }
  }

  lemma LinksStayRooted(before: Tree, after: Tree, x: string)
    requires Rooted(before) && after.parent.Keys == before.parent.Keys + {x}
    requires IsNearest(after.parent.Keys, x, after.parent[x])
    requires forall n :: n in before.parent ==>
                           after.parent[n] == before.parent[n] || (after.parent[n] == Of(x) && DottedPrefix(x, n))
    ensures Rooted(after)
  {
  }

  lemma GetInstanceRooted(t: Tree, x: string)
    requires TreeValid(t) && x != "" && x !in t.parent
    ensures TreeValid(GetInstance(t, x)) && GetInstance(t, x).parent.Keys == t.parent.Keys + {x}
  {
    NewLinks(t, x);
    WaitingStaysSound(t, x);
    var r := GetInstance(t, x);
    assert Rooted(r) by {
      forall n | n in t.parent
        ensures r.parent[n] == t.parent[n] || (r.parent[n] == Of(x) && DottedPrefix(x, n))
      {
        KeptOrAdopted(t, x, n);
      }
      LinksStayRooted(t, r, x);
    }
  }

  lemma DoKeepsValid(h: Loggers, op: Op)
    requires Valid(h)
    ensures Valid(Do(h, op))
  {
    if op.Create? && op.name != "" && op.name !in h.nodes { GetInstanceRooted(h.tree, op.name); }
  }

  ghost function DoAll(h: Loggers, ops: seq<Op>): (r: Loggers)
    requires Valid(h)
    ensures Valid(r)
    decreases |ops|
  {
    if ops == [] then h else DoKeepsValid(h, ops[0]); DoAll(Do(h, ops[0]), ops[1..])
  }

  const Initial := Loggers(Empty, Node(DEBUG_LOG_LEVEL, true, []), map[])

  /** The level a run leaves the root with. */
  function RootLevel(ops: seq<Op>): int {
    if ops == [] then DEBUG_LOG_LEVEL
    else match ops[|ops| - 1]
      case SetLevel(Root, l) => l
      case ResetConfiguration => DEBUG_LOG_LEVEL
      case _ => RootLevel(ops[..|ops| - 1])
  }

  lemma {:induction false} DoAllSnoc(h: Loggers, ops: seq<Op>, op: Op)
    requires Valid(h)
    ensures Valid(DoAll(h, ops)) && DoAll(h, ops + [op]) == Do(DoAll(h, ops), op)
    decreases |ops|
  {
    if ops == [] {
      DoKeepsValid(h, op);
      assert ops + [op] == [op] && [op][1..] == [];
      assert DoAll(h, [op]) == DoAll(Do(h, op), []);
    } else {
      DoKeepsValid(h, ops[0]);
      assert (ops + [op])[0] == ops[0] && (ops + [op])[1..] == ops[1..] + [op];
      DoAllSnoc(Do(h, ops[0]), ops[1..], op);
    }
  }

  lemma {:induction false} RootLevelOfRun(ops: seq<Op>)
    ensures DoAll(Initial, ops).root.level == RootLevel(ops)
  {
    if ops == [] {
      assert DoAll(Initial, []) == Initial;
    } else {
      var front, last := ops[..|ops| - 1], ops[|ops| - 1];
      RootLevelOfRun(front);
      assert ops == front + [last];
      DoAllSnoc(Initial, front, last);
      RootLevelStep(DoAll(Initial, front), last);
    }
  }

  lemma RootLevelStep(h: Loggers, op: Op)
    requires Valid(h)
    ensures Do(h, op).root.level
            == match op case SetLevel(Root, l) => l case ResetConfiguration => DEBUG_LOG_LEVEL case _ => h.root.level
  {
  }

  /** After any run of creations, level, additivity and appender changes and resets, every walk ends, and every
      one finds a level exactly when the root was not left without. */
  lemma RunHasLevelsIff(ops: seq<Op>)
    ensures var h := DoAll(Initial, ops);
            (forall q :: Known(h, q) ==> Level(h, q) != NOT_SET_LOG_LEVEL) <==> RootLevel(ops) != NOT_SET_LOG_LEVEL
  {
    RootLevelOfRun(ops);
    LevelsSetIff(DoAll(Initial, ops));
  }

  // ----- Creation is transparent -----

  /** An existing logger keeps its parent, or the new logger slipped in between the two. */
  ghost predicate Slips(t: Tree, x: string, n: string)
    requires WaitingKnown(t) && n in t.parent
  {
    var r := GetInstance(t, x);
    && n in r.parent && (x != "" ==> x in r.parent)
    && (r.parent[n] == t.parent[n] || (x != "" && r.parent[n] == Of(x) && r.parent[x] == t.parent[n]))
  }

  /** The new logger comes under "r", "ro" or "roo", and one below it hangs off the root. */
  ghost predicate Bypassed(t: Tree, x: string) {
    && x != "" && x !in t.parent
    && (exists p :: Rootish(p) && IsNearest(t.parent.Keys, x, Of(p)))
    && (exists n :: n in t.parent && DottedPrefix(x, n) && t.parent[n] == Root)
  }

  lemma SlippedIn(t: Tree, x: string, n: string)
    requires Loose(t) && n in t.parent && !Bypassed(t, x)
    ensures Slips(t, x, n)
  {
    if x != "" && x !in t.parent {
      NewLinks(t, x);
      ChildLink(t, x, n);
      var keys, r, q := t.parent.Keys, GetInstance(t, x), t.parent[n];
      if r.parent[n] != q {
        if PastRootish(keys, n, q) {
          var p :| Rootish(p) && IsNearest(keys, n, Of(p));
          NearestBeyond(keys, x, n, Of(p));
        } else {
          NearestBeyond(keys, x, n, q);
          NearestUnique(r.parent.Keys, x, q, r.parent[x]);
        }
      }
    }
  }

  /** What becomes of the logger that hangs off the root: it moves under the new one, and so under p. */
  lemma BypassMoves(t: Tree, x: string, p: string, n: string)
    requires Loose(t) && x != "" && x !in t.parent && Rootish(p) && IsNearest(t.parent.Keys, x, Of(p))
    requires n in t.parent && DottedPrefix(x, n) && t.parent[n] == Root
    ensures var r := GetInstance(t, x); n in r.parent && r.parent[n] == Of(x) && x in r.parent && r.parent[x] == Of(p)
  {
    var keys := t.parent.Keys;
    assert DottedPrefix(p, n);
    assert !IsNearest(keys, n, Root);
    var p' :| Rootish(p') && IsNearest(keys, n, Of(p'));
    PrefixesNest(p, p', n);
    NotBelowRootish(p', p);
    assert IsNearest(keys + {x}, n, Of(x));
    ProperPrefixOfRoot(x);
    assert !Rootish(x) by { if Rootish(x) { NotBelowRootish(x, p); } }
    NewLinks(t, x);
    ChildLink(t, x, n);
    NearestUnique(GetInstance(t, x).parent.Keys, x, GetInstance(t, x).parent[x], Of(p));
  }

  /** The new logger comes between each adopted logger and its old parent exactly when none is bypassed. */
  lemma SlippedInIff(t: Tree, x: string)
    requires Loose(t)
    ensures (forall n :: n in t.parent ==> Slips(t, x, n)) <==> !Bypassed(t, x)
  {
    if Bypassed(t, x) {
      var p :| Rootish(p) && IsNearest(t.parent.Keys, x, Of(p));
      var n :| n in t.parent && DottedPrefix(x, n) && t.parent[n] == Root;
      BypassMoves(t, x, p, n);
      assert !Slips(t, x, n);
    } else {
      forall n | n in t.parent ensures Slips(t, x, n) { SlippedIn(t, x, n); }
    }
  }

  /** If x becomes the nearest prefix of n, what was nearest to n before is nearest to x. */
  lemma NearestBeyond(keys: set<string>, x: string, n: string, q: Parent)
    requires x !in keys && IsNearest(keys, n, q) && IsNearest(keys + {x}, n, Of(x))
    ensures IsNearest(keys + {x}, x, q)
  {
    forall p | p in keys ensures DottedPrefix(p, x) <==> (DottedPrefix(p, n) && |p| < |x|) {
      if DottedPrefix(p, n) { PrefixesNest(p, x, n); }
    }
    if q.Of? { PrefixesNest(q.name, x, n); }
  }

  /** r is h with a fresh logger x slipped into the chains. */
  ghost predicate Extends(h: Loggers, r: Loggers, x: string) {
    && x !in h.nodes && r.root == h.root && r.nodes == h.nodes[x := Fresh]
    && r.nodes.Keys == r.tree.parent.Keys && h.nodes.Keys == h.tree.parent.Keys
    && forall n :: n in h.nodes ==>
                     r.tree.parent[n] == h.tree.parent[n] || (r.tree.parent[n] == Of(x) && r.tree.parent[x] == h.tree.parent[n])
  }

  lemma {:induction false} SameWalks(h: Loggers, r: Loggers, x: string, q: Parent)
    requires Valid(h) && Valid(r) && Extends(h, r, x) && Known(h, q)
    ensures Level(r, q) == Level(h, q) && Reached(r, q) == Reached(h, q)
    decreases Height(q)
  {
    if q.Of? {
      var up := h.tree.parent[q.name];
      SameWalks(h, r, x, up);
      if r.tree.parent[q.name] != up {
        assert Level(r, Of(x)) == Level(r, up);
        assert Reached(r, Of(x)) == [] + Reached(r, up) == Reached(r, up);
      }
    }
  }

  /** Creating x changes no existing logger's effective level and no list of reached appenders. */
  ghost predicate Transparent(h: Loggers, x: string)
    requires Valid(h)
  {
    var r := CreateLogger(h, x);
    Valid(r) && forall q :: Known(h, q) ==> SameAt(h, r, q)
  }

  ghost predicate SameAt(h: Loggers, r: Loggers, q: Parent)
    requires Valid(h) && Valid(r) && Known(h, q)
  {
    Known(r, q) && Level(r, q) == Level(h, q) && Reached(r, q) == Reached(h, q)
  }

  lemma CreationTransparent(h: Loggers, x: string)
    requires Valid(h) && Loose(h.tree) && !Bypassed(h.tree, x)
    ensures Transparent(h, x)
  {
    DoKeepsValid(h, Create(x));
    var r := CreateLogger(h, x);
    forall q | Known(h, q) ensures SameAt(h, r, q) {
      if x != "" && x !in h.nodes {
        forall n | n in h.nodes { SlippedIn(h.tree, x, n); }
        SameWalks(h, r, x, q);
      }
    }
  }

  /** A bypassed logger without a level of its own loses the root's level for that of p. */
  lemma BypassedLevel(h: Loggers, x: string, p: string, n: string)
    requires Valid(h) && Loose(h.tree) && x != "" && x !in h.nodes
    requires Rootish(p) && IsNearest(h.tree.parent.Keys, x, Of(p)) && h.nodes[p].level != NOT_SET_LOG_LEVEL
    requires n in h.nodes && DottedPrefix(x, n) && h.tree.parent[n] == Root && h.nodes[n].level == NOT_SET_LOG_LEVEL
    ensures var r := CreateLogger(h, x);
            Valid(r) && n in r.nodes && Level(h, Of(n)) == h.root.level && Level(r, Of(n)) == h.nodes[p].level
  {
    BypassMoves(h.tree, x, p, n);
    DoKeepsValid(h, Create(x));
    var r := CreateLogger(h, x);
    assert n != p && x != p && x != n;
    assert Level(r, Of(p)) == h.nodes[p].level;
    assert Level(r, Of(x)) == Level(r, Of(p));
    assert Level(h, Of(n)) == Level(h, Root);
  }

  /** Settings with which a bypassed creation shows: only p has a level of its own. */
  ghost function Telling(t: Tree, p: string): Loggers
    requires p in t.parent
  {
    Loggers(t, Node(DEBUG_LOG_LEVEL, true, []),
            map n | n in t.parent :: if n == p then Node(DEBUG_LOG_LEVEL + 1, true, []) else Fresh)
  }

  lemma BypassShows(t: Tree, x: string)
    requires TreeValid(t) && Loose(t) && Bypassed(t, x)
    ensures exists h :: Valid(h) && h.tree == t && !Transparent(h, x)
  {
    var p :| Rootish(p) && IsNearest(t.parent.Keys, x, Of(p));
    var n :| n in t.parent && DottedPrefix(x, n) && t.parent[n] == Root;
    var h := Telling(t, p);
    assert n != p;
    BypassedLevel(h, x, p, n);
    assert !SameAt(h, CreateLogger(h, x), Of(n));
    assert Valid(h) && h.tree == t && !Transparent(h, x);
  }

  /** A creation is transparent, whatever the settings, exactly when no logger is bypassed. */
  lemma TransparentIff(t: Tree, x: string)
    requires TreeValid(t) && Loose(t)
    ensures (forall h :: Valid(h) && h.tree == t ==> Transparent(h, x)) <==> !Bypassed(t, x)
  {
    if Bypassed(t, x) {
      BypassShows(t, x);
    } else {
      forall h | Valid(h) && h.tree == t ensures Transparent(h, x) { CreationTransparent(h, x); }
    }
  }

  // ----- Creation over whole runs -----

  /** The names of the creations of a run. */
  function CreatedBy(ops: seq<Op>): seq<string> {
    if ops == [] then []
    else CreatedBy(ops[..|ops| - 1]) + (if ops[|ops| - 1].Create? then [ops[|ops| - 1].name] else [])
  }

  /** The links after a run are those of its creations alone, and they are loosely right. */
  lemma {:induction false} TreeOfRun(ops: seq<Op>)
    ensures var h := DoAll(Initial, ops); Loose(h.tree) && h.tree == Build(CreatedBy(ops))
  {
    if ops == [] {
      assert DoAll(Initial, []) == Initial;
    } else {
      var front, last := ops[..|ops| - 1], ops[|ops| - 1];
      TreeOfRun(front);
      assert ops == front + [last];
      DoAllSnoc(Initial, front, last);
      var h := DoAll(Initial, front);
      TreeStep(h, last);
      if last.Create? {
        GetInstanceKeepsLoose(h.tree, last.name);
        BuildSnoc(CreatedBy(front), last.name);
      } else {
        assert CreatedBy(front) + [] == CreatedBy(front);
      }
    }
  }

  lemma TreeStep(h: Loggers, op: Op)
    requires Valid(h)
    ensures Do(h, op).tree == if op.Create? then GetInstance(h.tree, op.name) else h.tree
  {
  }

  lemma BuildSnoc(names: seq<string>, x: string)
    requires WaitingKnown(Build(names))
    ensures Build(names + [x]) == GetInstance(Build(names), x)
  {
    assert (names + [x])[..|names|] == names;
  }

  /** In every run, every creation is transparent for all settings exactly when it bypasses no logger. */
  lemma RunTransparentIff(ops: seq<Op>, x: string)
    ensures var t := DoAll(Initial, ops).tree;
            (forall h :: Valid(h) && h.tree == t ==> Transparent(h, x)) <==> !Bypassed(t, x)
  {
    TreeOfRun(ops);
    TransparentIff(DoAll(Initial, ops).tree, x);
  }

  lemma RightNotBypassed(t: Tree, x: string)
    requires Inv(t)
    ensures !Bypassed(t, x)
  {
    forall p, n | Rootish(p) && IsNearest(t.parent.Keys, x, Of(p)) && n in t.parent && DottedPrefix(x, n)
      ensures t.parent[n] != Root
    {
      assert DottedPrefix(p, n) && IsNearest(t.parent.Keys, n, t.parent[n]);
    }
  }

  /** When none of the three names is created after a logger below it, every creation of a run is
      transparent. */
  lemma LinkableRunTransparent(ops: seq<Op>, k: nat)
    requires k < |ops| && ops[k].Create? && Linkable(CreatedBy(ops))
    ensures Transparent(DoAll(Initial, ops[..k]), ops[k].name)
  {
    var front := ops[..k];
    CreatedPrefix(ops, k);
    var names := CreatedBy(ops);
    var m := |CreatedBy(front)|;
    forall i | 0 <= i < m ensures !UnlinkedCall(CreatedBy(front), i) { PrefixCalls(names, m, i); }
    BuildInv(CreatedBy(front));
    TreeOfRun(front);
    RightNotBypassed(DoAll(Initial, front).tree, ops[k].name);
    CreationTransparent(DoAll(Initial, front), ops[k].name);
  }

  lemma {:induction false} CreatedPrefix(ops: seq<Op>, k: nat)
    requires k <= |ops|
    ensures var m := |CreatedBy(ops[..k])|; m <= |CreatedBy(ops)| && CreatedBy(ops)[..m] == CreatedBy(ops[..k])
  {
    if k < |ops| {
      var front := ops[..|ops| - 1];
      CreatedPrefix(front, k);
      assert front[..k] == ops[..k];
    } else {
      assert ops[..k] == ops;
    }
  }

  // ----- The run in which a creation shows -----

  lemma ExampleTree()
    ensures Loose(Empty) && Loose(GetInstance(Empty, "r.x.z"))
    ensures var t := GetInstance(GetInstance(Empty, "r.x.z"), "r");
            Loose(t) && t.parent.Keys == {"r.x.z", "r"} && t.parent["r.x.z"] == Root
  {
    GetInstanceKeepsLoose(Empty, "r.x.z");
    NewLinks(Empty, "r.x.z");
    var t := GetInstance(Empty, "r.x.z");
    assert t.parent.Keys == {"r.x.z"};
    GetInstanceKeepsLoose(t, "r");
    ProperPrefixOfRoot("r");
    NewLinks(t, "r");
    ChildLink(t, "r", "r.x.z");
  }

  /** "r.x.z", then "r" with a level of its own, then "r.x": the level of "r.x.z" becomes that of "r". */
  lemma BypassedExample()
    ensures var h := DoAll(Initial, [Create("r.x.z"), Create("r"), SetLevel(Of("r"), 20000)]);
            var r := Do(h, Create("r.x"));
            && Valid(h) && Valid(r) && Known(h, Of("r.x.z")) && Known(r, Of("r.x.z"))
            && Level(h, Of("r.x.z")) == DEBUG_LOG_LEVEL && Level(r, Of("r.x.z")) == 20000
  {
    ExampleRun();
    var h := DoAll(Initial, [Create("r.x.z"), Create("r"), SetLevel(Of("r"), 20000)]);
    assert DottedPrefix("r.x", "r.x.z") && DottedPrefix("r", "r.x");
    assert IsNearest(h.tree.parent.Keys, "r.x", Of("r"));
    BypassedLevel(h, "r.x", "r", "r.x.z");
  }

  lemma ExampleRun()
    ensures var h := DoAll(Initial, [Create("r.x.z"), Create("r"), SetLevel(Of("r"), 20000)]);
            && Loose(h.tree) && h.tree.parent.Keys == {"r.x.z", "r"} && h.tree.parent["r.x.z"] == Root
            && h.root == Initial.root && h.nodes == map["r.x.z" := Fresh, "r" := Node(20000, true, [])]
  {
    ThreeOps(Initial, Create("r.x.z"), Create("r"), SetLevel(Of("r"), 20000));
    ExampleTree();
    var h1 := Do(Initial, Create("r.x.z"));
    assert h1 == Loggers(GetInstance(Empty, "r.x.z"), Initial.root, map["r.x.z" := Fresh]);
    var h2 := Do(h1, Create("r"));
    assert h2 == Loggers(GetInstance(h1.tree, "r"), Initial.root, map["r.x.z" := Fresh, "r" := Fresh]);
  }

  /** A logger without a level under a root that was unset: there is none to be found. */
  lemma UnsetRootExample()
    ensures var h := DoAll(Initial, [SetLevel(Root, NOT_SET_LOG_LEVEL), Create("a")]);
            Known(h, Of("a")) && Level(h, Of("a")) == NOT_SET_LOG_LEVEL
  {
    var a, b := SetLevel(Root, NOT_SET_LOG_LEVEL), Create("a");
    DoAllSnoc(Initial, [], a);
    DoAllSnoc(Initial, [a], b);
    assert [] + [a] == [a] && [a] + [b] == [a, b];
    var h1 := DoAll(Initial, [a]);
    assert h1.tree == Empty && h1.nodes == map[];
    NewLinks(Empty, "a");
    var h := DoAll(Initial, [a, b]);
    assert h.tree.parent["a"] == Root;
    assert Level(h, Of("a")) == Level(h, Root);
  }

  lemma ThreeOps(h: Loggers, a: Op, b: Op, c: Op)
    requires Valid(h)
    ensures Valid(Do(h, a)) && Valid(Do(Do(h, a), b)) && DoAll(h, [a, b, c]) == Do(Do(Do(h, a), b), c)
  {
    DoAllSnoc(h, [], a);
    DoAllSnoc(h, [a], b);
    DoAllSnoc(h, [a, b], c);
    assert [] + [a] == [a] && [a] + [b] == [a, b] && [a, b] + [c] == [a, b, c];
  }

  /** After a reset every logger is at DEBUG and reaches no appender. */
  lemma {:induction false} ResetEffect(h: Loggers, q: Parent)
    requires Valid(h) && Known(h, q)
    ensures var r := Do(h, ResetConfiguration);
            Valid(r) && Known(r, q) && Level(r, q) == DEBUG_LOG_LEVEL && Reached(r, q) == []
    decreases Height(q)
  {
    if q.Of? { ResetEffect(h, h.tree.parent[q.name]); }
  }
}
