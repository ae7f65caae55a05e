/**
 The parent links and provision nodes of Hierarchy, on values: loggers are known
 by name.  The links are kept up to date one creation at a time; the claim is
 that they always say "nearest existing dotted prefix".
 */
module LoggerTree {

  datatype Parent = Root | Of(name: string)

  /** parent: the loggers that exist and their parent links; waiting: the provision nodes. */
  datatype Tree = Tree(parent: map<string, Parent>, waiting: map<string, seq<string>>)

  const Empty := Tree(map[], map[])
  const ROOT_NAME := "root"

  function NameOf(q: Parent): string {
    match q
    case Root => ROOT_NAME
    case Of(n) => n
  }

  /** A plain string test: sub is a proper prefix of test. */
  predicate StartsWith(test: string, sub: string) {
    |test| > |sub| && test[..|sub|] == sub
  }

  /** Hierarchy::updateChildren for one child of the provision node. */
  function LinkChild(parent: map<string, Parent>, c: string, x: string): map<string, Parent>
    requires c in parent
  {
    if StartsWith(NameOf(parent[c]), x) then parent
    else parent[x := parent[c]][c := Of(x)]
  }

  function LinkChildren(parent: map<string, Parent>, kids: seq<string>, x: string): (r: map<string, Parent>)
    requires forall c :: c in kids ==> c in parent
    ensures r.Keys == parent.Keys + (if r == parent then {} else {x})
  {
    if kids == [] then parent
    else LinkChild(LinkChildren(parent, kids[..|kids| - 1], x), kids[|kids| - 1], x)
  }

  /** tstring::find_last_of for a dot at or before position from; -1 when there is none. */
  function LastDot(s: string, from: int): (i: int)
    requires from < |s|
    ensures i == -1 || 0 <= i <= from
    ensures i >= 0 ==> s[i] == '.'
    ensures forall j :: i < j <= from && 0 <= j ==> s[j] != '.'
  {
    if from < 0 then -1 else if s[from] == '.' then from else LastDot(s, from - 1)
  }

  function Wait(waiting: map<string, seq<string>>, p: string, x: string): map<string, seq<string>> {
    if p in waiting then waiting[p := waiting[p] + [x]] else waiting[p := [x]]
  }

  /** Hierarchy::updateParents from the dot at position i on. */
  function LinkUp(t: Tree, x: string, i: int): Tree
    requires i < |x|
    decreases i
  {
    if i <= 0 then t.(parent := t.parent[x := Root])
    else if x[..i] in t.parent then t.(parent := t.parent[x := Of(x[..i])])
    else LinkUp(t.(waiting := Wait(t.waiting, x[..i], x)), x, LastDot(x, i - 1))
  }

  /** Hierarchy::getInstanceImpl. */
  function GetInstance(t: Tree, x: string): Tree
    requires WaitingKnown(t)
  {
    if x == "" || x in t.parent then t
    else
      var t1 := t.(parent := t.parent[x := Root]);
      var t2 := if x in t.waiting then Tree(LinkChildren(t1.parent, t.waiting[x], x), t.waiting - {x}) else t1;
      LinkUp(t2, x, LastDot(x, |x| - 1))
  }

  // ----- The specification -----

  predicate DottedPrefix(p: string, n: string) {
    0 < |p| < |n| && n[..|p|] == p && n[|p|] == '.'
  }

  /** q is the longest name of keys that is a dotted prefix of n, or the root if there is none. */
  ghost predicate IsNearest(keys: set<string>, n: string, q: Parent) {
    match q
    case Root => forall p :: p in keys ==> !DottedPrefix(p, n)
    case Of(p) => p in keys && DottedPrefix(p, n) && forall r :: r in keys && DottedPrefix(r, n) ==> |r| <= |p|
  }

  ghost predicate Correct(t: Tree) {
    forall n :: n in t.parent ==> IsNearest(t.parent.Keys, n, t.parent[n])
  }

  predicate WaitingKnown(t: Tree) {
    forall p :: p in t.waiting ==> forall c :: c in t.waiting[p] ==> c in t.parent
  }

  ghost predicate WaitingSound(t: Tree) {
    forall p :: p in t.waiting ==> p !in t.parent && forall c :: c in t.waiting[p] ==> c in t.parent && DottedPrefix(p, c)
  }

  /** n still has to be told when p is created. */
  ghost predicate Awaits(keys: set<string>, n: string, p: string) {
    n in keys && p !in keys && DottedPrefix(p, n) && forall r :: r in keys && DottedPrefix(r, n) ==> |r| < |p|
  }

  ghost predicate WaitingComplete(t: Tree) {
    forall n, p :: Awaits(t.parent.Keys, n, p) ==> p in t.waiting && n in t.waiting[p]
  }

  ghost predicate Inv(t: Tree) {
    && "" !in t.parent
    && WaitingKnown(t)
    && WaitingSound(t)
    && WaitingComplete(t)
    && Correct(t)
  }

  /** The names that the root's own name begins with. */
  predicate Rootish(p: string) {
    p == "r" || p == "ro" || p == "roo"
  }

  /** n's nearest prefix is one of those names, and n hangs off the root all the same. */
  ghost predicate PastRootish(keys: set<string>, n: string, q: Parent) {
    q == Root && exists p :: Rootish(p) && IsNearest(keys, n, Of(p))
  }

  ghost predicate NearlyCorrect(t: Tree) {
    forall n :: n in t.parent ==> IsNearest(t.parent.Keys, n, t.parent[n]) || PastRootish(t.parent.Keys, n, t.parent[n])
  }

  /** What every sequence of creations keeps, whatever the names. */
  ghost predicate Loose(t: Tree) {
    && "" !in t.parent
    && WaitingKnown(t)
    && WaitingSound(t)
    && WaitingComplete(t)
    && NearlyCorrect(t)
  }

  lemma NearestUnique(keys: set<string>, n: string, q: Parent, r: Parent)
    requires IsNearest(keys, n, q) && IsNearest(keys, n, r)
    ensures q == r
  {
    if q.Of? && r.Of? {
      assert |q.name| == |r.name|;
      assert q.name == n[..|q.name|] == r.name;
    }
  }

  // ----- What the two loops compute -----

  lemma {:induction false} LinkChildrenEffect(parent: map<string, Parent>, kids: seq<string>, x: string, n: string)
    requires forall c :: c in kids ==> c in parent && c != x
    requires n in parent && n != x
    ensures LinkChildren(parent, kids, x)[n]
            == if n in kids && !StartsWith(NameOf(parent[n]), x) then Of(x) else parent[n]
  {
    if kids != [] {
      var front, last := kids[..|kids| - 1], kids[|kids| - 1];
      assert kids == front + [last];
      assert forall c :: c in front ==> c in kids;
      LinkChildrenEffect(parent, front, x, n);
      LinkChildrenEffect(parent, front, x, last);
    }
  }

  /** No existing name is a dotted prefix of x longer than i. */
  ghost predicate NoneAbove(keys: set<string>, x: string, i: int) {
    forall p :: p in keys && DottedPrefix(p, x) ==> |p| <= i
  }

  /** The waiting lists grew by x, under missing dotted prefixes of x only. */
  ghost predicate WaitsFor(before: map<string, seq<string>>, after: map<string, seq<string>>, keys: set<string>, x: string) {
    && (forall p :: p in before ==> p in after && forall c :: c in before[p] ==> c in after[p])
    && (forall p, c :: p in after && c in after[p] ==>
          (p in before && c in before[p]) || (c == x && DottedPrefix(p, x) && p !in keys))
    && (forall p :: p in after && p !in before ==> DottedPrefix(p, x) && p !in keys)
  }

  lemma WaitEffect(waiting: map<string, seq<string>>, keys: set<string>, x: string, p: string)
    requires DottedPrefix(p, x) && p !in keys
    ensures WaitsFor(waiting, Wait(waiting, p, x), keys, x)
    ensures p in Wait(waiting, p, x) && x in Wait(waiting, p, x)[p]
  {
    var after := Wait(waiting, p, x);
    assert after[p][|after[p]| - 1] == x;
    assert p in waiting ==> forall c :: c in waiting[p] ==> c in after[p];
  }

  lemma {:induction false} LinkUpEffect(t: Tree, x: string, i: int)
    requires i < |x| && (i >= 0 ==> x[i] == '.')
    requires NoneAbove(t.parent.Keys, x, i)
    ensures var r := LinkUp(t, x, i);
            && r.parent.Keys == t.parent.Keys + {x}
            && r.parent - {x} == t.parent - {x}
            && IsNearest(t.parent.Keys, x, r.parent[x])
            && WaitsFor(t.waiting, r.waiting, t.parent.Keys, x)
            && forall p :: DottedPrefix(p, x) && |p| <= i && p !in t.parent && NoneAbove(t.parent.Keys, x, |p|)
                           ==> p in r.waiting && x in r.waiting[p]
    decreases i
  {
    var keys := t.parent.Keys;
    if i <= 0 {
    } else if x[..i] in t.parent {
      assert DottedPrefix(x[..i], x);
    } else {
      var j := LastDot(x, i - 1);
      var t' := t.(waiting := Wait(t.waiting, x[..i], x));
      assert DottedPrefix(x[..i], x);
      WaitEffect(t.waiting, keys, x, x[..i]);
      forall p | p in keys && DottedPrefix(p, x) ensures |p| <= j {
        assert p == x[..|p|] && x[|p|] == '.';
      }
      LinkUpEffect(t', x, j);
      var r := LinkUp(t', x, j);
      forall p | DottedPrefix(p, x) && |p| <= i && p !in t.parent && NoneAbove(keys, x, |p|)
        ensures p in r.waiting && x in r.waiting[p]
      {
        if |p| == i {
          assert p == x[..i];
        } else {
          assert x[|p|] == '.';
        }
      }
    }
  }

  // ----- One creation -----

  /** The creations that go wrong: the new name is a proper prefix of the root logger's own name and
      a logger below it already exists. */
  ghost predicate Unlinked(t: Tree, x: string) {
    Rootish(x) && x !in t.parent && exists d :: d in t.parent && DottedPrefix(x, d)
  }

  lemma ProperPrefixOfRoot(x: string)
    ensures x != "" && StartsWith(ROOT_NAME, x) <==> Rootish(x)
  {
    assert ROOT_NAME[..1] == "r" && ROOT_NAME[..2] == "ro" && ROOT_NAME[..3] == "roo";
  }

  lemma PrefixesNest(p: string, q: string, n: string)
    requires DottedPrefix(p, n) && DottedPrefix(q, n)
    ensures |p| < |q| <==> DottedPrefix(p, q)
    ensures |p| == |q| <==> p == q
  {
    assert p == n[..|p|] && q == n[..|q|];
  }

  /** The tree after the child links were updated and before the new logger looks for its parent. */
  function WithChildren(t: Tree, x: string): (r: Tree)
    requires WaitingKnown(t) && x !in t.parent
    ensures r.parent.Keys == t.parent.Keys + {x}
    ensures r.waiting == t.waiting - {x}
  {
    var parent := t.parent[x := Root];
    if x in t.waiting then Tree(LinkChildren(parent, t.waiting[x], x), t.waiting - {x})
    else Tree(parent, t.waiting)
  }

  /** What a new logger does to an existing one. */
  lemma ChildLink(t: Tree, x: string, n: string)
    requires Loose(t) && x != "" && x !in t.parent && n in t.parent
    ensures WithChildren(t, x).parent[n]
            == if DottedPrefix(x, n) && IsNearest(t.parent.Keys + {x}, n, Of(x)) && !(t.parent[n] == Root && StartsWith(ROOT_NAME, x))
               then Of(x) else t.parent[n]
  {
    var keys, q := t.parent.Keys, t.parent[n];
    if x in t.waiting {
      LinkChildrenEffect(t.parent[x := Root], t.waiting[x], x, n);
    }
    if DottedPrefix(x, n) {
      if q.Of? {
        PrefixesNest(x, q.name, n);
        assert StartsWith(q.name, x) <==> |x| < |q.name|;
      }
      if q == Root && PastRootish(keys, n, q) {
        var p :| Rootish(p) && IsNearest(keys, n, Of(p));
        NotBelowRootish(p, x);
        PrefixesNest(x, p, n);
      }
      if q == Root || |q.name| < |x| {
        assert Awaits(keys, n, x);
      }
    }
  }

  lemma NotBelowRootish(p: string, x: string)
    requires Rootish(p)
    ensures !DottedPrefix(x, p)
  {
  }

  lemma NewLinks(t: Tree, x: string)
    requires WaitingKnown(t) && x != "" && x !in t.parent
    ensures var r := GetInstance(t, x);
            && r.parent.Keys == t.parent.Keys + {x}
            && IsNearest(r.parent.Keys, x, r.parent[x])
            && (forall n :: n in t.parent ==> r.parent[n] == WithChildren(t, x).parent[n])
            && WaitsFor(t.waiting - {x}, r.waiting, t.parent.Keys + {x}, x)
            && forall p :: Awaits(r.parent.Keys, x, p) ==> p in r.waiting && x in r.waiting[p]
  {
    var t2 := WithChildren(t, x);
    var i := LastDot(x, |x| - 1);
    assert GetInstance(t, x) == LinkUp(t2, x, i);
    forall p | p in t2.parent.Keys && DottedPrefix(p, x) ensures |p| <= i {
      assert x[|p|] == '.';
    }
    LinkUpEffect(t2, x, i);
    var r := LinkUp(t2, x, i);
    forall n | n in t.parent ensures r.parent[n] == t2.parent[n] {
      assert n in (t2.parent - {x});
    }
    forall p | Awaits(r.parent.Keys, x, p) ensures p in r.waiting && x in r.waiting[p] {
      assert x[|p|] == '.';
      assert NoneAbove(t2.parent.Keys, x, |p|);
    }
  }

  lemma WaitingStaysSound(t: Tree, x: string)
    requires WaitingKnown(t) && WaitingSound(t) && x != "" && x !in t.parent
    ensures var r := GetInstance(t, x); WaitingKnown(r) && WaitingSound(r)
  {
    NewLinks(t, x);
  }

  lemma WaitingAfter(t: Tree, x: string)
    requires WaitingKnown(t) && WaitingSound(t) && WaitingComplete(t) && x != "" && x !in t.parent
    ensures var r := GetInstance(t, x); WaitingKnown(r) && WaitingSound(r) && WaitingComplete(r)
  {
    NewLinks(t, x);
    WaitingStaysSound(t, x);
    var r := GetInstance(t, x);
    forall n, p | Awaits(r.parent.Keys, n, p) ensures p in r.waiting && n in r.waiting[p] {
      if n != x {
        assert Awaits(t.parent.Keys, n, p);
        assert p in t.waiting - {x};
      }
    }
  }

  /** The parent links stay right exactly when the creation is not one of the unlinked ones. */
  lemma GetInstanceKeepsInv(t: Tree, x: string)
    requires Inv(t)
    ensures Inv(GetInstance(t, x)) <==> !Unlinked(t, x)
    ensures Correct(GetInstance(t, x)) <==> !Unlinked(t, x)
  {
    if x != "" && x !in t.parent {
      NewLinks(t, x);
      WaitingAfter(t, x);
      if Unlinked(t, x) { UnlinkedIsWrong(t, x); } else { LinkedIsRight(t, x); }
    }
  }

  lemma LinkedIsRight(t: Tree, x: string)
    requires Inv(t) && x != "" && x !in t.parent && !Unlinked(t, x)
    ensures Correct(GetInstance(t, x))
  {
    NewLinks(t, x);
    ProperPrefixOfRoot(x);
    var r := GetInstance(t, x);
    forall n | n in t.parent ensures IsNearest(r.parent.Keys, n, r.parent[n]) {
      ChildLink(t, x, n);
      var q := t.parent[n];
      if DottedPrefix(x, n) && q.Of? { PrefixesNest(x, q.name, n); }
    }
  }

  /** Every creation, whatever the name, leaves each logger at its nearest prefix, or at the root past one of
      the three names. */
  lemma GetInstanceKeepsLoose(t: Tree, x: string)
    requires Loose(t)
    ensures Loose(GetInstance(t, x))
  {
    if x != "" && x !in t.parent {
      NewLinks(t, x);
      WaitingAfter(t, x);
      var r := GetInstance(t, x);
      forall n | n in t.parent
        ensures IsNearest(r.parent.Keys, n, r.parent[n]) || PastRootish(r.parent.Keys, n, r.parent[n])
      {
        KeepsNear(t, x, n);
      }
    }
  }

  lemma KeepsNear(t: Tree, x: string, n: string)
    requires Loose(t) && x != "" && x !in t.parent && n in t.parent
    ensures var keys, q := t.parent.Keys + {x}, WithChildren(t, x).parent[n];
            IsNearest(keys, n, q) || PastRootish(keys, n, q)
  {
    ChildLink(t, x, n);
    var q := t.parent[n];
    if DottedPrefix(x, n) && q.Of? { PrefixesNest(x, q.name, n); }
    if PastRootish(t.parent.Keys, n, q) {
      var p :| Rootish(p) && IsNearest(t.parent.Keys, n, Of(p));
      if DottedPrefix(x, n) {
        NotBelowRootish(p, x);
        PrefixesNest(x, p, n);
        ProperPrefixOfRoot(x);
        if Rootish(x) { NotBelowRootish(x, p); PrefixesNest(p, x, n); }
      } else {
        assert IsNearest(t.parent.Keys + {x}, n, Of(p));
      }
    } else if DottedPrefix(x, n) && q == Root {
      ProperPrefixOfRoot(x);
      assert IsNearest(t.parent.Keys + {x}, n, Of(x));
    }
  }

  /** Some logger below x has no existing logger between x and itself. */
  lemma TopDescendant(t: Tree, x: string, d: string) returns (top: string)
    requires d in t.parent && DottedPrefix(x, d)
    ensures top in t.parent && DottedPrefix(x, top)
    ensures forall p :: p in t.parent && DottedPrefix(p, top) ==> !DottedPrefix(x, p)
    decreases |d|
  {
    if p :| p in t.parent && DottedPrefix(p, d) && DottedPrefix(x, p) {
      top := TopDescendant(t, x, p);
    } else {
      top := d;
    }
  }

  lemma UnlinkedIsWrong(t: Tree, x: string)
    requires Inv(t) && Unlinked(t, x)
    ensures !Correct(GetInstance(t, x))
  {
    var d :| d in t.parent && DottedPrefix(x, d);
    var top := TopDescendant(t, x, d);
    forall p | p in t.parent ensures !DottedPrefix(p, top) {
      if DottedPrefix(p, top) {
        PrefixesNest(p, x, top);
        PrefixesNest(x, p, top);
      }
    }
    assert t.parent[top] == Root;
    ProperPrefixOfRoot(x);
    NewLinks(t, x);
    ChildLink(t, x, top);
    var r := GetInstance(t, x);
    assert x in r.parent.Keys && DottedPrefix(x, top) && r.parent[top] == Root;
    assert !IsNearest(r.parent.Keys, top, r.parent[top]);
  }

  /** Creating "r" after "r.x" leaves "r.x" hanging off the root. */
  lemma UnlinkedExample()
    ensures var t := GetInstance(Empty, "r.x");
            && Inv(Empty) && Inv(t) && Unlinked(t, "r")
            && GetInstance(t, "r").parent == map["r.x" := Root, "r" := Root]
  {
    assert Inv(Empty);
    GetInstanceKeepsInv(Empty, "r.x");
    var t := GetInstance(Empty, "r.x");
    assert LastDot("r.x", 2) == 1;
    assert "r.x"[..1] == "r";
    assert LastDot("r.x", 0) == -1;
    assert t == Tree(map["r.x" := Root], map["r" := ["r.x"]]);
    assert DottedPrefix("r", "r.x");
    ProperPrefixOfRoot("r");
    assert LastDot("r", 0) == -1;
    var kids := t.waiting["r"];
    assert kids[..|kids| - 1] == [];
    assert LinkChildren(map["r.x" := Root, "r" := Root], kids, "r") == map["r.x" := Root, "r" := Root];
  }

  // ----- Any sequence of creations -----

  function Created(names: seq<string>): set<string> {
    (set n | n in names) - {""}
  }

  /** getInstance for each name in turn on a fresh hierarchy. */
  ghost function Build(names: seq<string>): Tree {
    if names == [] then Empty
    else
      var t := Build(names[..|names| - 1]);
      if WaitingKnown(t) then GetInstance(t, names[|names| - 1]) else t
  }

  /** Call i creates "r", "ro" or "roo" after a logger below it. */
  predicate UnlinkedCall(names: seq<string>, i: nat)
    requires i < |names|
  {
    Rootish(names[i]) && names[i] !in names[..i] && exists d :: d in names[..i] && DottedPrefix(names[i], d)
  }

  predicate Linkable(names: seq<string>) {
    forall i :: 0 <= i < |names| ==> !UnlinkedCall(names, i)
  }

  lemma PrefixCalls(names: seq<string>, k: nat, i: nat)
    requires i < k <= |names|
    ensures UnlinkedCall(names[..k], i) <==> UnlinkedCall(names, i)
  {
    assert names[..k][..i] == names[..i];
  }

  lemma LastCall(t: Tree, front: seq<string>, last: string)
    requires t.parent.Keys == Created(front)
    ensures Unlinked(t, last) <==> UnlinkedCall(front + [last], |front|)
  {
    var names := front + [last];
    assert names[..|front|] == front && names[|front|] == last;
    if Rootish(last) {
      assert last in front <==> last in t.parent;
      assert forall d :: DottedPrefix(last, d) ==> (d in front <==> d in t.parent);
    }
  }

  lemma {:induction false} BuildInv(names: seq<string>)
    requires Linkable(names)
    ensures Inv(Build(names)) && Build(names).parent.Keys == Created(names)
  {
    if names != [] {
      var front, last := names[..|names| - 1], names[|names| - 1];
      assert names == front + [last];
      forall i | 0 <= i < |front| ensures !UnlinkedCall(front, i) { PrefixCalls(names, |front|, i); }
      BuildInv(front);
      LastCall(Build(front), front, last);
      GetInstanceKeepsInv(Build(front), last);
      if last != "" && last !in Build(front).parent { NewLinks(Build(front), last); }
    }
  }

  /** The links are right after every call of a run exactly when no call is an unlinked one. */
  lemma RightAfterEveryCall(names: seq<string>)
    ensures (forall k :: 0 <= k <= |names| ==> Correct(Build(names[..k]))) <==> Linkable(names)
  {
    if Linkable(names) {
      forall k | 0 <= k <= |names| ensures Correct(Build(names[..k])) {
        forall i | 0 <= i < k ensures !UnlinkedCall(names[..k], i) { PrefixCalls(names, k, i); }
        BuildInv(names[..k]);
      }
    } else {
      var i := FirstUnlinkedCall(names, 0);
      var front, upto := names[..i], names[..i + 1];
      assert upto == front + [names[i]] && upto[..|upto| - 1] == front;
      forall j | 0 <= j < i ensures !UnlinkedCall(front, j) { PrefixCalls(names, i, j); }
      BuildInv(front);
      PrefixCalls(names, i + 1, i);
      LastCall(Build(front), front, names[i]);
      GetInstanceKeepsInv(Build(front), names[i]);
      assert !Correct(Build(names[..i + 1]));
    }
  }

  lemma FirstUnlinkedCall(names: seq<string>, from: nat) returns (i: nat)
    requires from <= |names| && !Linkable(names)
    requires forall j :: 0 <= j < from ==> !UnlinkedCall(names, j)
    ensures i < |names| && UnlinkedCall(names, i) && forall j :: 0 <= j < i ==> !UnlinkedCall(names, j)
    decreases |names| - from
  {
    if UnlinkedCall(names, from) { i := from; } else { i := FirstUnlinkedCall(names, from + 1); }
  }

  /** The parent of every logger is its nearest existing dotted prefix, so the links depend on the set
      of names and not on the order they were created in. */
  lemma OrderIndependent(names: seq<string>, others: seq<string>)
    requires Linkable(names) && Linkable(others) && Created(names) == Created(others)
    ensures Build(names).parent == Build(others).parent
  {
    BuildInv(names);
    BuildInv(others);
    var t, u := Build(names), Build(others);
    forall n | n in t.parent ensures t.parent[n] == u.parent[n] {
      NearestUnique(t.parent.Keys, n, t.parent[n], u.parent[n]);
    }
  }
}
