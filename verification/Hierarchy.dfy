/**
 Hierarchy and LoggerImpl as objects: loggers linked by parent pointers, the
 logger map and the provision nodes updated in place.  Every method is proved to
 do to the object graph what modules LoggerTree and LoggerChain do to its value.
 */
module Hierarchy {
  import opened LoggerTree
  import opened LoggerChain

  const DISABLE_OFF := -1

  class LoggerImpl {
    const name: string
    var ll: int
    var parent: LoggerImpl?
    var additive: bool
    var appenders: seq<Appender>

    constructor (name: string)
      ensures this.name == name && ll == NOT_SET_LOG_LEVEL && parent == null && additive && appenders == []
    {
      this.name := name;
      ll := NOT_SET_LOG_LEVEL;
      parent := null;
      additive := true;
      appenders := [];
    }

    ghost function Settings(): Node
      reads this`ll, this`additive, this`appenders
    {
      Node(ll, additive, appenders)
    }
  }

  /** std::string::find_last_of for a dot. */
  method FindLastDot(s: string, from: int) returns (i: int)
    requires from < |s|
    ensures i == LastDot(s, from)
  {
    i := from;
    while i >= 0 && s[i] != '.'
      invariant -1 <= i < |s| || i == from
      invariant LastDot(s, i) == LastDot(s, from)
    {
      i := i - 1;
    }
    if i < 0 { i := -1; }
  }

  class LoggerHierarchy {
    const root: LoggerImpl
    var loggerPtrs: map<string, LoggerImpl>
    var provisionNodes: map<string, seq<LoggerImpl>>
    var disableValue: int

    /** The parent links and provision nodes, by name. */
    ghost var tree: Tree

    ghost predicate Registered(l: LoggerImpl)
      reads this`loggerPtrs
    {
      l.name in loggerPtrs && loggerPtrs[l.name] == l
    }

    /** Pointer p and link q name the same logger. */
    ghost predicate Points(p: LoggerImpl?, q: Parent)
      reads this`loggerPtrs
    {
      if q.Root? then p == null || p == root else p != null && p.name == q.name && p != root && Registered(p)
    }

    ghost predicate ListMatches(pn: seq<LoggerImpl>, names: seq<string>)
      reads this`loggerPtrs
    {
      |pn| == |names| && forall i :: 0 <= i < |pn| ==> Registered(pn[i]) && pn[i].name == names[i]
    }

    /** The objects and tree agree. */
    ghost predicate Matches()
      reads this`loggerPtrs, this`provisionNodes, this`tree, loggerPtrs.Values`parent
    {
      && root.name == ROOT_NAME
      && loggerPtrs.Keys == tree.parent.Keys && provisionNodes.Keys == tree.waiting.Keys
      && (forall n {:trigger loggerPtrs[n].name} :: n in loggerPtrs ==> loggerPtrs[n].name == n && loggerPtrs[n] != root)
      && (forall n {:trigger loggerPtrs[n].parent} :: n in loggerPtrs ==> Points(loggerPtrs[n].parent, tree.parent[n]))
      && (forall p :: p in provisionNodes ==> ListMatches(provisionNodes[p], tree.waiting[p]))
    }

    ghost predicate HasParents(except: set<string>)
      reads this`loggerPtrs, loggerPtrs.Values`parent
    {
      forall n {:trigger loggerPtrs[n].parent} :: n in loggerPtrs && n !in except ==> loggerPtrs[n].parent != null
    }

    ghost function Settings(): map<string, Node>
      reads this`loggerPtrs, loggerPtrs.Values`ll, loggerPtrs.Values`additive, loggerPtrs.Values`appenders
    {
      map n | n in loggerPtrs :: loggerPtrs[n].Settings()
    }

    /** The value of the whole object graph. */
    ghost function Config(): Loggers
      reads this`loggerPtrs, this`tree, root`ll, root`additive, root`appenders,
            loggerPtrs.Values`ll, loggerPtrs.Values`additive, loggerPtrs.Values`appenders
    {
      Loggers(tree, root.Settings(), Settings())
    }

    ghost predicate Valid()
      reads this, root, loggerPtrs.Values
    {
      Matches() && HasParents({}) && root.parent == null && LoggerChain.Valid(Config())
    }

    constructor ()
      ensures Valid() && Config() == Initial && disableValue == DISABLE_OFF
    {
      var r := new LoggerImpl(ROOT_NAME);
      r.ll := DEBUG_LOG_LEVEL;
      root := r;
      loggerPtrs, provisionNodes, disableValue := map[], map[], DISABLE_OFF;
      tree := Empty;
    }

    // ----- Creating a logger -----

    /** One assignment to a parent pointer. */
    method SetParent(logger: LoggerImpl, p: LoggerImpl, ghost q: Parent)
      requires Matches() && Registered(logger) && Points(p, q)
      modifies logger`parent, this`tree
      ensures Matches() && logger.parent == p
      ensures tree == old(tree).(parent := old(tree).parent[logger.name := q])
    {
      logger.parent := p;
      tree := tree.(parent := tree.parent[logger.name := q]);
    }

    /** One more logger waits for substr to be created. */
    method AddProvision(substr: string, logger: LoggerImpl)
      requires Matches() && Registered(logger)
      modifies this`provisionNodes, this`tree
      ensures Matches()
      ensures tree == old(tree).(waiting := Wait(old(tree).waiting, substr, logger.name))
    {
      if substr in provisionNodes {
        provisionNodes := provisionNodes[substr := provisionNodes[substr] + [logger]];
      } else {
        provisionNodes := provisionNodes[substr := [logger]];
      }
      tree := tree.(waiting := Wait(tree.waiting, substr, logger.name));
    }

    /** The loop of updateParents, up to the dot before which an existing logger was found, if any. */
    method SearchParents(logger: LoggerImpl) returns (i: int)
      requires Matches() && Registered(logger) && logger.name != ""
      modifies this`provisionNodes, this`tree
      ensures Matches() && i < |logger.name| && (i > 0 ==> logger.name[..i] in loggerPtrs)
      ensures LinkUp(tree, logger.name, i)
              == LinkUp(old(tree), logger.name, LastDot(logger.name, |logger.name| - 1))
    {
      var name := logger.name;
      i := FindLastDot(name, |name| - 1);
      ghost var result := LinkUp(tree, name, i);
      while i > 0 && name[..i] !in loggerPtrs
        invariant i < |name| && Matches() && LinkUp(tree, name, i) == result
      {
        AddProvision(name[..i], logger);
        i := FindLastDot(name, i - 1);
      }
    }

    method UpdateParents(logger: LoggerImpl)
      requires Matches() && Registered(logger) && logger.name != ""
      modifies this`provisionNodes, this`tree, logger`parent
      ensures Matches() && logger.parent != null
      ensures tree == LinkUp(old(tree), logger.name, LastDot(logger.name, |logger.name| - 1))
    {
      var i := SearchParents(logger);
      if i > 0 {
        SetParent(logger, loggerPtrs[logger.name[..i]], Of(logger.name[..i]));
      } else {
        SetParent(logger, root, Root);
      }
    }

    /** The body of the loop in updateChildren. */
    method UpdateChild(c: LoggerImpl, logger: LoggerImpl)
      requires Matches() && Registered(logger) && Registered(c) && c.parent != null && c != logger
      modifies c`parent, logger`parent, this`tree
      ensures Matches() && c.parent != null
      ensures tree == old(tree).(parent := LinkChild(old(tree).parent, c.name, logger.name))
    {
      var up := c.parent;
      ghost var q := tree.parent[c.name];
      assert Points(loggerPtrs[c.name].parent, q);
      if !(|up.name| > |logger.name| && up.name[..|logger.name|] == logger.name) {
        SetParent(logger, up, q);
        SetParent(c, logger, Of(logger.name));
      }
    }

    method UpdateChildren(pn: seq<LoggerImpl>, logger: LoggerImpl, ghost names: seq<string>)
      requires Matches() && Registered(logger) && ListMatches(pn, names)
      requires forall i :: 0 <= i < |pn| ==> pn[i].parent != null && pn[i] != logger
      modifies (set c | c in pn)`parent, logger`parent, this`tree
      ensures Matches()
      ensures forall i :: 0 <= i < |pn| ==> pn[i].parent != null
      ensures forall c :: c in names ==> c in old(tree).parent
      ensures tree == old(tree).(parent := LinkChildren(old(tree).parent, names, logger.name))
    {
      ghost var before := tree.parent;
      for k := 0 to |pn|
        invariant Matches()
        invariant forall i :: 0 <= i < |pn| ==> pn[i].parent != null
        invariant tree == old(tree).(parent := LinkChildren(before, names[..k], logger.name))
      {
        assert names[..k + 1][..k] == names[..k] && names[..k + 1][k] == pn[k].name;
        UpdateChild(pn[k], logger);
      }
      assert names[..|pn|] == names;
    }

    /** The factory call and the insertion into the logger map. */
    method Register(name: string) returns (logger: LoggerImpl)
      requires Matches() && name !in loggerPtrs
      modifies this`loggerPtrs, this`tree
      ensures fresh(logger) && logger.name == name && logger.parent == null
      ensures Matches() && loggerPtrs == old(loggerPtrs)[name := logger]
      ensures tree == old(tree).(parent := old(tree).parent[name := Root])
      ensures Settings() == old(Settings())[name := Fresh]
    {
      logger := new LoggerImpl(name);
      loggerPtrs := loggerPtrs[name := logger];
      tree := tree.(parent := tree.parent[name := Root]);
      assert Settings() == old(Settings())[name := Fresh];
    }

    method DropProvision(name: string)
      requires Matches()
      modifies this`provisionNodes, this`tree
      ensures Matches() && tree == old(tree).(waiting := old(tree).waiting - {name})
    {
      provisionNodes := provisionNodes - {name};
      tree := tree.(waiting := tree.waiting - {name});
    }

    /** The provision node of a new logger is used up. */
    method Adopt(logger: LoggerImpl)
      requires Matches() && HasParents({logger.name}) && Registered(logger)
      requires logger.name in tree.waiting ==> logger.name !in tree.waiting[logger.name]
      modifies this`provisionNodes, this`tree, loggerPtrs.Values`parent
      ensures Matches() && HasParents({logger.name})
      ensures forall n :: n in old(tree).waiting ==> forall c :: c in old(tree).waiting[n] ==> c in old(tree).parent
      ensures tree == if logger.name in old(tree).waiting
                      then Tree(LinkChildren(old(tree).parent, old(tree).waiting[logger.name], logger.name),
                                old(tree).waiting - {logger.name})
                      else old(tree)
    {
      if logger.name in provisionNodes {
        UpdateChildren(provisionNodes[logger.name], logger, tree.waiting[logger.name]);
        DropProvision(logger.name);
      }
    }

    /** Both directions of linking for a logger just registered. */
    method Link(logger: LoggerImpl, ghost before: Tree)
      requires Matches() && HasParents({logger.name}) && Registered(logger) && logger.name != ""
      requires WaitingKnown(before) && logger.name !in before.parent
      requires tree == before.(parent := before.parent[logger.name := Root])
      modifies this`provisionNodes, this`tree, loggerPtrs.Values`parent
      ensures Matches() && HasParents({})
      ensures tree == LoggerTree.GetInstance(before, logger.name)
    {
      Adopt(logger);
      assert tree == WithChildren(before, logger.name);
      UpdateParents(logger);
    }

    /** getInstanceImpl for a name that is not known yet. */
    method CreateNew(name: string) returns (logger: LoggerImpl)
      requires Matches() && HasParents({}) && name != "" && name !in loggerPtrs && WaitingKnown(tree)
      modifies this`loggerPtrs, this`provisionNodes, this`tree, loggerPtrs.Values`parent
      ensures Matches() && HasParents({}) && Registered(logger) && logger.name == name
      ensures tree == LoggerTree.GetInstance(old(tree), name)
      ensures Settings() == old(Settings())[name := Fresh]
    {
      logger := Register(name);
      Link(logger, old(tree));
    }

    /** getInstance with the default factory. */
    method GetInstance(name: string) returns (logger: LoggerImpl)
      requires Valid()
      modifies this`loggerPtrs, this`provisionNodes, this`tree, loggerPtrs.Values`parent
      ensures Valid()
      ensures Config() == CreateLogger(old(Config()), name)
      ensures if name == "" then logger == root else Registered(logger) && logger.name == name
    {
      if name == "" {
        logger := root;
      } else if name in loggerPtrs {
        logger := loggerPtrs[name];
      } else {
        DoKeepsValid(Config(), Create(name));
        logger := CreateNew(name);
      }
    }

    // ----- The walks of a logging call -----

    ghost function LinkOf(logger: LoggerImpl): Parent {
      if logger == root then Root else Of(logger.name)
    }

    /** What the walks read at one logger, and where its parent pointer leads. */
    lemma StepUp(c: LoggerImpl, h: Loggers)
      requires Valid() && (c == root || Registered(c)) && h == Config()
      ensures var q := LinkOf(c);
              && Known(h, q) && NodeOf(h, q) == Node(c.ll, c.additive, c.appenders)
              && (if q.Root? then c.parent == null
                  else c.parent != null && (c.parent == root || Registered(c.parent)) && LinkOf(c.parent) == h.tree.parent[q.name])
    {
      if c != root { assert Points(loggerPtrs[c.name].parent, tree.parent[c.name]); }
    }

    /** The walk throws when it finds no level; the root's own version of it does not walk. */
    method GetChainedLogLevel(logger: LoggerImpl) returns (thrown: bool, ll: int)
      requires Valid() && (logger == root || Registered(logger))
      ensures ll == Level(Config(), LinkOf(logger))
      ensures thrown <==> logger != root && ll == NOT_SET_LOG_LEVEL
    {
      ghost var h := Config();
      StepUp(logger, h);
      if logger == root {
        return false, root.ll;
      }
      thrown := false;
      var c: LoggerImpl? := logger;
      while c != null
        invariant !thrown && if c == null then Level(h, LinkOf(logger)) == NOT_SET_LOG_LEVEL
                             else (c == root || Registered(c)) && Known(h, LinkOf(c))
                                  && Level(h, LinkOf(c)) == Level(h, LinkOf(logger))
        decreases if c == null then 0 else Height(LinkOf(c)) + 1
      {
        StepUp(c, h);
        if c.ll != NOT_SET_LOG_LEVEL {
          return false, c.ll;
        }
        c := c.parent;
      }
      return true, NOT_SET_LOG_LEVEL;
    }

    lemma OneMoreReached(a: seq<Appender>, b: seq<Appender>, c: seq<Appender>)
      ensures a + b + c == a + (b + c)
    {
    }

    /** The appenders the event is handed to, in order, and how many there were. */
    method CallAppenders(logger: LoggerImpl) returns (reached: seq<Appender>, writes: nat)
      requires Valid() && (logger == root || Registered(logger))
      ensures reached == Reached(Config(), LinkOf(logger)) && writes == |reached|
    {
      ghost var h := Config();
      StepUp(logger, h);
      ghost var all := Reached(h, LinkOf(logger));
      reached, writes := [], 0;
      var c: LoggerImpl? := logger;
      while c != null
        invariant writes == |reached|
        invariant if c == null then reached == all
                  else (c == root || Registered(c)) && Known(h, LinkOf(c)) && reached + Reached(h, LinkOf(c)) == all
        decreases if c == null then 0 else Height(LinkOf(c)) + 1
      {
        StepUp(c, h);
        ghost var was, node := reached, NodeOf(h, LinkOf(c));
        reached, writes := reached + c.appenders, writes + |c.appenders|;
        if !c.additive {
          assert Reached(h, LinkOf(c)) == node.appenders;
          return;
        }
        c := c.parent;
        if c != null {
          OneMoreReached(was, node.appenders, Reached(h, LinkOf(c)));
        }
      }
    }

    method IsEnabledFor(logger: LoggerImpl, level: int) returns (thrown: bool, enabled: bool)
      requires Valid() && (logger == root || Registered(logger))
      ensures thrown <==> disableValue < level && logger != root && Level(Config(), LinkOf(logger)) == NOT_SET_LOG_LEVEL
      ensures !thrown ==> (enabled <==> disableValue < level && Level(Config(), LinkOf(logger)) <= level)
    {
      if disableValue >= level {
        return false, false;
      }
      var ll;
      thrown, ll := GetChainedLogLevel(logger);
      enabled := level >= ll;
    }

    // ----- Changing settings -----

    /** RootLogger::setLogLevel refuses NOT_SET_LOG_LEVEL.  Only the root's constructor calls it. */
    method SetRootLevel(level: int)
      requires Valid()
      modifies root`ll
      ensures Valid()
      ensures Config() == if level == NOT_SET_LOG_LEVEL then old(Config()) else Do(old(Config()), SetLevel(Root, level))
    {
      ghost var c := Config();
      if level != NOT_SET_LOG_LEVEL {
        root.ll := level;
      }
      assert Settings() == c.nodes;
    }

    method AssignLevel(logger: LoggerImpl, level: int)
      requires Matches() && Registered(logger)
      modifies logger`ll
      ensures Settings() == old(Settings())[logger.name := Node(level, logger.additive, logger.appenders)]
    {
      logger.ll := level;
      assert Settings() == old(Settings())[logger.name := Node(level, logger.additive, logger.appenders)];
    }

    /** Logger::setLogLevel: every handle, the root's too, leads to LoggerImpl::setLogLevel. */
    method SetLogLevel(logger: LoggerImpl, level: int)
      requires Valid() && (logger == root || Registered(logger))
      modifies logger`ll
      ensures Valid() && Config() == Do(old(Config()), SetLevel(LinkOf(logger), level))
    {
      ghost var c, result := Config(), Do(Config(), SetLevel(LinkOf(logger), level));
      DoKeepsValid(c, SetLevel(LinkOf(logger), level));
      if logger == root {
        root.ll := level;
        assert Settings() == c.nodes;
      } else {
        AssignLevel(logger, level);
      }
      assert Config() == result;
    }

    /** The loops of shutdown and resetConfiguration over all loggers. */
    method ResetLoggers()
      requires Matches()
      modifies loggerPtrs.Values`ll, loggerPtrs.Values`additive, loggerPtrs.Values`appenders
      ensures Settings() == map n | n in loggerPtrs :: Fresh
    {
      var todo := loggerPtrs.Keys;
      while todo != {}
        invariant todo <= loggerPtrs.Keys
        invariant forall n {:trigger loggerPtrs[n].ll} :: n in loggerPtrs && n !in todo ==> loggerPtrs[n].Settings() == Fresh
        decreases todo
      {
        var n :| n in todo;
        var l := loggerPtrs[n];
        label before:
        l.appenders := [];
        l.ll := NOT_SET_LOG_LEVEL;
        l.additive := true;
        todo := todo - {n};
        forall m | m in loggerPtrs && m !in todo ensures loggerPtrs[m].Settings() == Fresh {
          assert loggerPtrs[m].name == m && l.name == n;
          if m != n { assert loggerPtrs[m].Settings() == old@before(loggerPtrs[m].Settings()); }
        }
      }
    }

    method ResetRoot()
      modifies root`ll, root`appenders
      ensures root.Settings() == old(root.Settings()).(level := DEBUG_LOG_LEVEL, appenders := [])
    {
      root.ll := DEBUG_LOG_LEVEL;
      root.appenders := [];
    }

    method ResetConfiguration()
      requires Valid()
      modifies root`ll, root`appenders, this`disableValue
      modifies loggerPtrs.Values`ll, loggerPtrs.Values`additive, loggerPtrs.Values`appenders
      ensures Config() == Do(old(Config()), LoggerChain.ResetConfiguration)
      ensures Valid() && disableValue == DISABLE_OFF
    {
      ghost var result := Do(Config(), LoggerChain.ResetConfiguration);
      DoKeepsValid(Config(), LoggerChain.ResetConfiguration);
      disableValue := DISABLE_OFF;
      ResetSettings();
      assert Config() == result;
    }

    method ResetSettings()
      requires Matches()
      modifies root`ll, root`appenders
      modifies loggerPtrs.Values`ll, loggerPtrs.Values`additive, loggerPtrs.Values`appenders
      ensures root.Settings() == old(root.Settings()).(level := DEBUG_LOG_LEVEL, appenders := [])
      ensures Settings() == map n | n in loggerPtrs :: Fresh
    {
      ResetRoot();
      ResetLoggers();
    }
  }
}
