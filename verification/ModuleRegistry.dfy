/** The module registry: a three-colour depth-first topological sort over declared
    dependencies, with its error cases, and the start and stop orders built on it. */
module ModuleRegistry {
  import opened Names
  import opened Options
  import opened Sorting

  datatype Descriptor = Descriptor(name: string, version: string, dependencies: seq<string>, critical: bool)

  /** The registered modules and the names among them that are switched on. */
  datatype Graph = Graph(modules: map<string, Descriptor>, selected: set<string>)

  datatype Fault =
    | CriticalOff(name: string)
    | Circular(name: string)
    | Missing(name: string)
    | Disabled(name: string)

  /** Either the order built so far, or the first fault met and the modules whose
      dependency loops were open around it, outermost first. */
  datatype Visited = Done(order: seq<string>) | Fail(fault: Fault, trail: seq<string>)

  ghost predicate WellFormed(g: Graph) {
    g.selected <= g.modules.Keys
  }

  function Elems(s: seq<string>): set<string> {
    set x | x in s
  }

  /** n needs d: n is a registered module that lists d. */
  ghost predicate Needs(g: Graph, n: string, d: string) {
    n in g.modules && d in g.modules[n].dependencies
  }

  // ----- What the search computes -----

  /** The recursive closure `visit`. path holds the names in state 1, in the order they were
      entered, and done those in state 2, in the order they were finished. */
  function Explore(g: Graph, name: string, path: seq<string>, done: seq<string>): Visited
    decreases g.selected - Elems(path), 0
  {
    if name in path then Fail(Circular(name), [])
    else if name in done then Done(done)
    else if name !in g.modules then Fail(Missing(name), [])
    else if name !in g.selected then Fail(Disabled(name), [])
    else
      assert name in g.selected - Elems(path) && name !in g.selected - Elems(path + [name]);
      match ExploreAll(g, SortNames(g.modules[name].dependencies), path + [name], done)
      case Done(order) => Done(order + [name])
      case Fail(fault, trail) => Fail(fault, [name] + trail)
  }

  function ExploreAll(g: Graph, names: seq<string>, path: seq<string>, done: seq<string>): Visited
    decreases g.selected - Elems(path), |names| + 1
  {
    if names == [] then Done(done)
    else
      match Explore(g, names[0], path, done)
      case Done(order) => ExploreAll(g, names[1..], path, order)
      case Fail(fault, trail) => Fail(fault, trail)
  }

  /** A registered module is on unless the configuration says otherwise. */
  predicate On(enabled: map<string, bool>, name: string) {
    name in enabled ==> enabled[name]
  }

  function Selected(modules: map<string, Descriptor>, enabled: map<string, bool>): set<string> {
    set n | n in modules && On(enabled, n)
  }

  function GraphOf(modules: map<string, Descriptor>, enabled: map<string, bool>): Graph {
    Graph(modules, Selected(modules, enabled))
  }

  ghost predicate NoCriticalOff(modules: map<string, Descriptor>, enabled: map<string, bool>) {
    forall n | n in modules && modules[n].critical :: On(enabled, n)
  }

  /** names lists the set s, each element once. */
  ghost predicate Enumerates(names: seq<string>, s: set<string>) {
    multiset(names) == multiset(s)
  }

  /** The first loop of Resolve over the registered names in the order of the map's iteration:
      the first critical module that is off, and else the names that are on. */
  function FirstOff(modules: map<string, Descriptor>, enabled: map<string, bool>, keys: seq<string>): Option<string>
    requires forall n | n in keys :: n in modules
  {
    if keys == [] then None
    else if modules[keys[0]].critical && !On(enabled, keys[0]) then Some(keys[0])
    else FirstOff(modules, enabled, keys[1..])
  }

  function Chosen(enabled: map<string, bool>, keys: seq<string>): seq<string> {
    if keys == [] then []
    else if On(enabled, keys[0]) then [keys[0]] + Chosen(enabled, keys[1..])
    else Chosen(enabled, keys[1..])
  }

  lemma Enumerated(keys: seq<string>, s: set<string>)
    requires Enumerates(keys, s)
    ensures forall n :: n in keys <==> n in s
  {
    forall n ensures n in keys <==> n in s {
      assert n in keys <==> n in multiset(keys);
    }
  }

  /** What Resolve returns when the map is iterated in the order keys. */
  ghost function Resolved(modules: map<string, Descriptor>, enabled: map<string, bool>, keys: seq<string>): Visited
    requires Enumerates(keys, modules.Keys)
  {
    Enumerated(keys, modules.Keys);
    var off := FirstOff(modules, enabled, keys);
    if off.Some? then Fail(CriticalOff(off.value), [])
    else ExploreAll(GraphOf(modules, enabled), SortNames(Chosen(enabled, keys)), [], [])
  }

  /** What Resolve may return, under some order of iteration. */
  ghost predicate Outcome(modules: map<string, Descriptor>, enabled: map<string, bool>, r: Visited) {
    exists keys :: Enumerates(keys, modules.Keys) && r == Resolved(modules, enabled, keys)
  }

  lemma {:induction false} FirstOffIsOff(modules: map<string, Descriptor>, enabled: map<string, bool>,
                                         keys: seq<string>)
    requires forall n | n in keys :: n in modules
    ensures var off := FirstOff(modules, enabled, keys);
      if off.Some? then off.value in keys && modules[off.value].critical && !On(enabled, off.value)
      else forall n | n in keys && modules[n].critical :: On(enabled, n)
  {
    if keys != [] { FirstOffIsOff(modules, enabled, keys[1..]); }
  }

  lemma OneMore(s: set<string>, n: string)
    requires n !in s
    ensures multiset(s + {n}) == multiset(s) + multiset{n}
  {
  }

  /** The rest of an enumeration enumerates the rest. */
  lemma EnumeratesRest(keys: seq<string>, s: set<string>)
    requires Enumerates(keys, s) && keys != []
    ensures keys[0] in s && Enumerates(keys[1..], s - {keys[0]})
  {
    var n, rest := keys[0], keys[1..];
    Enumerated(keys, s);
    OneMore(s - {n}, n);
    assert s == s - {n} + {n} && keys == [n] + rest;
    assert multiset(keys) == multiset{n} + multiset(rest);
    forall m ensures multiset(rest)[m] == multiset(s - {n})[m] {
      assert multiset(keys)[m] == multiset(s)[m];
    }
  }

  lemma {:induction false} ChosenEnumerates(enabled: map<string, bool>, keys: seq<string>, s: set<string>)
    requires Enumerates(keys, s)
    ensures Enumerates(Chosen(enabled, keys), set n | n in s && On(enabled, n))
    decreases |keys|
  {
    var on := set n | n in s && On(enabled, n);
    if keys == [] {
      Enumerated(keys, s);
      assert on == {};
    } else {
      EnumeratesRest(keys, s);
      ChosenEnumerates(enabled, keys[1..], s - {keys[0]});
      var others := set m | m in s - {keys[0]} && On(enabled, m);
      if On(enabled, keys[0]) {
        assert on == others + {keys[0]};
        OneMore(others, keys[0]);
      } else {
        assert on == others;
      }
    }
  }

  /** The outcome in terms of the sets alone. */
  lemma OutcomeMeans(modules: map<string, Descriptor>, enabled: map<string, bool>, r: Visited)
    requires Outcome(modules, enabled, r)
    ensures var g := GraphOf(modules, enabled);
      if NoCriticalOff(modules, enabled)
      then exists names :: Enumerates(names, g.selected) && r == ExploreAll(g, SortNames(names), [], [])
      else r.Fail? && r.fault.CriticalOff? && r.trail == [] && r.fault.name in modules
           && modules[r.fault.name].critical && !On(enabled, r.fault.name)
  {
    var keys :| Enumerates(keys, modules.Keys) && r == Resolved(modules, enabled, keys);
    Enumerated(keys, modules.Keys);
    FirstOffIsOff(modules, enabled, keys);
    ChosenEnumerates(enabled, keys, modules.Keys);
    assert (set n | n in modules.Keys && On(enabled, n)) == Selected(modules, enabled);
  }

  // ----- What a successful resolution promises -----

  /** Every dependency of order[i] stands at some earlier place. */
  ghost predicate DependenciesEarlier(g: Graph, order: seq<string>) {
    forall i, d | 0 <= i < |order| && Needs(g, order[i], d) :: d in order[..i]
  }

  ghost predicate Topological(g: Graph, order: seq<string>) {
    Distinct(order) && Elems(order) <= g.selected && DependenciesEarlier(g, order)
  }

  lemma Append(g: Graph, order: seq<string>, n: string)
    requires Topological(g, order) && n in g.selected && n !in order
    requires forall d | Needs(g, n, d) :: d in order
    ensures Topological(g, order + [n])
  {
    var longer := order + [n];
    forall i, d | 0 <= i < |longer| && Needs(g, longer[i], d) ensures d in longer[..i] {
      if i < |order| { assert longer[..i] == order[..i]; } else { assert longer[..i] == order; }
    }
  }

  lemma {:induction false} ExploreExtends(g: Graph, name: string, path: seq<string>, done: seq<string>)
    requires WellFormed(g) && Topological(g, done)
    ensures var r := Explore(g, name, path, done);
      r.Done? ==> Topological(g, r.order) && done <= r.order && name in r.order
                  && forall x | x in r.order && x !in done :: x !in path
    decreases g.selected - Elems(path), 0
  {
    if name !in path && name !in done && name in g.selected {
      assert name in g.selected - Elems(path) && name !in g.selected - Elems(path + [name]);
      var deps := g.modules[name].dependencies;
      SameMembers(SortNames(deps), deps);
      ExploreAllExtends(g, SortNames(deps), path + [name], done);
      var r := ExploreAll(g, SortNames(deps), path + [name], done);
      if r.Done? {
        assert name in path + [name];
        Append(g, r.order, name);
      }
    }
  }

  lemma {:induction false} ExploreAllExtends(g: Graph, names: seq<string>, path: seq<string>, done: seq<string>)
    requires WellFormed(g) && Topological(g, done)
    ensures var r := ExploreAll(g, names, path, done);
      r.Done? ==> Topological(g, r.order) && done <= r.order && (forall n | n in names :: n in r.order)
                  && forall x | x in r.order && x !in done :: x !in path
    decreases g.selected - Elems(path), |names| + 1
  {
    if names != [] {
      ExploreExtends(g, names[0], path, done);
      var first := Explore(g, names[0], path, done);
      if first.Done? {
        ExploreAllExtends(g, names[1..], path, first.order);
        assert names == [names[0]] + names[1..];
      }
    }
  }

  // ----- What a fault means -----

  ghost predicate Chain(g: Graph, w: seq<string>) {
    forall i | 0 <= i < |w| - 1 :: w[i] in g.selected && Needs(g, w[i], w[i + 1])
  }

  /** A closed dependency walk through enabled modules. */
  ghost predicate IsCycle(g: Graph, w: seq<string>) {
    |w| >= 2 && w[0] == w[|w| - 1] && Chain(g, w)
  }

  ghost predicate Acyclic(g: Graph) {
    forall w :: !IsCycle(g, w)
  }

  ghost predicate DependenciesOn(g: Graph) {
    forall n, d | n in g.selected && Needs(g, n, d) :: d in g.selected
  }

  /** The fault names a real defect: a closed walk through that module, or an enabled
      module that lists the unregistered or switched-off one. */
  ghost predicate FaultIsReal(g: Graph, f: Fault) {
    match f
    case CriticalOff(_) => false
    case Circular(n) => exists w :: IsCycle(g, w) && w[0] == n
    case Missing(n) => n !in g.modules && exists m :: m in g.selected && Needs(g, m, n)
    case Disabled(n) => n in g.modules && n !in g.selected && exists m :: m in g.selected && Needs(g, m, n)
  }

  /** The trail of a fault is the dependency chain that led to it. */
  ghost predicate Explains(g: Graph, path: seq<string>, r: Visited) {
    r.Fail? ==> FaultIsReal(g, r.fault) && Chain(g, path + r.trail + [r.fault.name])
  }

  lemma CycleOnPath(g: Graph, path: seq<string>, name: string)
    requires name in path && Chain(g, path + [name])
    ensures FaultIsReal(g, Circular(name))
  {
    var i :| 0 <= i < |path| && path[i] == name;
    var all := path + [name];
    var w := all[i..];
    forall j | 0 <= j < |w| - 1 ensures w[j] in g.selected && Needs(g, w[j], w[j + 1]) {
      assert w[j] == all[i + j] && w[j + 1] == all[i + j + 1];
    }
    assert IsCycle(g, w) && w[0] == name;
  }

  lemma LastNeeds(g: Graph, path: seq<string>, name: string)
    requires path != [] && Chain(g, path + [name])
    ensures path[|path| - 1] in g.selected && Needs(g, path[|path| - 1], name)
  {
    var all := path + [name];
    assert all[|path| - 1] in g.selected && Needs(g, all[|path| - 1], all[|path| - 1 + 1]);
  }

  lemma Lengthen(g: Graph, path: seq<string>, name: string, dep: string)
    requires Chain(g, path + [name]) && name in g.selected && Needs(g, name, dep)
    ensures Chain(g, path + [name] + [dep])
  {
    var w, v := path + [name], path + [name] + [dep];
    forall i | 0 <= i < |v| - 1 ensures v[i] in g.selected && Needs(g, v[i], v[i + 1]) {
      if i < |path| { assert w[i] in g.selected && Needs(g, w[i], w[i + 1]); }
    }
  }

  lemma {:induction false} ExploreExplains(g: Graph, name: string, path: seq<string>, done: seq<string>)
    requires WellFormed(g) && Chain(g, path + [name])
    requires path == [] ==> name in g.selected
    ensures Explains(g, path, Explore(g, name, path, done))
    decreases g.selected - Elems(path), 0
  {
    var r := Explore(g, name, path, done);
    if name in path {
      CycleOnPath(g, path, name);
      assert path + [] + [name] == path + [name];
    } else if name in done {
    } else if name !in g.modules || name !in g.selected {
      LastNeeds(g, path, name);
      assert path + [] + [name] == path + [name];
    } else {
      assert name in g.selected - Elems(path) && name !in g.selected - Elems(path + [name]);
      var deps := g.modules[name].dependencies;
      SameMembers(SortNames(deps), deps);
      forall d | d in SortNames(deps) ensures Chain(g, path + [name] + [d]) { Lengthen(g, path, name, d); }
      ExploreAllExplains(g, SortNames(deps), path + [name], done);
      if r.Fail? {
        var inner := ExploreAll(g, SortNames(deps), path + [name], done);
        assert path + r.trail == path + [name] + inner.trail;
      }
    }
  }

  lemma {:induction false} ExploreAllExplains(g: Graph, names: seq<string>, path: seq<string>, done: seq<string>)
    requires WellFormed(g)
    requires forall n | n in names :: Chain(g, path + [n]) && (path == [] ==> n in g.selected)
    ensures Explains(g, path, ExploreAll(g, names, path, done))
    decreases g.selected - Elems(path), |names| + 1
  {
    if names != [] {
      ExploreExplains(g, names[0], path, done);
      var first := Explore(g, names[0], path, done);
      if first.Done? {
        ExploreAllExplains(g, names[1..], path, first.order);
      }
    }
  }

  // ----- Success is exactly acceptability -----

  ghost function IndexOf(s: seq<string>, x: string): nat
    requires x in s
    ensures IndexOf(s, x) < |s| && s[IndexOf(s, x)] == x
  {
    var i :| 0 <= i < |s| && s[i] == x; i
  }

  /** Along a chain inside a topological order the places strictly decrease. */
  lemma {:induction false} ChainDescends(g: Graph, order: seq<string>, w: seq<string>)
    requires Topological(g, order) && |w| >= 2 && Chain(g, w) && w[0] in order
    ensures forall k | 1 <= k < |w| :: w[k] in order && IndexOf(order, w[k]) < IndexOf(order, w[0])
  {
    var i := IndexOf(order, w[0]);
    assert Needs(g, w[0], w[0 + 1]);
    var j :| 0 <= j < i && order[j] == w[1];
    assert IndexOf(order, w[1]) == j;
    if |w| > 2 {
      var v := w[1..];
      forall k | 0 <= k < |v| - 1 ensures v[k] in g.selected && Needs(g, v[k], v[k + 1]) {
        assert v[k] == w[k + 1] && v[k + 1] == w[k + 1 + 1];
      }
      ChainDescends(g, order, v);
      forall k | 1 <= k < |w| ensures w[k] in order && IndexOf(order, w[k]) < i {
        if k > 1 { assert w[k] == v[k - 1]; }
      }
    }
  }

  lemma TopologicalIsAcyclic(g: Graph, order: seq<string>)
    requires Topological(g, order) && Elems(order) == g.selected
    ensures Acyclic(g) && DependenciesOn(g)
  {
    forall w ensures !IsCycle(g, w) {
      if IsCycle(g, w) {
        assert w[0] in g.selected;
        assert w[0] in Elems(order);
        ChainDescends(g, order, w);
        assert false;
      }
    }
    forall n, d | n in g.selected && Needs(g, n, d) ensures d in g.selected {
      assert n in Elems(order);
      var i := IndexOf(order, n);
      assert d in order[..i];
      assert d in Elems(order);
    }
  }

  ghost predicate Acceptable(modules: map<string, Descriptor>, enabled: map<string, bool>) {
    var g := GraphOf(modules, enabled);
    NoCriticalOff(modules, enabled) && DependenciesOn(g) && Acyclic(g)
  }

  lemma RootsExplain(g: Graph, names: seq<string>)
    requires WellFormed(g) && Enumerates(names, g.selected)
    ensures Explains(g, [], ExploreAll(g, SortNames(names), [], []))
    ensures var r := ExploreAll(g, SortNames(names), [], []);
      r.Done? ==> Topological(g, r.order) && Elems(r.order) == g.selected
  {
    SameMembers(SortNames(names), names);
    forall n | n in names ensures n in g.selected { assert n in multiset(names); }
    forall n | n in g.selected ensures n in names { assert n in multiset(names); }
    ExploreAllExplains(g, SortNames(names), [], []);
    ExploreAllExtends(g, SortNames(names), [], []);
  }

  lemma RealFaultRefutes(g: Graph, f: Fault)
    requires WellFormed(g) && FaultIsReal(g, f)
    ensures !DependenciesOn(g) || !Acyclic(g)
  {
    if f.Circular? {
      var w :| IsCycle(g, w) && w[0] == f.name;
    } else {
      var m :| m in g.selected && Needs(g, m, f.name);
    }
  }

  lemma OrderSucceedsIff(g: Graph, names: seq<string>)
    requires WellFormed(g) && Enumerates(names, g.selected)
    ensures ExploreAll(g, SortNames(names), [], []).Done? <==> DependenciesOn(g) && Acyclic(g)
  {
    RootsExplain(g, names);
    var r := ExploreAll(g, SortNames(names), [], []);
    if r.Done? { TopologicalIsAcyclic(g, r.order); } else { RealFaultRefutes(g, r.fault); }
  }

  /** Resolve succeeds exactly when no critical module is off, every dependency of an enabled
      module is registered and enabled, and the enabled graph has no cycle. A success lists
      the enabled modules once each, dependencies first; a fault names a real defect. */
  lemma ResolveSucceedsIffAcceptable(modules: map<string, Descriptor>, enabled: map<string, bool>, r: Visited)
    requires Outcome(modules, enabled, r)
    ensures r.Done? <==> Acceptable(modules, enabled)
    ensures r.Done? ==> Topological(GraphOf(modules, enabled), r.order) && Elems(r.order) == Selected(modules, enabled)
    ensures r.Fail? && !r.fault.CriticalOff? ==> Explains(GraphOf(modules, enabled), [], r)
  {
    var g := GraphOf(modules, enabled);
    OutcomeMeans(modules, enabled, r);
    if NoCriticalOff(modules, enabled) {
      var names :| Enumerates(names, g.selected) && r == ExploreAll(g, SortNames(names), [], []);
      RootsExplain(g, names);
      OrderSucceedsIff(g, names);
    }
  }

  /** If none is off, none is named. */
  lemma NoneNamed(modules: map<string, Descriptor>, enabled: map<string, bool>, r: Visited)
    requires Outcome(modules, enabled, r) && NoCriticalOff(modules, enabled)
    ensures r.Fail? ==> !r.fault.CriticalOff?
  {
    OutcomeMeans(modules, enabled, r);
    var g := GraphOf(modules, enabled);
    var names :| Enumerates(names, g.selected) && r == ExploreAll(g, SortNames(names), [], []);
    RootsExplain(g, names);
  }

  // ----- The same in terms of the modules and the configuration alone -----

  /** n lists d, and the configuration does not switch n off. */
  ghost predicate Depends(modules: map<string, Descriptor>, enabled: map<string, bool>, n: string, d: string) {
    n in modules && d in modules[n].dependencies && (n !in enabled || enabled[n])
  }

  /** w goes along dependencies. */
  ghost predicate Walk(modules: map<string, Descriptor>, enabled: map<string, bool>, w: seq<string>) {
    |w| >= 2 && forall i | 0 <= i < |w| - 1 :: Depends(modules, enabled, w[i], w[i + 1])
  }

  /** w goes from a module back to that module. */
  ghost predicate Loop(modules: map<string, Descriptor>, enabled: map<string, bool>, w: seq<string>) {
    Walk(modules, enabled, w) && w[0] == w[|w| - 1]
  }

  lemma DependsMeans(modules: map<string, Descriptor>, enabled: map<string, bool>)
    ensures var g := GraphOf(modules, enabled);
      forall n, d :: Depends(modules, enabled, n, d) <==> n in g.selected && Needs(g, n, d)
  {
  }

  lemma WalkIsChain(modules: map<string, Descriptor>, enabled: map<string, bool>, w: seq<string>)
    ensures Walk(modules, enabled, w) <==> |w| >= 2 && Chain(GraphOf(modules, enabled), w)
  {
    var g := GraphOf(modules, enabled);
    DependsMeans(modules, enabled);
    hide Depends, Needs;
    if Walk(modules, enabled, w) {
      forall i | 0 <= i < |w| - 1 ensures w[i] in g.selected && Needs(g, w[i], w[i + 1]) {
        assert Depends(modules, enabled, w[i], w[i + 1]);
      }
    }
    if |w| >= 2 && Chain(g, w) {
      forall i | 0 <= i < |w| - 1 ensures Depends(modules, enabled, w[i], w[i + 1]) {
        assert w[i] in g.selected && Needs(g, w[i], w[i + 1]);
      }
    }
  }

  lemma LoopIsCycle(modules: map<string, Descriptor>, enabled: map<string, bool>, w: seq<string>)
    ensures Loop(modules, enabled, w) <==> IsCycle(GraphOf(modules, enabled), w)
  {
    WalkIsChain(modules, enabled, w);
  }

  lemma AcceptableMeans(modules: map<string, Descriptor>, enabled: map<string, bool>)
    ensures Acceptable(modules, enabled) <==>
              && (forall n | n in modules && modules[n].critical :: n !in enabled || enabled[n])
              && (forall n, d | Depends(modules, enabled, n, d) :: d in modules && (d !in enabled || enabled[d]))
              && (forall w :: !Loop(modules, enabled, w))
  {
    var g := GraphOf(modules, enabled);
    DependsMeans(modules, enabled);
    forall w ensures Loop(modules, enabled, w) <==> IsCycle(g, w) { LoopIsCycle(modules, enabled, w); }
    assert NoCriticalOff(modules, enabled)
      <==> forall n | n in modules && modules[n].critical :: n !in enabled || enabled[n];
    hide Depends, Needs, Loop, IsCycle, NoCriticalOff;
  }

  /** Whether Resolve succeeds can be told by looking at the registered modules and the
      configuration: a module that is not mentioned in the configuration is on. */
  lemma ResolveSucceedsIff(modules: map<string, Descriptor>, enabled: map<string, bool>, r: Visited)
    requires Outcome(modules, enabled, r)
    ensures r.Done? <==>
              && (forall n | n in modules && modules[n].critical :: n !in enabled || enabled[n])
              && (forall n, d | Depends(modules, enabled, n, d) :: d in modules && (d !in enabled || enabled[d]))
              && (forall w :: !Loop(modules, enabled, w))
  {
    hide *;
    ResolveSucceedsIffAcceptable(modules, enabled, r);
    AcceptableMeans(modules, enabled);
  }

  /** So can what the order consists of: every module that is not switched off, once, each after
      all that it lists. */
  lemma OrderMeans(modules: map<string, Descriptor>, enabled: map<string, bool>, r: Visited)
    requires Outcome(modules, enabled, r) && r.Done?
    ensures Distinct(r.order) && forall n :: n in r.order <==> n in modules && (n !in enabled || enabled[n])
    ensures forall i, d | 0 <= i < |r.order| && Depends(modules, enabled, r.order[i], d) :: d in r.order[..i]
  {
    hide Outcome;
    ResolveSucceedsIffAcceptable(modules, enabled, r);
    hide Acceptable;
    assert forall n :: n in r.order <==> n in Elems(r.order);
    DependsMeans(modules, enabled);
  }

  /** What a fault names. */
  ghost predicate Defect(modules: map<string, Descriptor>, enabled: map<string, bool>, fault: Fault) {
    match fault
    case CriticalOff(n) => n in modules && modules[n].critical && n in enabled && !enabled[n]
    case Missing(n) => n !in modules && exists m :: Depends(modules, enabled, m, n)
    case Disabled(n) => n in modules && n in enabled && !enabled[n] && exists m :: Depends(modules, enabled, m, n)
    case Circular(n) => exists w :: Loop(modules, enabled, w) && w[0] == n
  }

  lemma RealFaultMeans(modules: map<string, Descriptor>, enabled: map<string, bool>, fault: Fault)
    requires FaultIsReal(GraphOf(modules, enabled), fault)
    ensures Defect(modules, enabled, fault)
  {
    hide Chain, Depends, Needs;
    var g := GraphOf(modules, enabled);
    DependsMeans(modules, enabled);
    match fault
    case Circular(n) =>
      var w :| IsCycle(g, w) && w[0] == n;
      LoopIsCycle(modules, enabled, w);
    case Missing(n) =>
      var m :| m in g.selected && Needs(g, m, n);
      assert Depends(modules, enabled, m, n);
    case Disabled(n) =>
      var m :| m in g.selected && Needs(g, m, n);
      assert Depends(modules, enabled, m, n);
  }

  /** And what a fault says. */
  lemma FaultMeans(modules: map<string, Descriptor>, enabled: map<string, bool>, r: Visited)
    requires Outcome(modules, enabled, r) && r.Fail?
    ensures Defect(modules, enabled, r.fault)
  {
    hide Outcome, NoCriticalOff, Chain, FaultIsReal, Acceptable, Topological, Depends, Loop;
    OutcomeMeans(modules, enabled, r);
    if r.fault.CriticalOff? {
      if NoCriticalOff(modules, enabled) { NoneNamed(modules, enabled, r); }
    } else {
      ResolveSucceedsIffAcceptable(modules, enabled, r);
      RealFaultMeans(modules, enabled, r.fault);
    }
  }

  /** A program that configures nothing starts with all its modules, exactly if they have what
      they need: no module is taken for switched off. */
  lemma NothingConfigured(modules: map<string, Descriptor>, r: Visited)
    requires Outcome(modules, map[], r)
    ensures r.Done? <==>
              && (forall n, d | n in modules && d in modules[n].dependencies :: d in modules)
              && (forall w :: !Loop(modules, map[], w))
    ensures r.Done? ==> forall n :: n in r.order <==> n in modules
    ensures r.Fail? ==> !r.fault.CriticalOff? && !r.fault.Disabled?
  {
    ResolveSucceedsIff(modules, map[], r);
    if r.Fail? {
      FaultMeans(modules, map[], r);
    } else {
      OrderMeans(modules, map[], r);
      forall n, d | n in modules && d in modules[n].dependencies ensures d in modules {
        assert Depends(modules, map[], n, d);
      }
    }
  }

  /** The order in which maps are enumerated shows only in which critical module a
      CriticalOff fault names. */
  lemma ResolveIsDeterministic(modules: map<string, Descriptor>, enabled: map<string, bool>, r: Visited, s: Visited)
    requires Outcome(modules, enabled, r) && Outcome(modules, enabled, s)
    ensures r == s || (r.Fail? && s.Fail? && r.fault.CriticalOff? && s.fault.CriticalOff?)
  {
    var g := GraphOf(modules, enabled);
    OutcomeMeans(modules, enabled, r);
    OutcomeMeans(modules, enabled, s);
    if NoCriticalOff(modules, enabled) {
      var a :| Enumerates(a, g.selected) && r == ExploreAll(g, SortNames(a), [], []);
      var b :| Enumerates(b, g.selected) && s == ExploreAll(g, SortNames(b), [], []);
      SortIgnoresOrder(a, b);
    }
  }

  predicate IsOff(modules: map<string, Descriptor>, enabled: map<string, bool>, n: string) {
    n in modules && modules[n].critical && !On(enabled, n)
  }

  lemma {:induction false} Enumeration(s: set<string>) returns (keys: seq<string>)
    ensures Enumerates(keys, s)
    decreases |s|
  {
    if s == {} {
      keys := [];
    } else {
      var n :| n in s;
      var rest := Enumeration(s - {n});
      keys := [n] + rest;
      assert s == s - {n} + {n};
    }
  }

  lemma EnumerationFrom(s: set<string>, n: string) returns (keys: seq<string>)
    requires n in s
    ensures Enumerates(keys, s) && keys != [] && keys[0] == n
  {
    var rest := Enumeration(s - {n});
    keys := [n] + rest;
    assert s == s - {n} + {n};
  }

  /** Whatever order the map is iterated in, the answer is the same. */
  ghost predicate OneAnswer(modules: map<string, Descriptor>, enabled: map<string, bool>) {
    forall a, b | Enumerates(a, modules.Keys) && Enumerates(b, modules.Keys) ::
      Resolved(modules, enabled, a) == Resolved(modules, enabled, b)
  }

  /** The two orders: each of them starts with one of the two modules. */
  lemma OrdersNamingEither(modules: map<string, Descriptor>, enabled: map<string, bool>, m: string, n: string)
    returns (a: seq<string>, b: seq<string>)
    requires IsOff(modules, enabled, m) && IsOff(modules, enabled, n)
    ensures Enumerates(a, modules.Keys) && Enumerates(b, modules.Keys)
    ensures Resolved(modules, enabled, a) == Fail(CriticalOff(m), [])
    ensures Resolved(modules, enabled, b) == Fail(CriticalOff(n), [])
  {
    a := EnumerationFrom(modules.Keys, m);
    b := EnumerationFrom(modules.Keys, n);
    Enumerated(a, modules.Keys);
    Enumerated(b, modules.Keys);
    assert FirstOff(modules, enabled, a) == Some(m) && FirstOff(modules, enabled, b) == Some(n);
  }

  lemma SameFault(modules: map<string, Descriptor>, enabled: map<string, bool>, r: Visited, s: Visited)
    requires Outcome(modules, enabled, r) && Outcome(modules, enabled, s)
    requires forall m, n | IsOff(modules, enabled, m) && IsOff(modules, enabled, n) :: m == n
    ensures r == s
  {
    hide Outcome;
    ResolveIsDeterministic(modules, enabled, r, s);
    OutcomeMeans(modules, enabled, r);
    OutcomeMeans(modules, enabled, s);
    if NoCriticalOff(modules, enabled) {
      ResolveSucceedsIffAcceptable(modules, enabled, r);
      ResolveSucceedsIffAcceptable(modules, enabled, s);
      NoneNamed(modules, enabled, r);
    } else {
      assert IsOff(modules, enabled, r.fault.name) && IsOff(modules, enabled, s.fault.name);
    }
  }

  /** That is so exactly if no two critical modules are off: of two, the one met first is named. */
  lemma OneAnswerIffAtMostOneOff(modules: map<string, Descriptor>, enabled: map<string, bool>)
    ensures OneAnswer(modules, enabled)
            <==> forall m, n | IsOff(modules, enabled, m) && IsOff(modules, enabled, n) :: m == n
  {
    hide IsOff, Resolved;
    if OneAnswer(modules, enabled) {
      forall m, n | IsOff(modules, enabled, m) && IsOff(modules, enabled, n) ensures m == n {
        var a, b := OrdersNamingEither(modules, enabled, m, n);
      }
    }
    if forall m, n | IsOff(modules, enabled, m) && IsOff(modules, enabled, n) :: m == n {
      forall a, b | Enumerates(a, modules.Keys) && Enumerates(b, modules.Keys)
        ensures Resolved(modules, enabled, a) == Resolved(modules, enabled, b)
      {
        SameFault(modules, enabled, Resolved(modules, enabled, a), Resolved(modules, enabled, b));
      }
    }
  }

  // ----- Smaller names first -----

  ghost predicate Reaches(g: Graph, n: string, x: string) {
    n == x || exists w :: |w| >= 2 && w[0] == n && w[|w| - 1] == x && Chain(g, w)
  }

  lemma ReachesOn(g: Graph, n: string, d: string, x: string)
    requires n in g.selected && Needs(g, n, d) && Reaches(g, d, x)
    ensures Reaches(g, n, x)
  {
    var v := if d == x then [d] else (var w :| |w| >= 2 && w[0] == d && w[|w| - 1] == x && Chain(g, w); w);
    var w := [n] + v;
    forall i | 0 <= i < |w| - 1 ensures w[i] in g.selected && Needs(g, w[i], w[i + 1]) {
      if i > 0 { assert v[i - 1] in g.selected && Needs(g, v[i - 1], v[i - 1 + 1]); }
    }
    assert w[|w| - 1] == x;
  }

  lemma ReachesItself(g: Graph, n: string)
    ensures Reaches(g, n, n)
  {
  }

  /** A visit adds only what the visited module reaches. */
  lemma {:induction false} ExploreReaches(g: Graph, name: string, path: seq<string>, done: seq<string>)
    ensures var r := Explore(g, name, path, done);
      r.Done? ==> forall x | x in r.order && x !in done :: Reaches(g, name, x)
    decreases g.selected - Elems(path), 0
  {
    hide Reaches;
    var r := Explore(g, name, path, done);
    if r.Done? && name !in done {
      assert name in g.selected - Elems(path) && name !in g.selected - Elems(path + [name]);
      var deps := g.modules[name].dependencies;
      SameMembers(SortNames(deps), deps);
      ExploreAllReaches(g, SortNames(deps), path + [name], done);
      ReachesItself(g, name);
      forall x | x in r.order && x !in done && x != name ensures Reaches(g, name, x) {
        var d :| d in SortNames(deps) && Reaches(g, d, x);
        ReachesOn(g, name, d, x);
      }
    }
  }

  lemma {:induction false} ExploreAllReaches(g: Graph, names: seq<string>, path: seq<string>, done: seq<string>)
    ensures var r := ExploreAll(g, names, path, done);
      r.Done? ==> forall x | x in r.order && x !in done :: exists n :: n in names && Reaches(g, n, x)
    decreases g.selected - Elems(path), |names| + 1
  {
    hide Reaches;
    if names != [] && Explore(g, names[0], path, done).Done? {
      var first := Explore(g, names[0], path, done).order;
      ExploreReaches(g, names[0], path, done);
      ExploreAllReaches(g, names[1..], path, first);
      var r := ExploreAll(g, names, path, done);
      if r.Done? {
        forall x | x in r.order && x !in done ensures exists n :: n in names && Reaches(g, n, x) {
          if x in first {
            assert names[0] in names && Reaches(g, names[0], x);
          } else {
            var n :| n in names[1..] && Reaches(g, n, x);
            assert n in names;
          }
        }
      }
    }
  }

  lemma {:induction false} ExploreAllSplits(g: Graph, a: seq<string>, b: seq<string>, done: seq<string>)
    ensures var first := ExploreAll(g, a, [], done);
      ExploreAll(g, a + b, [], done) == if first.Fail? then first else ExploreAll(g, b, [], first.order)
    decreases |a|
  {
    if a == [] {
      assert a + b == b;
    } else {
      assert (a + b)[1..] == a[1..] + b;
      var first := Explore(g, a[0], [], done);
      if first.Done? { ExploreAllSplits(g, a[1..], b, first.order); }
    }
  }

  /** The roots up to one of them give a beginning of the order that contains it. */
  lemma OrderUpTo(g: Graph, roots: seq<string>, k: nat, order: seq<string>) returns (first: seq<string>)
    requires WellFormed(g) && k < |roots| && ExploreAll(g, roots, [], []) == Done(order)
    ensures first <= order && roots[k] in first && Distinct(order)
    ensures ExploreAll(g, roots[..k + 1], [], []) == Done(first)
  {
    var upTo, rest := roots[..k + 1], roots[k + 1..];
    assert upTo + rest == roots && upTo[k] == roots[k];
    ExploreAllSplits(g, upTo, rest, []);
    first := ExploreAll(g, upTo, [], []).order;
    hide ExploreAll;
    ExploreAllExtends(g, upTo, [], []);
    ExploreAllExtends(g, rest, [], first);
  }

  /** What stands before a module in the order is reached from a root up to that module. */
  lemma RootsUpTo(g: Graph, roots: seq<string>, k: nat, order: seq<string>, i: nat, j: nat) returns (q: nat)
    requires WellFormed(g) && k < |roots| && ExploreAll(g, roots, [], []) == Done(order)
    requires i <= j < |order| && order[j] == roots[k]
    ensures q <= k && Reaches(g, roots[q], order[i])
  {
    hide ExploreAll, Reaches, WellFormed;
    var first := OrderUpTo(g, roots, k, order);
    var m :| 0 <= m < |first| && first[m] == roots[k];
    assert order[m] == order[j] && first[i] == order[i];
    assert order[i] in first;
    ExploreAllReaches(g, roots[..k + 1], [], []);
    var n :| n in roots[..k + 1] && Reaches(g, n, order[i]);
    q :| 0 <= q < k + 1 && roots[..k + 1][q] == n;
  }

  lemma RootAt(g: Graph, names: seq<string>, n: string) returns (k: nat)
    requires Enumerates(names, g.selected) && n in g.selected
    ensures k < |SortNames(names)| && SortNames(names)[k] == n
    ensures forall q | 0 <= q <= k :: SortNames(names)[q] == n || Before(SortNames(names)[q], n)
  {
    hide Before;
    var roots := SortNames(names);
    SameMembers(roots, names);
    Enumerated(names, g.selected);
    LeqIsOrder();
    SortSorted(Leq, names);
    hide Transitive, Connected;
    k :| 0 <= k < |roots| && roots[k] == n;
    forall q | 0 <= q < k ensures roots[q] == n || Before(roots[q], n) {
      LeqMeans(roots[q], n);
    }
  }

  lemma RootWalk(g: Graph, names: seq<string>, order: seq<string>, i: nat, j: nat) returns (w: seq<string>)
    requires WellFormed(g) && Enumerates(names, g.selected)
    requires ExploreAll(g, SortNames(names), [], []) == Done(order) && Elems(order) == g.selected
    requires i < j < |order| && Before(order[j], order[i])
    ensures |w| >= 2 && Chain(g, w) && w[|w| - 1] == order[i]
    ensures w[0] == order[j] || Before(w[0], order[j])
  {
    hide ExploreAll, Chain, Before, Enumerates, WellFormed, SortNames;
    assert order[j] in Elems(order);
    var roots := SortNames(names);
    var k := RootAt(g, names, order[j]);
    var q := RootsUpTo(g, roots, k, order, i, j);
    BeforeIsStrict(order[i], order[j]);
    w :| |w| >= 2 && w[0] == roots[q] && w[|w| - 1] == order[i] && Chain(g, w);
  }

  /** Modules stand in the order of their names, except where dependencies forbid it: a module
      stands before one with a smaller name only if it is needed, directly or through others, by
      a module whose name is at most that one's. */
  lemma SmallerNamesFirst(modules: map<string, Descriptor>, enabled: map<string, bool>, r: Visited, i: nat, j: nat)
    returns (w: seq<string>)
    requires Outcome(modules, enabled, r) && r.Done?
    requires i < j < |r.order| && Before(r.order[j], r.order[i])
    ensures Walk(modules, enabled, w) && w[|w| - 1] == r.order[i]
    ensures w[0] == r.order[j] || Before(w[0], r.order[j])
  {
    var g := GraphOf(modules, enabled);
    ResolveSucceedsIffAcceptable(modules, enabled, r);
    OutcomeMeans(modules, enabled, r);
    var names :| Enumerates(names, g.selected) && r == ExploreAll(g, SortNames(names), [], []);
    w := RootWalk(g, names, r.order, i, j);
    WalkIsChain(modules, enabled, w);
  }

  // ----- The registry object -----

  /** The variables that the closure `visit` captures. */
  class Search {
    const g: Graph
    var state: map<string, int>
    var ordered: seq<string>

    constructor (g: Graph)
      ensures this.g == g && ordered == [] && Tracks([])
    {
      this.g := g;
      state := map[];
      ordered := [];
    }

    /** state is 1 on the names being visited and 2 on the finished ones. */
    ghost predicate Tracks(path: seq<string>)
      reads this
    {
      (forall n :: Colour(n) == 1 <==> n in path) && (forall n :: Colour(n) == 2 <==> n in ordered)
    }

    function Colour(n: string): int
      reads this
    {
      if n in state then state[n] else 0
    }

    method Visit(name: string, ghost path: seq<string>) returns (r: Visited)
      requires Tracks(path)
      modifies this
      ensures r == Explore(g, name, path, old(ordered))
      ensures r.Done? ==> ordered == r.order && Tracks(path)
      decreases g.selected - Elems(path), 0
    {
      if Colour(name) == 1 {
        return Fail(Circular(name), []);
      }
      if Colour(name) == 2 {
        return Done(ordered);
      }
      if name !in g.modules {
        return Fail(Missing(name), []);
      }
      if name !in g.selected {
        return Fail(Disabled(name), []);
      }
      state := state[name := 1];
      var deps := SortNames(g.modules[name].dependencies);
      assert name in g.selected - Elems(path) && name !in g.selected - Elems(path + [name]);
      ghost var inner := path + [name];
      ghost var whole := ExploreAll(g, deps, inner, ordered);
      assert Tracks(inner);
      for i := 0 to |deps|
        invariant Tracks(inner)
        invariant ExploreAll(g, deps[i..], inner, ordered) == whole
      {
        assert deps[i..][0] == deps[i] && deps[i..][1..] == deps[i + 1..];
        var visited := Visit(deps[i], inner);
        if visited.Fail? {
          return Fail(visited.fault, [name] + visited.trail);
        }
      }
      state := state[name := 2];
      ordered := ordered + [name];
      r := Done(ordered);
    }
  }

  /** The last loop of Resolve: visit every enabled module, in sorted order. */
  method Order(g: Graph, names: seq<string>) returns (r: Visited)
    ensures r == ExploreAll(g, SortNames(names), [], [])
  {
    var search := new Search(g);
    var sorted := SortNames(names);
    ghost var whole := ExploreAll(g, sorted, [], []);
    for i := 0 to |sorted|
      invariant search.g == g && search.Tracks([]) && fresh(search)
      invariant ExploreAll(g, sorted[i..], [], search.ordered) == whole
    {
      assert sorted[i..][0] == sorted[i] && sorted[i..][1..] == sorted[i + 1..];
      r := search.Visit(sorted[i], []);
      if r.Fail? {
        return;
      }
    }
    r := Done(search.ordered);
  }

  lemma {:induction false} FirstOffAppend(modules: map<string, Descriptor>, enabled: map<string, bool>,
                                          keys: seq<string>, name: string)
    requires forall n | n in keys + [name] :: n in modules
    requires FirstOff(modules, enabled, keys) == None
    ensures FirstOff(modules, enabled, keys + [name])
            == if modules[name].critical && !On(enabled, name) then Some(name) else None
  {
    if keys == [] {
      assert keys + [name] == [name];
    } else {
      assert (keys + [name])[1..] == keys[1..] + [name];
      FirstOffAppend(modules, enabled, keys[1..], name);
    }
  }

  lemma {:induction false} ChosenAppend(enabled: map<string, bool>, keys: seq<string>, name: string)
    ensures Chosen(enabled, keys + [name])
            == if On(enabled, name) then Chosen(enabled, keys) + [name] else Chosen(enabled, keys)
  {
    if keys == [] {
      assert keys + [name] == [name];
    } else {
      assert (keys + [name])[1..] == keys[1..] + [name];
      ChosenAppend(enabled, keys[1..], name);
    }
  }

  lemma {:induction false} FirstOffStops(modules: map<string, Descriptor>, enabled: map<string, bool>,
                                         keys: seq<string>, more: seq<string>, name: string)
    requires forall n | n in keys + more :: n in modules
    requires FirstOff(modules, enabled, keys) == Some(name)
    ensures FirstOff(modules, enabled, keys + more) == Some(name)
  {
    if keys != [] {
      assert (keys + more)[1..] == keys[1..] + more;
      if !(modules[keys[0]].critical && !On(enabled, keys[0])) {
        FirstOffStops(modules, enabled, keys[1..], more, name);
      }
    }
  }

  lemma StopsThere(modules: map<string, Descriptor>, enabled: map<string, bool>,
                   keys: seq<string>, more: seq<string>, name: string, rest: set<string>)
    requires rest <= modules.Keys && Enumerates(keys, modules.Keys - rest) && Enumerates(more, rest)
    requires (forall n :: n in keys ==> n in modules) && FirstOff(modules, enabled, keys) == Some(name)
    ensures Enumerates(keys + more, modules.Keys) && forall n :: n in keys + more ==> n in modules
    ensures FirstOff(modules, enabled, keys + more) == Some(name)
  {
    Enumerated(more, rest);
    FirstOffStops(modules, enabled, keys, more, name);
    assert modules.Keys - rest + rest == modules.Keys;
    assert multiset(modules.Keys) == multiset(modules.Keys - rest) + multiset(rest);
  }

  function Reversed(s: seq<string>): (r: seq<string>)
    ensures |r| == |s|
  {
    if s == [] then [] else Reversed(s[1..]) + [s[0]]
  }

  lemma {:induction false} ReversedAt(s: seq<string>, i: nat)
    requires i < |s|
    ensures Reversed(s)[i] == s[|s| - 1 - i]
  {
    if |s| > 1 {
      ReversedAt(s[1..], if i < |s| - 1 then i else 0);
    }
  }

  /** Whatever needs a module is stopped before it. */
  lemma DependentsStopFirst(g: Graph, order: seq<string>, i: nat, d: string)
    requires Topological(g, order) && i < |order| && Needs(g, Reversed(order)[i], d)
    ensures d in Reversed(order)[i + 1..]
  {
    ReversedAt(order, i);
    var j := |order| - 1 - i;
    assert d in order[..j];
    var k :| 0 <= k < j && order[k] == d;
    ReversedAt(order, |order| - 1 - k);
    assert Reversed(order)[i + 1..][|order| - 1 - k - (i + 1)] == d;
  }

  class Registry {
    var modules: map<string, Descriptor>
    var ordered: seq<string>
    ghost var graph: Graph

    constructor ()
      ensures Valid() && modules == map[] && ordered == []
    {
      modules := map[];
      ordered := [];
      graph := Graph(map[], {});
    }

    /** Modules are filed under their own names. The order is that of graph, the modules and
        their dependencies at the last successful resolution. */
    ghost predicate Valid()
      reads this
    {
      && (forall n | n in modules :: modules[n].name == n && n != "" && modules[n].version != "")
      && Topological(graph, ordered)
    }

    method Add(d: Descriptor) returns (ok: bool)
      requires Valid()
      modifies this`modules
      ensures Valid()
      ensures ok <==> d.name != "" && d.version != "" && d.name !in old(modules)
      ensures modules == if ok then old(modules)[d.name := d] else old(modules)
    {
      if d.name == "" || d.version == "" || d.name in modules {
        return false;
      }
      modules := modules[d.name := d];
      ok := true;
    }

    /** The first loop of Resolve, over the map in any order; keys is the one it took. */
    method Select(enabled: map<string, bool>) returns (names: seq<string>, off: Option<string>, ghost keys: seq<string>)
      ensures Enumerates(keys, modules.Keys) && forall n :: n in keys ==> n in modules
      ensures off == FirstOff(modules, enabled, keys)
      ensures off.None? ==> names == Chosen(enabled, keys)
      ensures if off.Some? then IsOff(modules, enabled, off.value) else NoCriticalOff(modules, enabled)
      ensures off.None? ==> Enumerates(names, Selected(modules, enabled))
      ensures off.Some? ==> off.value in modules && modules[off.value].critical
                            && off.value in enabled && !enabled[off.value]
      ensures off.None? ==> forall n | n in modules && modules[n].critical :: n !in enabled || enabled[n]
      ensures off.None? ==> forall n :: n in names <==> n in modules && (n !in enabled || enabled[n])
    {
      names, off, keys := [], None, [];
      var rest := modules.Keys;
      while rest != {}
        invariant rest <= modules.Keys && Enumerates(keys, modules.Keys - rest)
        invariant forall n :: n in keys ==> n in modules
        invariant FirstOff(modules, enabled, keys) == None && names == Chosen(enabled, keys)
      {
        var name :| name in rest;
        var on := if name in enabled then enabled[name] else true;
        assert modules.Keys - (rest - {name}) == modules.Keys - rest + {name};
        OneMore(modules.Keys - rest, name);
        FirstOffAppend(modules, enabled, keys, name);
        ChosenAppend(enabled, keys, name);
        rest := rest - {name};
        if modules[name].critical && !on {
          ghost var others := Enumeration(rest);
          StopsThere(modules, enabled, keys + [name], others, name, rest);
          keys := keys + [name] + others;
          return names, Some(name), keys;
        }
        if on {
          names := names + [name];
        }
        keys := keys + [name];
      }
      assert modules.Keys - rest == modules.Keys;
      Enumerated(keys, modules.Keys);
      FirstOffIsOff(modules, enabled, keys);
      ChosenEnumerates(enabled, keys, modules.Keys);
      assert (set n | n in modules.Keys && On(enabled, n)) == Selected(modules, enabled);
      Enumerated(names, Selected(modules, enabled));
    }

    /** What Resolve does before it stores the order. */
    method Decide(enabled: map<string, bool>) returns (r: Visited)
      ensures Outcome(modules, enabled, r)
    {
      var names, off, keys := Select(enabled);
      if off.Some? {
        r := Fail(CriticalOff(off.value), []);
      } else {
        r := Order(GraphOf(modules, enabled), names);
      }
      assert r == Resolved(modules, enabled, keys);
    }

    method Resolve(enabled: map<string, bool>) returns (r: Visited)
      requires Valid()
      modifies this`ordered, this`graph
      ensures Valid() && Outcome(modules, enabled, r)
      ensures ordered == if r.Done? then r.order else old(ordered)
      ensures graph == if r.Done? then GraphOf(modules, enabled) else old(graph)
      ensures r.Done? <==>
                && (forall n | n in modules && modules[n].critical :: n !in enabled || enabled[n])
                && (forall n, d | Depends(modules, enabled, n, d) :: d in modules && (d !in enabled || enabled[d]))
                && (forall w :: !Loop(modules, enabled, w))
      ensures r.Fail? ==> Defect(modules, enabled, r.fault)
      ensures r.Done? ==> Distinct(ordered)
      ensures r.Done? ==> forall n :: n in ordered <==> n in modules && (n !in enabled || enabled[n])
      ensures r.Done? ==>
                forall i, d | 0 <= i < |ordered| && Depends(modules, enabled, ordered[i], d) :: d in ordered[..i]
    {
      hide Outcome, Resolved, Defect, Depends, Loop, Acceptable, Topological;
      r := Decide(enabled);
      ResolveSucceedsIff(modules, enabled, r);
      if r.Fail? {
        FaultMeans(modules, enabled, r);
        return;
      }
      OrderMeans(modules, enabled, r);
      ResolveSucceedsIffAcceptable(modules, enabled, r);
      ordered := r.order;
      graph := GraphOf(modules, enabled);
    }

    /** Starts modules in order, up to the first that fails. */
    method Start(fails: set<string>) returns (started: seq<string>, ok: bool)
      requires Valid()
      ensures forall i, d | 0 <= i < |started| && Needs(graph, started[i], d) :: d in started[..i]
      ensures started <= ordered && forall n | n in started :: n !in fails
      ensures ok <==> started == ordered
      ensures !ok ==> |started| < |ordered| && ordered[|started|] in fails
    {
      started := [];
      for i := 0 to |ordered|
        invariant started == ordered[..i] && forall n | n in started :: n !in fails
      {
        if ordered[i] in fails {
          assert forall k | 0 <= k <= i :: started[..k] == ordered[..k];
          return started, false;
        }
        started := started + [ordered[i]];
      }
      ok := true;
    }

    /** Stops every module, last started first, whatever fails on the way. */
    method Stop(fails: set<string>) returns (stopped: seq<string>, errors: seq<string>)
      requires Valid()
      ensures forall i: nat, d | i < |stopped| && Needs(graph, stopped[i], d) :: d in stopped[i + 1..]
      ensures stopped == Reversed(ordered)
      ensures forall n :: n in errors <==> n in ordered && n in fails
    {
      stopped, errors := [], [];
      var i := |ordered| - 1;
      while i >= 0
        invariant -1 <= i < |ordered|
        invariant stopped == Reversed(ordered[i + 1..])
        invariant forall n :: n in errors <==> n in ordered[i + 1..] && n in fails
      {
        assert ordered[i..] == [ordered[i]] + ordered[i + 1..];
        stopped := stopped + [ordered[i]];
        if ordered[i] in fails {
          errors := errors + [ordered[i]];
        }
        i := i - 1;
      }
      assert ordered[0..] == ordered;
      forall i: nat, d | i < |stopped| && Needs(graph, stopped[i], d) ensures d in stopped[i + 1..] {
        DependentsStopFirst(graph, ordered, i, d);
      }
    }
  }
}
