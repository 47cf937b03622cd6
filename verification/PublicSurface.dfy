/**
  The public-surface walker of `check_api_superset`.

  The walk keeps no visited set, so it terminates only when the step graph has a rank; the rank is a
  ghost map over the nodes (crate, item list) that the walk can reach. The walk is proved to collect exactly
  what the routes derive, and so exactly what the rules put on the surface.
  */
module PublicSurface {
  import opened Basics
  import opened SurfaceRules
  import opened SurfaceSteps

  // ---------- The rank hypothesis ----------

  datatype Node = Node(krate: Crate, items: seq<Id>)
  type Rank = map<Node, nat>

  ghost predicate StepBelow(rank: Rank, step: Step, bound: nat) {
    step.Inline? || step.Import? ==> Node(step.krate, step.items) in rank && rank[Node(step.krate, step.items)] < bound
  }

  /** Every item of the node leads strictly down, and every module summary of its crate has a path. */
  ghost predicate NodeOk(deps: Deps, rank: Rank, node: Node)
    requires node in rank
  {
    && (forall i :: 0 <= i < |node.items| ==> StepBelow(rank, ItemStep(deps, node.krate, node.items[i]), rank[node]))
    && (forall id :: id in node.krate.paths && node.krate.paths[id].kind.ModuleKind? ==> |node.krate.paths[id].path| > 0)
  }

  ghost predicate Ranked(deps: Deps, rank: Rank) {
    forall node :: node in rank ==> NodeOk(deps, rank, node)
  }

  // ---------- The walk as a list of insertions ----------

  function JoinAll(p: string, entries: seq<Entry>): (joined: seq<Entry>)
    ensures |joined| == |entries|
    ensures forall i :: 0 <= i < |entries| ==> joined[i] == (JoinPath(p, entries[i].0), entries[i].1)
  {
    seq(|entries|, i requires 0 <= i < |entries| => (JoinPath(p, entries[i].0), entries[i].1))
  }

  /** The insertions made by the first `n` items of a node, in order. */
  ghost function Emits(deps: Deps, rank: Rank, krate: Crate, items: seq<Id>, n: nat, prefix: string): seq<Entry>
    requires Ranked(deps, rank) && Node(krate, items) in rank && n <= |items|
    decreases rank[Node(krate, items)], n
  {
    if n == 0 then []
    else
      assert NodeOk(deps, rank, Node(krate, items));
      var step := ItemStep(deps, krate, items[n - 1]);
      assert StepBelow(rank, step, rank[Node(krate, items)]);
      Emits(deps, rank, krate, items, n - 1, prefix) +
      match step
      case Nothing => []
      case Leaf(segment, kind) => [(At(prefix, segment), kind)]
      case Inline(k, its, segment) => Emits(deps, rank, k, its, |its|, At(prefix, segment))
      case Import(k, its, segment) => JoinAll(At(prefix, segment), Emits(deps, rank, k, its, |its|, ""))
  }

  ghost function EmitsAll(deps: Deps, rank: Rank, node: Node, prefix: string): seq<Entry>
    requires Ranked(deps, rank) && node in rank
  {
    Emits(deps, rank, node.krate, node.items, |node.items|, prefix)
  }

  ghost predicate StepOk(rank: Rank, step: Step) {
    step.Inline? || step.Import? ==> Node(step.krate, step.items) in rank
  }

  /** The insertions of a single step. */
  ghost function StepEmits(deps: Deps, rank: Rank, step: Step, prefix: string): seq<Entry>
    requires Ranked(deps, rank) && StepOk(rank, step)
  {
    match step
    case Nothing => []
    case Leaf(segment, kind) => [(At(prefix, segment), kind)]
    case Inline(k, its, segment) => EmitsAll(deps, rank, Node(k, its), At(prefix, segment))
    case Import(k, its, segment) => JoinAll(At(prefix, segment), EmitsAll(deps, rank, Node(k, its), ""))
  }

  lemma StepOfItem(deps: Deps, rank: Rank, node: Node, i: nat)
    requires Ranked(deps, rank) && node in rank && i < |node.items|
    ensures StepBelow(rank, ItemStep(deps, node.krate, node.items[i]), rank[node])
  {
    assert NodeOk(deps, rank, node);
  }

  lemma EmitsNext(deps: Deps, rank: Rank, node: Node, n: nat, prefix: string)
    requires Ranked(deps, rank) && node in rank && n < |node.items|
    ensures StepOk(rank, ItemStep(deps, node.krate, node.items[n]))
    ensures Emits(deps, rank, node.krate, node.items, n + 1, prefix) ==
            Emits(deps, rank, node.krate, node.items, n, prefix) +
            StepEmits(deps, rank, ItemStep(deps, node.krate, node.items[n]), prefix)
  {
    StepOfItem(deps, rank, node, n);
  }

  /** Insert the entries one after another: the last insertion at a path wins. */
  function Insert(types: map<string, string>, entries: seq<Entry>): map<string, string> {
    if |entries| == 0 then types
    else Insert(types, entries[..|entries| - 1])[entries[|entries| - 1].0 := entries[|entries| - 1].1]
  }

  lemma {:induction false} InsertAppend(types: map<string, string>, a: seq<Entry>, b: seq<Entry>)
    ensures Insert(types, a + b) == Insert(Insert(types, a), b)
  {
    if |b| == 0 {
      assert a + b == a;
    } else {
      assert (a + b)[..|a + b| - 1] == a + b[..|b| - 1];
      InsertAppend(types, a, b[..|b| - 1]);
    }
  }

  /** What the resulting map holds: a path is a key iff it was one or was inserted, and its value was put there. */
  lemma {:induction false} InsertHolds(types: map<string, string>, entries: seq<Entry>, path: string)
    ensures path in Insert(types, entries) <==> path in types || exists kind :: (path, kind) in entries
    ensures path in Insert(types, entries) ==>
              || (path in types && Insert(types, entries)[path] == types[path])
              || (path, Insert(types, entries)[path]) in entries
  {
    if |entries| == 0 {
    } else {
      var init, last := entries[..|entries| - 1], entries[|entries| - 1];
      assert entries == init + [last];
      InsertHolds(types, init, path);
      assert path == last.0 ==> (path, last.1) in entries;
    }
  }

  // ---------- The walk collects exactly the routes ----------

  function PrependAll(id: Id, routes: seq<Route>): (extended: seq<Route>)
    ensures |extended| == |routes|
    ensures forall i :: 0 <= i < |routes| ==> extended[i] == [id] + routes[i]
  {
    seq(|routes|, i requires 0 <= i < |routes| => [id] + routes[i])
  }

  /** The routes of a node in walk order; they do not depend on the prefix. */
  ghost function Routes(deps: Deps, rank: Rank, krate: Crate, items: seq<Id>, n: nat): seq<Route>
    requires Ranked(deps, rank) && Node(krate, items) in rank && n <= |items|
    decreases rank[Node(krate, items)], n
  {
    if n == 0 then []
    else
      assert NodeOk(deps, rank, Node(krate, items));
      var step := ItemStep(deps, krate, items[n - 1]);
      assert StepBelow(rank, step, rank[Node(krate, items)]);
      Routes(deps, rank, krate, items, n - 1) +
      match step
      case Nothing => []
      case Leaf(_, _) => [[items[n - 1]]]
      case Inline(k, its, _) => PrependAll(items[n - 1], Routes(deps, rank, k, its, |its|))
      case Import(k, its, _) => PrependAll(items[n - 1], Routes(deps, rank, k, its, |its|))
  }

  ghost function RoutesAll(deps: Deps, rank: Rank, node: Node): seq<Route>
    requires Ranked(deps, rank) && node in rank
  {
    Routes(deps, rank, node.krate, node.items, |node.items|)
  }

  ghost function StepRoutes(deps: Deps, rank: Rank, id: Id, step: Step): seq<Route>
    requires Ranked(deps, rank) && StepOk(rank, step)
  {
    match step
    case Nothing => []
    case Leaf(_, _) => [[id]]
    case Inline(k, its, _) => PrependAll(id, RoutesAll(deps, rank, Node(k, its)))
    case Import(k, its, _) => PrependAll(id, RoutesAll(deps, rank, Node(k, its)))
  }

  lemma RoutesNext(deps: Deps, rank: Rank, node: Node, n: nat)
    requires Ranked(deps, rank) && node in rank && n < |node.items|
    ensures StepOk(rank, ItemStep(deps, node.krate, node.items[n]))
    ensures Routes(deps, rank, node.krate, node.items, n + 1) ==
            Routes(deps, rank, node.krate, node.items, n) +
            StepRoutes(deps, rank, node.items[n], ItemStep(deps, node.krate, node.items[n]))
  {
    StepOfItem(deps, rank, node, n);
  }

  /** The routes `routes` derive, from `node` and `prefix`, the entries `entries` one for one. */
  ghost predicate DeriveEach(deps: Deps, node: Node, prefix: string, routes: seq<Route>, entries: seq<Entry>) {
    && |routes| == |entries|
    && forall i :: 0 <= i < |routes| ==> Follow(deps, node.krate, node.items, prefix, routes[i]) == Some(entries[i])
  }

  lemma DeriveEachAppend(deps: Deps, node: Node, prefix: string, routes: seq<Route>, entries: seq<Entry>, routes': seq<Route>, entries': seq<Entry>)
    requires DeriveEach(deps, node, prefix, routes, entries) && DeriveEach(deps, node, prefix, routes', entries')
    ensures DeriveEach(deps, node, prefix, routes + routes', entries + entries')
  {
    hide Follow;
  }

  lemma StepDerivesEach(deps: Deps, rank: Rank, node: Node, id: Id, step: Step, prefix: string)
    requires Ranked(deps, rank) && StepOk(rank, step)
    requires id in node.items && step == ItemStep(deps, node.krate, id)
    requires step.Inline? ==> DeriveEach(deps, Node(step.krate, step.items), At(prefix, step.segment),
                                         RoutesAll(deps, rank, Node(step.krate, step.items)), EmitsAll(deps, rank, Node(step.krate, step.items), At(prefix, step.segment)))
    requires step.Import? ==> DeriveEach(deps, Node(step.krate, step.items), "",
                                         RoutesAll(deps, rank, Node(step.krate, step.items)), EmitsAll(deps, rank, Node(step.krate, step.items), ""))
    ensures DeriveEach(deps, node, prefix, StepRoutes(deps, rank, id, step), StepEmits(deps, rank, step, prefix))
  {
    var routes, entries := StepRoutes(deps, rank, id, step), StepEmits(deps, rank, step, prefix);
    forall i | 0 <= i < |routes|
      ensures Follow(deps, node.krate, node.items, prefix, routes[i]) == Some(entries[i])
    {
      if step.Inline? || step.Import? {
        assert routes[i][1..] == RoutesAll(deps, rank, Node(step.krate, step.items))[i];
      }
    }
  }

  lemma NothingDerived(deps: Deps, rank: Rank, node: Node, prefix: string)
    requires Ranked(deps, rank) && node in rank
    ensures DeriveEach(deps, node, prefix, Routes(deps, rank, node.krate, node.items, 0), Emits(deps, rank, node.krate, node.items, 0, prefix))
  {
    hide Ranked;
  }

  /** Soundness of every insertion: the i-th one is what the i-th route derives. */
  lemma {:induction false} EmitsDeriveEach(deps: Deps, rank: Rank, node: Node, n: nat, prefix: string)
    requires Ranked(deps, rank) && node in rank && n <= |node.items|
    ensures DeriveEach(deps, node, prefix, Routes(deps, rank, node.krate, node.items, n), Emits(deps, rank, node.krate, node.items, n, prefix))
    decreases rank[node], n
  {
    hide Emits, Routes, StepEmits, StepRoutes, DeriveEach, ItemStep, Ranked, Follow, At;
    if n == 0 {
      NothingDerived(deps, rank, node, prefix);
      return;
    }
    EmitsDeriveEach(deps, rank, node, n - 1, prefix);
    EmitsNext(deps, rank, node, n - 1, prefix);
    RoutesNext(deps, rank, node, n - 1);
    StepOfItem(deps, rank, node, n - 1);
    var step := ItemStep(deps, node.krate, node.items[n - 1]);
    if step.Inline? {
      EmitsDeriveEach(deps, rank, Node(step.krate, step.items), |step.items|, At(prefix, step.segment));
    } else if step.Import? {
      EmitsDeriveEach(deps, rank, Node(step.krate, step.items), |step.items|, "");
    }
    StepDerivesEach(deps, rank, node, node.items[n - 1], step, prefix);
    DeriveEachAppend(deps, node, prefix,
                     Routes(deps, rank, node.krate, node.items, n - 1), Emits(deps, rank, node.krate, node.items, n - 1, prefix),
                     StepRoutes(deps, rank, node.items[n - 1], step), StepEmits(deps, rank, step, prefix));
  }

  lemma {:induction false} StepRoutesInRoutes(deps: Deps, rank: Rank, node: Node, j: nat, n: nat, route: Route)
    requires Ranked(deps, rank) && node in rank && j < n <= |node.items|
    requires StepOk(rank, ItemStep(deps, node.krate, node.items[j]))
    requires route in StepRoutes(deps, rank, node.items[j], ItemStep(deps, node.krate, node.items[j]))
    ensures route in Routes(deps, rank, node.krate, node.items, n)
    decreases n
  {
    hide Routes, StepRoutes, ItemStep;
    RoutesNext(deps, rank, node, n - 1);
    if j < n - 1 {
      StepRoutesInRoutes(deps, rank, node, j, n - 1, route);
    }
  }

  /** Completeness: every route that derives anything is walked. */
  lemma {:induction false} RouteIsWalked(deps: Deps, rank: Rank, node: Node, prefix: string, route: Route)
    requires Ranked(deps, rank) && node in rank
    requires Follow(deps, node.krate, node.items, prefix, route).Some?
    ensures route in RoutesAll(deps, rank, node)
    decreases |route|
  {
    var j :| 0 <= j < |node.items| && node.items[j] == route[0];
    StepOfItem(deps, rank, node, j);
    var step := ItemStep(deps, node.krate, route[0]);
    assert route == [route[0]] + route[1..];
    if step.Leaf? {
      assert route == [node.items[j]];
    } else {
      var child := Node(step.krate, step.items);
      RouteIsWalked(deps, rank, child, if step.Inline? then At(prefix, step.segment) else "", route[1..]);
      var i :| 0 <= i < |RoutesAll(deps, rank, child)| && RoutesAll(deps, rank, child)[i] == route[1..];
      assert StepRoutes(deps, rank, route[0], step)[i] == route;
    }
    StepRoutesInRoutes(deps, rank, node, j, |node.items|, route);
  }

  /** An entry is inserted exactly when some route derives it. */
  lemma EmitsIffDerivable(deps: Deps, rank: Rank, node: Node, prefix: string, path: string, kind: string)
    requires Ranked(deps, rank) && node in rank
    ensures (path, kind) in EmitsAll(deps, rank, node, prefix) <==> Derivable(deps, node.krate, node.items, prefix, path, kind)
  {
    var entries, routes := EmitsAll(deps, rank, node, prefix), RoutesAll(deps, rank, node);
    EmitsDeriveEach(deps, rank, node, |node.items|, prefix);
    if (path, kind) in entries {
      var i :| 0 <= i < |entries| && entries[i] == (path, kind);
      assert Follow(deps, node.krate, node.items, prefix, routes[i]) == Some((path, kind));
    }
    forall route | Follow(deps, node.krate, node.items, prefix, route) == Some((path, kind))
      ensures (path, kind) in entries
    {
      RouteIsWalked(deps, rank, node, prefix, route);
      var i :| 0 <= i < |routes| && routes[i] == route;
      assert entries[i] == (path, kind);
    }
  }

  // ---------- The walker itself ----------

  /** Inserting joined entries is inserting the joined map; joining keeps distinct paths distinct. */
  lemma {:induction false} InsertJoinAll(types: map<string, string>, p: string, entries: seq<Entry>, q: string)
    ensures var sub, out := Insert(map[], entries), Insert(types, JoinAll(p, entries));
            && (forall key :: key in sub ==> JoinPath(p, key) in out && out[JoinPath(p, key)] == sub[key])
            && ((forall key :: key in sub ==> JoinPath(p, key) != q) ==>
                  (q in out <==> q in types) && (q in types ==> out[q] == types[q]))
  {
    if |entries| == 0 {
    } else {
      var init, last := entries[..|entries| - 1], entries[|entries| - 1];
      InsertJoinAll(types, p, init, q);
      assert JoinAll(p, entries)[..|entries| - 1] == JoinAll(p, init);
      forall key | JoinPath(p, key) == JoinPath(p, last.0)
        ensures key == last.0
      {
        JoinPathInjective(p, key, last.0);
      }
    }
  }

  ghost predicate Joined(path: string, sub: map<string, string>, done: set<string>, types: map<string, string>, out: map<string, string>)
    requires done <= sub.Keys
  {
    && (forall key :: key in done ==> JoinPath(path, key) in out && out[JoinPath(path, key)] == sub[key])
    && (forall q :: (forall key :: key in done ==> JoinPath(path, key) != q) ==>
                      (q in out <==> q in types) && (q in types ==> out[q] == types[q]))
  }

  /** The `for (sub_path, kind) in sub_types` loop, in whatever order the keys come. */
  method InsertJoined(path: string, sub: map<string, string>, types: map<string, string>, ghost entries: seq<Entry>) returns (out: map<string, string>)
    requires sub == Insert(map[], entries)
    ensures out == Insert(types, JoinAll(path, entries))
  {
    out := types;
    var todo := sub.Keys;
    while todo != {}
      invariant todo <= sub.Keys
      invariant Joined(path, sub, sub.Keys - todo, types, out)
      decreases todo
    {
      var key :| key in todo;
      out := out[JoinPath(path, key) := sub[key]];
      todo := todo - {key};
      forall other | JoinPath(path, other) == JoinPath(path, key)
        ensures other == key
      {
        JoinPathInjective(path, other, key);
      }
    }
    assert sub.Keys - todo == sub.Keys;
    JoinedUnique(path, sub, types, out, entries);
  }

  lemma JoinedUnique(path: string, sub: map<string, string>, types: map<string, string>, out: map<string, string>, entries: seq<Entry>)
    requires sub == Insert(map[], entries) && Joined(path, sub, sub.Keys, types, out)
    ensures out == Insert(types, JoinAll(path, entries))
  {
    var target := Insert(types, JoinAll(path, entries));
    forall q
      ensures q in out <==> q in target
      ensures q in out ==> out[q] == target[q]
    {
      InsertJoinAll(types, path, entries, q);
      if exists key :: key in sub && JoinPath(path, key) == q {
        var key :| key in sub && JoinPath(path, key) == q;
      }
    }
  }

  lemma InsertIsJoined(path: string, sub: map<string, string>, types: map<string, string>, entries: seq<Entry>)
    requires sub == Insert(map[], entries)
    ensures Joined(path, sub, sub.Keys, types, Insert(types, JoinAll(path, entries)))
  {
    hide Insert, JoinAll, JoinPath;
    InsertJoinAll(types, path, entries, "");
    forall q | forall key :: key in sub ==> JoinPath(path, key) != q
      ensures var out := Insert(types, JoinAll(path, entries)); (q in out <==> q in types) && (q in types ==> out[q] == types[q])
    {
      InsertJoinAll(types, path, entries, q);
    }
  }

  /** The joined map is one map, and inserting the joined entries gives it. */
  lemma JoinedIff(path: string, sub: map<string, string>, types: map<string, string>, out: map<string, string>, entries: seq<Entry>)
    requires sub == Insert(map[], entries)
    ensures Joined(path, sub, sub.Keys, types, out) <==> out == Insert(types, JoinAll(path, entries))
  {
    hide Joined, Insert, JoinAll;
    InsertIsJoined(path, sub, types, entries);
    if Joined(path, sub, sub.Keys, types, out) {
      JoinedUnique(path, sub, types, out, entries);
    }
  }

  /** Following a re-export under its name is following it unnamed at the named path. */
  lemma SegmentIntoLocal(deps: Deps, rank: Rank, krate: Crate, item: Item, prefix: string, name: string)
    requires Ranked(deps, rank)
    ensures forall bound :: StepBelow(rank, LocalStep(krate, item, Some(name)), bound) <==> StepBelow(rank, LocalStep(krate, item, None), bound)
    ensures StepOk(rank, LocalStep(krate, item, None)) ==>
              StepEmits(deps, rank, LocalStep(krate, item, Some(name)), prefix) == StepEmits(deps, rank, LocalStep(krate, item, None), JoinPath(prefix, name))
  {
  }

  lemma SegmentIntoExternal(deps: Deps, rank: Rank, summary: Summary, prefix: string, name: string)
    requires Ranked(deps, rank)
    ensures forall bound :: StepBelow(rank, ExternalStep(deps, summary, Some(name)), bound) <==> StepBelow(rank, ExternalStep(deps, summary, None), bound)
    ensures StepOk(rank, ExternalStep(deps, summary, None)) ==>
              StepEmits(deps, rank, ExternalStep(deps, summary, Some(name)), prefix) == StepEmits(deps, rank, ExternalStep(deps, summary, None), JoinPath(prefix, name))
  {
  }

  method WalkModule(deps: Deps, ghost rank: Rank, krate: Crate, items: seq<Id>, prefix: string, types: map<string, string>) returns (out: map<string, string>)
    requires Ranked(deps, rank) && Node(krate, items) in rank
    ensures out == Insert(types, EmitsAll(deps, rank, Node(krate, items), prefix))
    decreases rank[Node(krate, items)], 3
  {
    ghost var node := Node(krate, items);
    out := types;
    for i := 0 to |items|
      invariant out == Insert(types, Emits(deps, rank, krate, items, i, prefix))
    {
      EmitsNext(deps, rank, node, i, prefix);
      InsertAppend(types, Emits(deps, rank, krate, items, i, prefix), StepEmits(deps, rank, ItemStep(deps, krate, items[i]), prefix));
      StepOfItem(deps, rank, node, i);
      out := WalkItem(deps, rank, krate, items[i], prefix, out, node);
    }
  }

  /** One turn of the loop of `walk_module`. */
  method WalkItem(deps: Deps, ghost rank: Rank, krate: Crate, id: Id, prefix: string, types: map<string, string>, ghost node: Node) returns (out: map<string, string>)
    requires Ranked(deps, rank) && node in rank && node.krate == krate && StepBelow(rank, ItemStep(deps, krate, id), rank[node])
    ensures out == Insert(types, StepEmits(deps, rank, ItemStep(deps, krate, id), prefix))
    decreases rank[node], 2
  {
    assert NodeOk(deps, rank, node);
    hide ItemKindStr, LocalStep, ExternalStep, GlobStep, Ranked, EmitsAll;
    out := types;
    if id !in krate.index {
      return;
    }
    var item := krate.index[id];
    if !item.isPublic {
      return;
    }
    if item.inner.Module? {
      out := WalkModule(deps, rank, krate, item.inner.items, JoinPath(prefix, NameOf(item)), out);
    } else if item.inner.Use? {
      if item.inner.isGlob {
        out := ResolveGlob(deps, rank, krate, item.inner, prefix, out, rank[node]);
        return;
      }
      var path := JoinPath(prefix, item.inner.name);
      if item.inner.id.Some? {
        var target := item.inner.id.value;
        if target in krate.index {
          SegmentIntoLocal(deps, rank, krate, krate.index[target], prefix, item.inner.name);
          out := CollectItem(deps, rank, krate, krate.index[target], path, out, rank[node]);
        } else if target in krate.paths {
          SegmentIntoExternal(deps, rank, krate.paths[target], prefix, item.inner.name);
          out := CollectExternal(deps, rank, krate.paths[target], path, out, rank[node]);
        }
      }
    } else if !item.inner.Impl? {
      var path := JoinPath(prefix, NameOf(item));
      var kind := ItemKindStr(item.inner);
      if kind.Some? {
        out := out[path := kind.value];
      }
    }
  }

  method CollectItem(deps: Deps, ghost rank: Rank, krate: Crate, item: Item, path: string, types: map<string, string>, ghost bound: nat) returns (out: map<string, string>)
    requires Ranked(deps, rank) && StepBelow(rank, LocalStep(krate, item, None), bound)
    ensures out == Insert(types, StepEmits(deps, rank, LocalStep(krate, item, None), path))
    decreases bound, 0
  {
    out := types;
    if item.inner.Module? {
      out := WalkModule(deps, rank, krate, item.inner.items, path, out);
    } else {
      var kind := ItemKindStr(item.inner);
      if kind.Some? {
        out := out[path := kind.value];
      }
    }
  }

  method CollectExternal(deps: Deps, ghost rank: Rank, summary: Summary, path: string, types: map<string, string>, ghost bound: nat) returns (out: map<string, string>)
    requires Ranked(deps, rank) && StepBelow(rank, ExternalStep(deps, summary, None), bound)
    requires summary.kind.ModuleKind? ==> |summary.path| > 0
    ensures out == Insert(types, StepEmits(deps, rank, ExternalStep(deps, summary, None), path))
    decreases bound, 0
  {
    out := types;
    if summary.kind.ModuleKind? {
      if summary.path[0] in deps {
        var dep := deps[summary.path[0]];
        var found := FindModuleItems(dep, summary.path[1..]);
        if found.Some? {
          var sub := WalkModule(deps, rank, dep, found.value, "", map[]);
          out := InsertJoined(path, sub, out, EmitsAll(deps, rank, Node(dep, found.value), ""));
        }
      }
    } else {
      var kind := ItemKindDisplay(summary.kind);
      if kind.Some? {
        out := out[path := kind.value];
      }
    }
  }

  method ResolveGlob(deps: Deps, ghost rank: Rank, krate: Crate, use: ItemEnum, prefix: string, types: map<string, string>, ghost bound: nat) returns (out: map<string, string>)
    requires Ranked(deps, rank) && use.Use? && StepBelow(rank, GlobStep(deps, krate, use), bound)
    requires forall id :: id in krate.paths && krate.paths[id].kind.ModuleKind? ==> |krate.paths[id].path| > 0
    ensures out == Insert(types, StepEmits(deps, rank, GlobStep(deps, krate, use), prefix))
    decreases bound, 1
  {
    out := types;
    var parts := Split(use.source);
    if parts[0] in deps {
      var dep := deps[parts[0]];
      var found := FindModuleItems(dep, parts[1..]);
      if found.Some? {
        var sub := WalkModule(deps, rank, dep, found.value, "", map[]);
        out := InsertJoined(prefix, sub, out, EmitsAll(deps, rank, Node(dep, found.value), ""));
      }
      return;
    }
    if use.id.Some? {
      if use.id.value in krate.index {
        if krate.index[use.id.value].inner.Module? {
          out := WalkModule(deps, rank, krate, krate.index[use.id.value].inner.items, prefix, out);
        }
      } else if use.id.value in krate.paths {
        out := CollectExternal(deps, rank, krate.paths[use.id.value], prefix, out, bound);
      }
    }
  }

  // ---------- Whole crates ----------

  lemma EmitsIffOnSurface(deps: Deps, rank: Rank, krate: Crate, path: string, kind: string)
    requires krate.root in krate.index && Ranked(deps, rank) && Node(krate, RootItems(krate)) in rank
    ensures (path, kind) in EmitsAll(deps, rank, Node(krate, RootItems(krate)), "") <==> OnSurface(deps, krate, path, kind)
  {
    hide EmitsAll, Derivable, Shown;
    EmitsIffDerivable(deps, rank, Node(krate, RootItems(krate)), "", path, kind);
    DerivableIff(deps, krate, RootItems(krate), "", path, kind);
  }

  /** The keys are exactly the paths on the surface by the rules, and every value is a kind the rules show there. */
  method CollectPublicTypes(deps: Deps, ghost rank: Rank, krate: Crate) returns (types: map<string, string>)
    requires krate.root in krate.index
    requires Ranked(deps, rank) && Node(krate, RootItems(krate)) in rank
    ensures forall path :: path in types <==> IsOffered(deps, krate, path)
    ensures forall path :: path in types ==> OnSurface(deps, krate, path, types[path])
  {
    types := map[];
    if krate.index[krate.root].inner.Module? {
      types := WalkModule(deps, rank, krate, krate.index[krate.root].inner.items, "", types);
    }
    ghost var node := Node(krate, RootItems(krate));
    assert types == Insert(map[], EmitsAll(deps, rank, node, ""));
    forall path
      ensures path in types <==> IsOffered(deps, krate, path)
      ensures path in types ==> OnSurface(deps, krate, path, types[path])
    {
      InsertHolds(map[], EmitsAll(deps, rank, node, ""), path);
      forall kind
        ensures (path, kind) in EmitsAll(deps, rank, node, "") <==> OnSurface(deps, krate, path, kind)
      {
        EmitsIffOnSurface(deps, rank, krate, path, kind);
      }
    }
  }

  /** One superset check of `main`: what the subset crate offers, the superset crate does not, and no exemption covers. */
  method FindMissing(deps: Deps, ghost rank: Rank, superset: Crate, subset: Crate, supersetName: string, exemptions: set<string>) returns (missing: map<string, string>)
    requires superset.root in superset.index && subset.root in subset.index && Ranked(deps, rank)
    requires Node(superset, RootItems(superset)) in rank && Node(subset, RootItems(subset)) in rank
    ensures forall path :: path in missing <==>
              IsOffered(deps, subset, path) && !IsOffered(deps, superset, path) && supersetName + "::" + path !in exemptions
  {
    var offered := CollectPublicTypes(deps, rank, superset);
    var wanted := CollectPublicTypes(deps, rank, subset);
    missing := map path | path in wanted && path !in offered && supersetName + "::" + path !in exemptions :: wanted[path];
  }

  // ---------- The prefix law ----------

  /** Under a non-empty prefix the walk commutes with joining, whatever the names are. */
  lemma {:induction false} FollowCommutes(deps: Deps, node: Node, p: string, q: string, route: Route)
    requires q != ""
    ensures var inner := Follow(deps, node.krate, node.items, q, route);
            Follow(deps, node.krate, node.items, JoinPath(p, q), route) ==
            if inner.None? then None else Some((JoinPath(p, inner.value.0), inner.value.1))
    decreases |route|
  {
    if |route| > 0 && route[0] in node.items {
      var step := ItemStep(deps, node.krate, route[0]);
      if step.Nothing? {
      } else {
        if step.segment.Some? {
          JoinPathAssociative(p, q, step.segment.value);
        }
        if step.Inline? {
          FollowCommutes(deps, Node(step.krate, step.items), p, At(q, step.segment), route[1..]);
        } else if step.Import? {
          var sub := Follow(deps, step.krate, step.items, "", route[1..]);
          if sub.Some? {
            JoinPathAssociative(p, At(q, step.segment), sub.value.0);
          }
        }
      }
    }
  }

  /**
    Whether the entry of a route moves along with the prefix, `k` counting the empty names passed so far.
    An empty-named module or re-export is joined as "p::" under a prefix but vanishes under "";
    a glob of an external non-module is inserted at the bare prefix, which "" cannot express.
    */
  predicate Aligned(deps: Deps, krate: Crate, items: seq<Id>, route: Route, k: nat)
    decreases |route|
  {
    if |route| == 0 then true
    else
      match ItemStep(deps, krate, route[0])
      case Nothing => true
      case Leaf(segment, _) => if segment.None? then k == 1 else k == 0
      case Inline(kr, its, segment) =>
        if segment.None? then Aligned(deps, kr, its, route[1..], k)
        else if segment.value == "" then Aligned(deps, kr, its, route[1..], k + 1)
        else k == 0
      case Import(_, _, segment) => k == 0 && segment != Some("")
  }

  /** The prefix `p` after `k` empty names. */
  function Padded(p: string, k: nat): (q: string)
    requires p != ""
    ensures |q| == |p| + 2 * k && q != ""
  {
    if k == 0 then p else JoinPath(Padded(p, k - 1), "")
  }

  lemma PaddedJoin(p: string, k: nat, x: string)
    requires p != ""
    ensures JoinPath(Padded(p, k), x) == JoinPath(p, x) <==> k == 0
    ensures Padded(p, k) == JoinPath(p, "") <==> k == 1
  {
    assert Padded(p, 0) == p;
    assert Padded(p, 1) == JoinPath(Padded(p, 0), "");
  }

  /** For every route: walking under the prefix agrees with walking from "" and joining iff the route is aligned. */
  lemma {:induction false} FollowAligned(deps: Deps, node: Node, p: string, k: nat, route: Route)
    requires p != ""
    ensures var direct, bare := Follow(deps, node.krate, node.items, Padded(p, k), route), Follow(deps, node.krate, node.items, "", route);
            && (direct.None? <==> bare.None?)
            && (bare.Some? ==>
                  && direct.value.1 == bare.value.1
                  && (direct.value.0 == JoinPath(p, bare.value.0) <==> Aligned(deps, node.krate, node.items, route, k)))
    decreases |route|
  {
    if |route| > 0 && route[0] in node.items {
      var step := ItemStep(deps, node.krate, route[0]);
      PaddedJoin(p, k, if step.Leaf? && step.segment.Some? then step.segment.value else "");
      if step.Inline? {
        var child := Node(step.krate, step.items);
        if step.segment.None? {
          FollowAligned(deps, child, p, k, route[1..]);
        } else if step.segment.value == "" {
          assert Padded(p, k + 1) == JoinPath(Padded(p, k), "");
          FollowAligned(deps, child, p, k + 1, route[1..]);
        } else {
          FollowCommutes(deps, child, Padded(p, k), step.segment.value, route[1..]);
          var bare := Follow(deps, node.krate, node.items, "", route);
          if bare.Some? {
            PaddedJoin(p, k, bare.value.0);
          }
        }
      } else if step.Import? {
        var sub := Follow(deps, step.krate, step.items, "", route[1..]);
        if sub.Some? {
          ImportAligned(p, k, step.segment, sub.value.0);
        }
      }
    }
  }

  lemma ImportAligned(p: string, k: nat, segment: Option<string>, sub: string)
    requires p != ""
    ensures JoinPath(At(Padded(p, k), segment), sub) == JoinPath(p, JoinPath(At("", segment), sub)) <==> k == 0 && segment != Some("")
  {
    PaddedJoin(p, k, sub);
    if segment.Some? && segment.value != "" {
      JoinPathAssociative(Padded(p, k), segment.value, sub);
      PaddedJoin(p, k, JoinPath(segment.value, sub));
    }
  }

  /** The prefix law: the direct walk and walk-then-join make the same insertions iff every route is aligned. */
  lemma PrefixLaw(deps: Deps, rank: Rank, node: Node, p: string)
    requires Ranked(deps, rank) && node in rank && p != ""
    ensures EmitsAll(deps, rank, node, p) == JoinAll(p, EmitsAll(deps, rank, node, "")) <==>
            forall route :: Follow(deps, node.krate, node.items, "", route).Some? ==> Aligned(deps, node.krate, node.items, route, 0)
  {
    var routes, direct, bare := RoutesAll(deps, rank, node), EmitsAll(deps, rank, node, p), EmitsAll(deps, rank, node, "");
    EmitsDeriveEach(deps, rank, node, |node.items|, p);
    EmitsDeriveEach(deps, rank, node, |node.items|, "");
    forall i | 0 <= i < |routes|
      ensures direct[i] == JoinAll(p, bare)[i] <==> Aligned(deps, node.krate, node.items, routes[i], 0)
    {
      FollowAligned(deps, node, p, 0, routes[i]);
    }
    if direct == JoinAll(p, bare) {
      forall route | Follow(deps, node.krate, node.items, "", route).Some?
        ensures Aligned(deps, node.krate, node.items, route, 0)
      {
        RouteIsWalked(deps, rank, node, "", route);
        var i :| 0 <= i < |routes| && routes[i] == route;
      }
    } else {
      var i :| 0 <= i < |direct| && direct[i] != JoinAll(p, bare)[i];
      assert Follow(deps, node.krate, node.items, "", routes[i]).Some?;
    }
  }

  /** On maps: the direct walk gives exactly what inserting the joined sub-map of the bare walk gives, into any map. */
  lemma PrefixLawOnMaps(deps: Deps, rank: Rank, node: Node, p: string, types: map<string, string>, out: map<string, string>)
    requires Ranked(deps, rank) && node in rank && p != ""
    requires forall route :: Follow(deps, node.krate, node.items, "", route).Some? ==> Aligned(deps, node.krate, node.items, route, 0)
    ensures var sub := Insert(map[], EmitsAll(deps, rank, node, ""));
            Joined(p, sub, sub.Keys, types, out) <==> out == Insert(types, EmitsAll(deps, rank, node, p))
  {
    var bare := EmitsAll(deps, rank, node, "");
    PrefixLaw(deps, rank, node, p);
    hide Insert, EmitsAll, JoinAll, Joined, Aligned, Follow, Ranked;
    JoinedIff(p, Insert(map[], bare), types, out, bare);
  }

  /** No empty names and no glob of an external non-module below this rank: every route is aligned. */
  lemma {:induction false} ProperNamesAlign(deps: Deps, rank: Rank, node: Node, route: Route)
    requires Ranked(deps, rank) && node in rank
    requires forall n, i :: n in rank && 0 <= i < |n.items| ==> ProperStep(ItemStep(deps, n.krate, n.items[i]))
    requires Follow(deps, node.krate, node.items, "", route).Some?
    ensures Aligned(deps, node.krate, node.items, route, 0)
    decreases |route|
  {
    var j :| 0 <= j < |node.items| && node.items[j] == route[0];
    StepOfItem(deps, rank, node, j);
    var step := ItemStep(deps, node.krate, route[0]);
    assert ProperStep(step);
    if step.Inline? && step.segment.None? {
      ProperNamesAlign(deps, rank, Node(step.krate, step.items), route[1..]);
    }
  }

  predicate ProperStep(step: Step) {
    !step.Nothing? ==> step.segment != Some("") && !(step.Leaf? && step.segment.None?)
  }

  /** A glob of an external enum breaks the law: "p" directly, "p::" after joining. */
  lemma PrefixLawFails() returns (deps: Deps, rank: Rank, node: Node)
    ensures Ranked(deps, rank) && node in rank
    ensures EmitsAll(deps, rank, node, "p") == [("p", "enum")]
    ensures JoinAll("p", EmitsAll(deps, rank, node, "")) == [("p::", "enum")]
  {
    hide Split;
    var glob := Item(None, true, Use("dep::E", "E", Some(1), true));
    var krate := Crate(0, map[0 := glob], map[1 := Summary(["dep", "E"], EnumKind)]);
    deps, rank, node := map[], map[Node(krate, [0]) := 0], Node(krate, [0]);
    assert ItemStep(deps, krate, 0) == Leaf(None, "enum");
    assert NodeOk(deps, rank, node);
    assert Emits(deps, rank, krate, [0], 0, "p") == [] == Emits(deps, rank, krate, [0], 0, "");
    assert JoinPath("p", "") == "p::";
  }
}
