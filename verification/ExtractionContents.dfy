/**
  What a loaded module contains, read off the raw children of the module.

  A module holds, in order and once per key, what its children offer: a listed child itself with its inherent impls,
  an extracted trait impl, what a re-export is expanded to. It holds the submodules that are entered and those that
  re-exports bring.
  */
module ExtractionContents {
  import opened Basics
  import opened ApiData
  import opened ModuleTree
  import opened Extraction

  // ---------- What one child offers ----------

  /** A submodule of its own: visible and not stripped. */
  predicate IsEntered(child: RawItem) {
    child.kind.RawModule? && child.isVisible && !child.kind.isStripped
  }

  /** A child that is listed itself, or expanded if it is a re-export. */
  predicate IsListed(child: RawItem) {
    child.isVisible && !child.isExcludedKind && !child.kind.RawTraitImpl? && !child.kind.RawOtherImpl? && !IsEntered(child)
  }

  ghost predicate CanExpand(rank: Rank, krate: Crate, child: RawItem, path: string) {
    && (IsListed(child) && child.kind.RawUse? ==> UseAt(krate, child, path) in rank)
    && (IsEntered(child) ==> ModuleAt(krate, child, ModulePath(path, child)) in rank)
  }

  /** The expansion of a listed re-export; other children have none. */
  ghost function ExpansionOf(ws: Workspace, rank: Rank, krate: Crate, child: RawItem, path: string): Result<Option<Expanded>, string>
    requires Ranked(ws, rank) && CanExpand(rank, krate, child, path)
  {
    if IsListed(child) && child.kind.RawUse? then PureExpand(ws, rank, krate, child, path) else Ok(None)
  }

  /** The module made of an entered submodule; other children have none. */
  ghost function SubmoduleOf(ws: Workspace, rank: Rank, krate: Crate, child: RawItem, path: string): Result<Option<ApiModule>, string>
    requires Ranked(ws, rank) && CanExpand(rank, krate, child, path)
  {
    if IsEntered(child) then
      match PureModule(ws, rank, krate, child, ModulePath(path, child), |child.kind.items|)
      case Ok(m) => Ok(Some(m))
      case Err(error) => Err(error)
    else Ok(None)
  }

  function OfferedItems(child: RawItem, expansion: Option<Expanded>): seq<ApiItem> {
    if child.kind.RawTraitImpl? then (if child.kind.extracted.Some? then [child.kind.extracted.value] else [])
    else if !IsListed(child) then []
    else if !child.kind.RawUse? then [child.rendered] + child.inherentImpls
    else if expansion.Some? then expansion.value.items
    else [child.rendered]
  }

  function OfferedModules(submodule: Option<ApiModule>, expansion: Option<Expanded>): seq<ApiModule> {
    (if submodule.Some? then [submodule.value] else []) + (if expansion.Some? then expansion.value.modules else [])
  }

  // ---------- What the first children offer together ----------

  /** Everything offered so far, or the error of the first child that fails. */
  ghost function Offered(ws: Workspace, rank: Rank, krate: Crate, item: RawItem, path: string, n: nat): Result<Expanded, string>
    requires Ranked(ws, rank) && ModuleAt(krate, item, path) in rank && item.kind.RawModule? && n <= |item.kind.items|
  {
    if n == 0 then Ok(Expanded([], []))
    else
      match Offered(ws, rank, krate, item, path, n - 1)
      case Err(error) => Err(error)
      case Ok(before) =>
        var id := item.kind.items[n - 1];
        if id !in krate.index then Ok(before)
        else
          ChildCanExpand(ws, rank, krate, item, path, n - 1);
          OfferedNext(before, krate.index[id], SubmoduleOf(ws, rank, krate, krate.index[id], path), ExpansionOf(ws, rank, krate, krate.index[id], path))
  }

  function OfferedNext(before: Expanded, child: RawItem, submodule: Result<Option<ApiModule>, string>, expansion: Result<Option<Expanded>, string>): Result<Expanded, string> {
    if submodule.Err? then Err(submodule.error)
    else if expansion.Err? then Err(expansion.error)
    else Ok(Expanded(before.items + OfferedItems(child, expansion.value), before.modules + OfferedModules(submodule.value, expansion.value)))
  }

  lemma ChildCanExpand(ws: Workspace, rank: Rank, krate: Crate, item: RawItem, path: string, i: nat)
    requires Ranked(ws, rank) && ModuleAt(krate, item, path) in rank && item.kind.RawModule? && i < |item.kind.items| && item.kind.items[i] in krate.index
    ensures CanExpand(rank, krate, krate.index[item.kind.items[i]], path)
  {
    assert TaskOk(ws, rank, ModuleAt(krate, item, path));
    assert ChildBelow(rank, krate, krate.index[item.kind.items[i]], path, rank[ModuleAt(krate, item, path)]);
  }

  // ---------- Insertion keeps the first of every key and path ----------

  lemma {:induction false} InsertItemsFirsts(m: ApiModule, before: seq<ApiItem>, items: seq<ApiItem>)
    requires m.items == Firsts(before)
    ensures InsertItems(m, items) == m.(items := Firsts(before + items))
  {
    hide DedupKey, Firsts, Keys;
    if |items| == 0 {
      assert before + items == before;
    } else {
      var n := |items| - 1;
      InsertItemsFirsts(m, before, items[..n]);
      assert before + items == (before + items[..n]) + [items[n]];
      FirstsGrow(before + items[..n], items[n]);
      FirstsKeepKeys(before + items[..n]);
    }
  }

  lemma FirstsKeepKeys(items: seq<ApiItem>)
    ensures Keys(Firsts(items)) == Keys(items)
  {
    InsertItemsKeepsFirsts(ApiModule("", [], [], [], []), items);
  }

  /** The modules that no earlier one has the path of, in order. */
  ghost function FirstPaths(modules: seq<ApiModule>): seq<ApiModule> {
    if |modules| == 0 then []
    else
      var n := |modules| - 1;
      if modules[n].path in Paths(modules[..n]) then FirstPaths(modules[..n]) else FirstPaths(modules[..n]) + [modules[n]]
  }

  lemma {:induction false} FirstPathsKeep(modules: seq<ApiModule>)
    ensures Paths(FirstPaths(modules)) == Paths(modules)
  {
    if |modules| == 0 {
    } else {
      var n := |modules| - 1;
      FirstPathsKeep(modules[..n]);
      assert modules == modules[..n] + [modules[n]];
      PathsGrow(modules[..n], modules[n]);
      PathsGrow(FirstPaths(modules[..n]), modules[n]);
      hide Paths;
    }
  }

  lemma {:induction false} InsertModulesFirsts(m: ApiModule, before: seq<ApiModule>, modules: seq<ApiModule>)
    requires m.modules == FirstPaths(before)
    ensures InsertModules(m, modules) == m.(modules := FirstPaths(before + modules))
  {
    hide Paths;
    if |modules| == 0 {
      assert before + modules == before;
    } else {
      var n := |modules| - 1;
      InsertModulesFirsts(m, before, modules[..n]);
      assert before + modules == (before + modules[..n]) + [modules[n]];
      assert (before + modules)[..|before + modules| - 1] == before + modules[..n];
      FirstPathsKeep(before + modules[..n]);
    }
  }

  // ---------- The theorem ----------

  ghost predicate Holds(m: ApiModule, item: RawItem, path: string, offered: Expanded) {
    m == ApiModule(path, item.docComments, item.attributes, Firsts(offered.items), FirstPaths(offered.modules))
  }

  lemma NextHolds(m: ApiModule, item: RawItem, path: string, before: Expanded, items: seq<ApiItem>, modules: seq<ApiModule>)
    requires Holds(m, item, path, before)
    ensures Holds(InsertModules(InsertItems(m, items), modules), item, path, Expanded(before.items + items, before.modules + modules))
  {
    InsertItemsFirsts(m, before.items, items);
    InsertModulesFirsts(InsertItems(m, items), before.modules, modules);
  }

  lemma {:induction false} InsertItemsCons(m: ApiModule, first: ApiItem, rest: seq<ApiItem>)
    ensures InsertItems(InsertItem(m, first), rest) == InsertItems(m, [first] + rest)
  {
    hide InsertItem;
    if |rest| == 0 {
      assert [first] + rest == [first] && [first][..0] == [];
    } else {
      var n := |rest| - 1;
      InsertItemsCons(m, first, rest[..n]);
      assert ([first] + rest)[..n + 1] == [first] + rest[..n];
    }
  }

  lemma InsertOne(m: ApiModule, item: ApiItem, child: ApiModule)
    ensures InsertItems(m, [item]) == InsertItem(m, item)
    ensures InsertModules(m, [child]) == InsertModule(m, child)
  {
    hide InsertItem, InsertModule;
    assert [item][..0] == [] && [child][..0] == [];
  }

  lemma PlainOffers(m: ApiModule, child: RawItem)
    requires !DescendsInto(child) && !(child.kind.RawUse? && IsIncluded(child))
    ensures InsertPlain(m, child) == InsertModules(InsertItems(m, OfferedItems(child, None)), [])
  {
    if child.kind.RawTraitImpl? {
      if child.kind.extracted.Some? {
        InsertOne(m, child.kind.extracted.value, m);
      }
    } else {
      InsertItemsCons(m, child.rendered, child.inherentImpls);
    }
  }

  lemma UseOffers(m: ApiModule, child: RawItem, expansion: Option<Expanded>)
    requires child.kind.RawUse? && IsIncluded(child)
    ensures InsertUse(m, child, expansion) == InsertModules(InsertItems(m, OfferedItems(child, expansion)), OfferedModules(None, expansion))
  {
    InsertOne(m, child.rendered, m);
    assert expansion.Some? ==> [] + expansion.value.modules == expansion.value.modules;
  }

  lemma SubmoduleOffers(m: ApiModule, child: RawItem, submodule: ApiModule)
    requires DescendsInto(child)
    ensures InsertModule(m, submodule) == InsertModules(InsertItems(m, OfferedItems(child, None)), OfferedModules(Some(submodule), None))
  {
    InsertOne(m, child.rendered, submodule);
    assert [submodule] + [] == [submodule];
  }

  lemma ChildHolds(ws: Workspace, rank: Rank, krate: Crate, item: RawItem, path: string, n: nat)
    requires Ranked(ws, rank) && ModuleAt(krate, item, path) in rank && item.kind.RawModule? && 0 < n <= |item.kind.items|
    requires item.kind.items[n - 1] in krate.index
    requires var m, offered := PureModule(ws, rank, krate, item, path, n - 1), Offered(ws, rank, krate, item, path, n - 1);
             offered.Ok? && m.Ok? && Holds(m.value, item, path, offered.value)
    ensures ModuleIsRight(ws, rank, krate, item, path, n, PureModule(ws, rank, krate, item, path, n))
  {
    var child, m, before := krate.index[item.kind.items[n - 1]], PureModule(ws, rank, krate, item, path, n - 1).value, Offered(ws, rank, krate, item, path, n - 1).value;
    ChildCanExpand(ws, rank, krate, item, path, n - 1);
    assert ChildBelow(rank, krate, krate.index[item.kind.items[n - 1]], path, rank[ModuleAt(krate, item, path)]) by {
      assert TaskOk(ws, rank, ModuleAt(krate, item, path));
    }
    hide Holds, PureExpand, InsertItems, InsertModules, InsertItem, InsertModule, InsertPlain, InsertUse, OfferedItems, OfferedModules, Ranked;
    if DescendsInto(child) {
      var submodule := SubmoduleOf(ws, rank, krate, child, path);
      if submodule.Ok? {
        SubmoduleOffers(m, child, submodule.value.value);
        NextHolds(m, item, path, before, OfferedItems(child, None), OfferedModules(submodule.value, None));
      }
    } else if child.kind.RawUse? && IsIncluded(child) {
      var expansion := ExpansionOf(ws, rank, krate, child, path);
      if expansion.Ok? {
        UseOffers(m, child, expansion.value);
        NextHolds(m, item, path, before, OfferedItems(child, expansion.value), OfferedModules(None, expansion.value));
      }
    } else {
      PlainOffers(m, child);
      NoModules();
      NextHolds(m, item, path, before, OfferedItems(child, None), []);
    }
  }

  lemma NoModules()
    ensures OfferedModules(None, None) == []
  {
  }

  /** Every extracted module holds exactly what its children offer, the first of each key and path, and fails exactly with the first child that fails. */
  lemma {:induction false} ModuleHolds(ws: Workspace, rank: Rank, krate: Crate, item: RawItem, path: string, n: nat)
    requires Ranked(ws, rank) && ModuleAt(krate, item, path) in rank && item.kind.RawModule? && n <= |item.kind.items|
    ensures ModuleIsRight(ws, rank, krate, item, path, n, PureModule(ws, rank, krate, item, path, n))
  {
    if n == 0 {
    } else {
      ModuleHolds(ws, rank, krate, item, path, n - 1);
      var before := Offered(ws, rank, krate, item, path, n - 1);
      if before.Ok? && item.kind.items[n - 1] in krate.index {
        ChildHolds(ws, rank, krate, item, path, n);
      }
    }
  }

  // ---------- In terms of single items and modules ----------

  /** A listed child offers itself and its inherent impls; a trait impl what was extracted; a re-export what it is expanded to, or else itself. */
  ghost predicate OffersItem(child: RawItem, expansion: Option<Expanded>, x: ApiItem) {
    || (child.kind.RawTraitImpl? && child.kind.extracted == Some(x))
    || (IsListed(child) && !child.kind.RawUse? && (x == child.rendered || x in child.inherentImpls))
    || (IsListed(child) && child.kind.RawUse? && expansion.None? && x == child.rendered)
    || (IsListed(child) && child.kind.RawUse? && expansion.Some? && x in expansion.value.items)
  }

  ghost predicate ChildOffers(ws: Workspace, rank: Rank, krate: Crate, item: RawItem, path: string, i: nat, x: ApiItem)
    requires Ranked(ws, rank) && ModuleAt(krate, item, path) in rank && item.kind.RawModule? && i < |item.kind.items|
  {
    && item.kind.items[i] in krate.index
    && var child := krate.index[item.kind.items[i]];
       ChildCanExpand(ws, rank, krate, item, path, i);
       var expansion := ExpansionOf(ws, rank, krate, child, path);
       expansion.Ok? && OffersItem(child, expansion.value, x)
  }

  /** An entered submodule offers the module made of it; a re-export the modules it is expanded to. */
  ghost predicate ChildOffersModule(ws: Workspace, rank: Rank, krate: Crate, item: RawItem, path: string, i: nat, x: ApiModule)
    requires Ranked(ws, rank) && ModuleAt(krate, item, path) in rank && item.kind.RawModule? && i < |item.kind.items|
  {
    && item.kind.items[i] in krate.index
    && var child := krate.index[item.kind.items[i]];
       ChildCanExpand(ws, rank, krate, item, path, i);
       || SubmoduleOf(ws, rank, krate, child, path) == Ok(Some(x))
       || (var expansion := ExpansionOf(ws, rank, krate, child, path); expansion.Ok? && expansion.value.Some? && x in expansion.value.value.modules)
  }

  lemma OffersIff(child: RawItem, expansion: Option<Expanded>, x: ApiItem)
    ensures x in OfferedItems(child, expansion) <==> OffersItem(child, expansion, x)
  {
  }

  lemma {:induction false} OfferedItemIff(ws: Workspace, rank: Rank, krate: Crate, item: RawItem, path: string, n: nat, x: ApiItem)
    requires Ranked(ws, rank) && ModuleAt(krate, item, path) in rank && item.kind.RawModule? && n <= |item.kind.items|
    ensures var offered := Offered(ws, rank, krate, item, path, n);
            offered.Ok? ==> (x in offered.value.items <==> exists i: nat :: i < n && ChildOffers(ws, rank, krate, item, path, i, x))
  {
    hide OffersItem, OfferedItems, OfferedModules, ExpansionOf, SubmoduleOf, Ranked;
    if n == 0 {
    } else {
      OfferedItemIff(ws, rank, krate, item, path, n - 1, x);
      var id := item.kind.items[n - 1];
      if id in krate.index {
        ChildCanExpand(ws, rank, krate, item, path, n - 1);
        var expansion := ExpansionOf(ws, rank, krate, krate.index[id], path);
        if expansion.Ok? {
          OffersIff(krate.index[id], expansion.value, x);
          assert ChildOffers(ws, rank, krate, item, path, n - 1, x) <==> x in OfferedItems(krate.index[id], expansion.value);
        }
      }
    }
  }

  lemma ModulesIff(submodule: Option<ApiModule>, expansion: Option<Expanded>, x: ApiModule)
    ensures x in OfferedModules(submodule, expansion) <==> submodule == Some(x) || (expansion.Some? && x in expansion.value.modules)
  {
  }

  lemma {:induction false} OfferedModuleIff(ws: Workspace, rank: Rank, krate: Crate, item: RawItem, path: string, n: nat, x: ApiModule)
    requires Ranked(ws, rank) && ModuleAt(krate, item, path) in rank && item.kind.RawModule? && n <= |item.kind.items|
    ensures var offered := Offered(ws, rank, krate, item, path, n);
            offered.Ok? ==> (x in offered.value.modules <==> exists i: nat :: i < n && ChildOffersModule(ws, rank, krate, item, path, i, x))
  {
    hide OfferedItems, OfferedModules, ExpansionOf, SubmoduleOf, Ranked;
    if n == 0 {
    } else {
      OfferedModuleIff(ws, rank, krate, item, path, n - 1, x);
      var id := item.kind.items[n - 1];
      if id in krate.index {
        ChildCanExpand(ws, rank, krate, item, path, n - 1);
        var expansion, submodule := ExpansionOf(ws, rank, krate, krate.index[id], path), SubmoduleOf(ws, rank, krate, krate.index[id], path);
        if expansion.Ok? && submodule.Ok? {
          ModulesIff(submodule.value, expansion.value, x);
          assert ChildOffersModule(ws, rank, krate, item, path, n - 1, x) <==> x in OfferedModules(submodule.value, expansion.value);
        }
      }
    }
  }

  lemma {:induction false} FirstsAreOffered(items: seq<ApiItem>, x: ApiItem)
    ensures x in Firsts(items) ==> x in items
  {
    if |items| == 0 {
    } else {
      FirstsAreOffered(items[..|items| - 1], x);
    }
  }

  lemma {:induction false} FirstPathsAreOffered(modules: seq<ApiModule>, x: ApiModule)
    ensures x in FirstPaths(modules) ==> x in modules
  {
    if |modules| == 0 {
    } else {
      FirstPathsAreOffered(modules[..|modules| - 1], x);
    }
  }

  /** Whatever a child offers is there under its key, and whatever is there was offered by a child. */
  lemma ModuleContains(ws: Workspace, rank: Rank, krate: Crate, item: RawItem, path: string, x: ApiItem, sub: ApiModule)
    requires Ranked(ws, rank) && ModuleAt(krate, item, path) in rank && item.kind.RawModule?
    ensures var n, m := |item.kind.items|, PureModule(ws, rank, krate, item, path, |item.kind.items|);
            m.Ok? ==>
              && ((exists i: nat :: i < n && ChildOffers(ws, rank, krate, item, path, i, x)) ==> DedupKey(x) in Keys(m.value.items))
              && (x in m.value.items ==> exists i: nat :: i < n && ChildOffers(ws, rank, krate, item, path, i, x))
              && ((exists i: nat :: i < n && ChildOffersModule(ws, rank, krate, item, path, i, sub)) ==> sub.path in Paths(m.value.modules))
              && (sub in m.value.modules ==> exists i: nat :: i < n && ChildOffersModule(ws, rank, krate, item, path, i, sub))
  {
    var n := |item.kind.items|;
    hide PureModule, Offered, ChildOffers, ChildOffersModule, Firsts, FirstPaths, Ranked, DedupKey;
    ModuleHolds(ws, rank, krate, item, path, n);
    OfferedItemIff(ws, rank, krate, item, path, n, x);
    OfferedModuleIff(ws, rank, krate, item, path, n, sub);
    var offered := Offered(ws, rank, krate, item, path, n);
    if offered.Ok? {
      FirstsAreOffered(offered.value.items, x);
      FirstPathsAreOffered(offered.value.modules, sub);
      FirstsKeepKeys(offered.value.items);
      FirstPathsKeep(offered.value.modules);
    }
  }

  /** An entered submodule is there under the path of its holder and its own name. */
  lemma SubmoduleIsThere(ws: Workspace, rank: Rank, krate: Crate, item: RawItem, path: string, i: nat)
    requires Ranked(ws, rank) && ModuleAt(krate, item, path) in rank && item.kind.RawModule?
    requires i < |item.kind.items| && item.kind.items[i] in krate.index && IsEntered(krate.index[item.kind.items[i]])
    ensures var m, child := PureModule(ws, rank, krate, item, path, |item.kind.items|), krate.index[item.kind.items[i]];
            m.Ok? ==> path + "::" + (if child.name.Some? then child.name.value else "unknown_module") in Paths(m.value.modules)
  {
    var child := krate.index[item.kind.items[i]];
    ChildCanExpand(ws, rank, krate, item, path, i);
    AllChildrenSucceed(ws, rank, krate, item, path, |item.kind.items|, i);
    hide PureModule, Offered, Ranked, Paths, DedupKey;
    ModuleHolds(ws, rank, krate, item, path, |item.kind.items|);
    ModuleHolds(ws, rank, krate, child, ModulePath(path, child), |child.kind.items|);
    var sub := SubmoduleOf(ws, rank, krate, child, path);
    if sub.Ok? {
      assert ChildOffersModule(ws, rank, krate, item, path, i, sub.value.value);
      ModuleContains(ws, rank, krate, item, path, child.rendered, sub.value.value);
    }
  }

  /** A module that is extracted has no child that failed. */
  lemma {:induction false} AllChildrenSucceed(ws: Workspace, rank: Rank, krate: Crate, item: RawItem, path: string, n: nat, i: nat)
    requires Ranked(ws, rank) && ModuleAt(krate, item, path) in rank && item.kind.RawModule?
    requires i < n <= |item.kind.items| && item.kind.items[i] in krate.index && CanExpand(rank, krate, krate.index[item.kind.items[i]], path)
    ensures var child := krate.index[item.kind.items[i]];
            Offered(ws, rank, krate, item, path, n).Ok? ==> SubmoduleOf(ws, rank, krate, child, path).Ok? && ExpansionOf(ws, rank, krate, child, path).Ok?
    decreases n
  {
    hide SubmoduleOf, ExpansionOf, OfferedItems, OfferedModules;
    if i < n - 1 {
      AllChildrenSucceed(ws, rank, krate, item, path, n - 1, i);
    }
  }

  /** The result of extracting a module: what its first `n` children offer, or the error of the first that fails. */
  ghost predicate ModuleIsRight(ws: Workspace, rank: Rank, krate: Crate, item: RawItem, path: string, n: nat, r: Result<ApiModule, string>)
    requires Ranked(ws, rank) && ModuleAt(krate, item, path) in rank && item.kind.RawModule? && n <= |item.kind.items|
  {
    var offered := Offered(ws, rank, krate, item, path, n);
    if offered.Err? then r == Err(offered.error) else r.Ok? && Holds(r.value, item, path, offered.value)
  }

  /** The result of loading a model: it needs a known crate that is generated and has a root module, and holds what the children of that module offer. */
  ghost predicate ModelIsRight(ws: Workspace, rank: Rank, name: string, r: Result<ApiModel, string>)
    requires Ranked(ws, rank) && ModelOf(name) in rank
  {
    if name !in ws.packages then r == Err("Unknown workspace crate '" + name + "'")
    else if ws.generate(name).Err? then r == Err(ws.generate(name).error)
    else
      var krate, package := ws.generate(name).value, ws.packages[name];
      if krate.root !in krate.index then r == Err("rustdoc JSON root module was missing from the index")
      else if !krate.index[krate.root].kind.RawModule? then r == Err("rustdoc JSON root item was not a module")
      else
        var root := krate.index[krate.root];
        assert TaskOk(ws, rank, ModelOf(name));
        var offered := Offered(ws, rank, krate, root, package.name, |root.kind.items|);
        if offered.Err? then r == Err(offered.error)
        else r.Ok? && r.value.packageName == package.name && r.value.packageVersion == package.version && Holds(r.value.root, root, package.name, offered.value)
  }

  lemma ModelHolds(ws: Workspace, rank: Rank, name: string)
    requires Ranked(ws, rank) && ModelOf(name) in rank
    ensures ModelIsRight(ws, rank, name, PureModel(ws, rank, name))
  {
    assert TaskOk(ws, rank, ModelOf(name));
    hide PureModule, Offered, Ranked, Holds;
    if name in ws.packages && ws.generate(name).Ok? && HasRootModule(ws.generate(name).value) {
      var krate := ws.generate(name).value;
      var root := krate.index[krate.root];
      ModuleHolds(ws, rank, krate, root, ws.packages[name].name, |root.kind.items|);
    }
  }
}
