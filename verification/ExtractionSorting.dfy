/**
  Items that can be sorted when they are extracted can be sorted where they end up: the sorter never panics on a
  module of a loaded model, whatever re-exports, globs and crates its items came through.
  */
module ExtractionSorting {
  import opened Basics
  import opened ApiData
  import opened ModuleTree
  import opened Extraction
  import opened ExtractionShape
  import ItemOrder

  /** At every depth the sort rank of every item is computed without a panic. */
  predicate Sortable(m: ApiModule)
    decreases m
  {
    ItemOrder.AllWellFormed(m.items) && SortableIn(m.modules)
  }

  predicate SortableIn(ms: seq<ApiModule>)
    decreases ms
  {
    |ms| == 0 || (Sortable(ms[0]) && SortableIn(ms[1..]))
  }

  /** What item-level extraction made of a raw item can be sorted. */
  predicate RawSortable(item: RawItem) {
    && ItemOrder.WellFormed(item.rendered) && ItemOrder.AllWellFormed(item.inherentImpls) && ItemOrder.AllWellFormed(item.traitImpls)
    && (item.kind.RawTraitImpl? && item.kind.extracted.Some? ==> ItemOrder.WellFormed(item.kind.extracted.value))
  }

  ghost predicate CrateSortable(krate: Crate) {
    forall id :: id in krate.index ==> RawSortable(krate.index[id])
  }

  ghost predicate WorkspaceSortable(ws: Workspace) {
    forall name :: name in ws.packages && ws.generate(name).Ok? ==> CrateSortable(ws.generate(name).value)
  }

  lemma {:induction false} SortableAt(ms: seq<ApiModule>, i: nat)
    requires SortableIn(ms) && i < |ms|
    ensures Sortable(ms[i])
  {
    if i == 0 {
    } else {
      SortableAt(ms[1..], i - 1);
    }
  }

  lemma {:induction false} SortableAppend(a: seq<ApiModule>, b: seq<ApiModule>)
    ensures SortableIn(a + b) <==> SortableIn(a) && SortableIn(b)
  {
    if |a| == 0 {
      assert a + b == b;
    } else {
      assert (a + b)[1..] == a[1..] + b;
      SortableAppend(a[1..], b);
    }
  }

  lemma {:induction false} RebaseSortable(m: ApiModule, path: string)
    requires Sortable(m)
    ensures Sortable(Rebase(m, path))
    decreases m
  {
    RebaseAllSortable(m.modules, path);
  }

  lemma {:induction false} RebaseAllSortable(ms: seq<ApiModule>, parent: string)
    requires SortableIn(ms)
    ensures SortableIn(RebaseAll(ms, parent))
    decreases ms
  {
    if |ms| == 0 {
    } else {
      RebaseSortable(ms[0], ChildPath(parent, LocalName(ms[0].path)));
      RebaseAllSortable(ms[1..], parent);
      assert RebaseAll(ms, parent)[1..] == RebaseAll(ms[1..], parent);
    }
  }

  lemma {:induction false} FindModuleSortable(m: ApiModule, segments: seq<string>)
    requires Sortable(m)
    ensures FindModule(m, segments).Some? ==> Sortable(FindModule(m, segments).value)
    decreases |segments|
  {
    if |segments| == 0 {
    } else {
      var tail, child := segments[1..], FirstNamed(m.modules, segments[0]);
      if child.Some? {
        SortableAt(m.modules, child.value);
        FindModuleSortable(m.modules[child.value], tail);
      }
      FindModuleSortable(m, tail);
    }
  }

  lemma {:induction false} FindItemSortable(m: ApiModule, segments: seq<string>)
    requires Sortable(m)
    ensures FindItem(m, segments).Some? ==> ItemOrder.WellFormed(FindItem(m, segments).value)
    decreases |segments|
  {
    if |segments| <= 1 {
    } else {
      var tail, child := segments[1..], FirstNamed(m.modules, segments[0]);
      if child.Some? {
        SortableAt(m.modules, child.value);
        FindItemSortable(m.modules[child.value], tail);
      }
      FindItemSortable(m, tail);
    }
  }

  lemma {:induction false} NamedSortable(items: seq<ApiItem>, name: string)
    requires ItemOrder.AllWellFormed(items)
    ensures ItemOrder.AllWellFormed(NamedOrImplementing(items, name))
  {
    if |items| == 0 {
    } else {
      NamedSortable(items[1..], name);
      assert ItemOrder.WellFormed(items[0]);
    }
  }

  predicate ExpandedSortable(e: Expanded) {
    ItemOrder.AllWellFormed(e.items) && SortableIn(e.modules)
  }

  lemma {:induction false} ModulesKeepSortable(ms: seq<ApiModule>, attributes: seq<string>)
    requires SortableIn(ms)
    ensures SortableIn(ApplyToModules(ms, attributes))
  {
    if |ms| == 0 {
    } else {
      ModulesKeepSortable(ms[1..], attributes);
      assert ApplyToModules(ms, attributes)[1..] == ApplyToModules(ms[1..], attributes);
    }
  }

  lemma ApplySortable(e: Expanded, attributes: seq<string>)
    requires ExpandedSortable(e)
    ensures ExpandedSortable(ApplyImportAttributes(e, attributes))
  {
    forall i | 0 <= i < |e.items|
      ensures ItemOrder.WellFormed(ApplyToItems(e.items, attributes)[i])
    {
      ItemsCarry(e.items, attributes, i);
    }
    ModulesKeepSortable(e.modules, attributes);
  }

  lemma ModelExpansionSortable(root: ApiModule, imported: Import, current: string, attributes: seq<string>, segments: seq<string>)
    requires Sortable(root)
    ensures var e := ExpandModelReexport(root, imported, current, attributes, segments); e.Some? ==> ExpandedSortable(e.value)
  {
    var found := FindModule(root, segments);
    FindModuleSortable(root, segments);
    if found.Some? {
      var path := ChildPath(current, imported.name);
      RebaseSortable(found.value, current);
      RebaseSortable(found.value, path);
      ApplySortable(Expanded([], [Rebase(found.value, path)]), attributes);
      ApplySortable(Expanded(Rebase(found.value, current).items, Rebase(found.value, current).modules), attributes);
    } else if |segments| > 0 {
      FindItemSortable(root, segments);
      NamedSortable(root.items, segments[|segments| - 1]);
      var item := ExpandModelItem(root, segments);
      if item.Some? {
        ApplySortable(item.value, attributes);
      }
    }
  }

  lemma InsertItemSortable(m: ApiModule, item: ApiItem)
    requires Sortable(m) && ItemOrder.WellFormed(item)
    ensures Sortable(InsertItem(m, item))
  {
    hide ItemOrder.WellFormed;
  }

  lemma {:induction false} InsertItemsSortable(m: ApiModule, items: seq<ApiItem>)
    requires Sortable(m) && ItemOrder.AllWellFormed(items)
    ensures Sortable(InsertItems(m, items))
  {
    if |items| == 0 {
    } else {
      var n := |items| - 1;
      InsertItemsSortable(m, items[..n]);
      InsertItemSortable(InsertItems(m, items[..n]), items[n]);
    }
  }

  lemma InsertModuleSortable(m: ApiModule, child: ApiModule)
    requires Sortable(m) && Sortable(child)
    ensures Sortable(InsertModule(m, child))
  {
    SortableAppend(m.modules, [child]);
  }

  lemma {:induction false} InsertModulesSortable(m: ApiModule, modules: seq<ApiModule>)
    requires Sortable(m) && SortableIn(modules)
    ensures Sortable(InsertModules(m, modules))
  {
    if |modules| == 0 {
    } else {
      var n := |modules| - 1;
      assert modules == modules[..n] + [modules[n]];
      SortableAppend(modules[..n], [modules[n]]);
      InsertModulesSortable(m, modules[..n]);
      InsertModuleSortable(InsertModules(m, modules[..n]), modules[n]);
    }
  }

  lemma ExpandItemSortable(target: RawItem)
    requires RawSortable(target)
    ensures ExpandedSortable(ExpandItem(target))
  {
    hide ItemOrder.WellFormed;
  }

  lemma {:induction false} FirstRawSortable(krate: Crate, items: seq<Id>, name: string)
    requires CrateSortable(krate)
    ensures FirstRaw(krate, items, name).Some? ==> RawSortable(FirstRaw(krate, items, name).value)
  {
    if |items| == 0 {
    } else {
      FirstRawSortable(krate, items[1..], name);
    }
  }

  lemma {:induction false} RawBelowSortable(krate: Crate, item: RawItem, path: seq<string>)
    requires CrateSortable(krate) && RawSortable(item)
    ensures RawBelow(krate, item, path).Some? ==> RawSortable(RawBelow(krate, item, path).value)
    decreases |path|
  {
    if |path| == 0 || !item.kind.RawModule? {
    } else {
      FirstRawSortable(krate, item.kind.items, path[0]);
      var child := FirstRaw(krate, item.kind.items, path[0]);
      if child.Some? {
        RawBelowSortable(krate, child.value, path[1..]);
      }
    }
  }

  lemma ForeignSortable(ws: Workspace, path: seq<string>)
    requires WorkspaceSortable(ws)
    ensures var source := ForeignSource(ws, path); source.LocalTo? ==> CrateSortable(source.krate) && RawSortable(source.target)
  {
    if |path| > 0 && path[0] in ws.packages && ws.generate(path[0]).Ok? {
      var krate := ws.generate(path[0]).value;
      if krate.root in krate.index {
        RawBelowSortable(krate, krate.index[krate.root], path[1..]);
      }
    }
  }

  lemma {:induction false} ModuleSortable(ws: Workspace, rank: Rank, krate: Crate, item: RawItem, path: string, n: nat)
    requires Ranked(ws, rank) && ModuleAt(krate, item, path) in rank && WorkspaceSortable(ws) && CrateSortable(krate)
    requires item.kind.RawModule? && n <= |item.kind.items|
    ensures var m := PureModule(ws, rank, krate, item, path, n); m.Ok? ==> Sortable(m.value)
    decreases rank[ModuleAt(krate, item, path)], 2, n
  {
    if n == 0 {
    } else {
      ModuleSortable(ws, rank, krate, item, path, n - 1);
      var before, id := PureModule(ws, rank, krate, item, path, n - 1), item.kind.items[n - 1];
      if before.Ok? && id in krate.index {
        var task, child := ModuleAt(krate, item, path), krate.index[id];
        assert RawSortable(child);
        assert TaskOk(ws, rank, task);
        assert ChildBelow(rank, krate, krate.index[item.kind.items[n - 1]], path, rank[task]);
        if DescendsInto(child) {
          ModuleSortable(ws, rank, krate, child, ModulePath(path, child), |child.kind.items|);
          var inner := PureModule(ws, rank, krate, child, ModulePath(path, child), |child.kind.items|);
          if inner.Ok? {
            InsertModuleSortable(before.value, inner.value);
          }
        } else if child.kind.RawUse? && IsIncluded(child) {
          ExpandSortable(ws, rank, krate, child, path);
          var expanded := PureExpand(ws, rank, krate, child, path);
          if expanded.Ok? {
            UseSortable(before.value, child, expanded.value);
          }
        } else {
          PlainSortable(before.value, child);
        }
      }
    }
  }

  lemma UseSortable(m: ApiModule, child: RawItem, expanded: Option<Expanded>)
    requires Sortable(m) && RawSortable(child) && (expanded.Some? ==> ExpandedSortable(expanded.value))
    ensures Sortable(InsertUse(m, child, expanded))
  {
    if expanded.Some? {
      InsertItemsSortable(m, expanded.value.items);
      InsertModulesSortable(InsertItems(m, expanded.value.items), expanded.value.modules);
    } else {
      InsertItemSortable(m, child.rendered);
    }
  }

  lemma PlainSortable(m: ApiModule, child: RawItem)
    requires Sortable(m) && RawSortable(child)
    ensures Sortable(InsertPlain(m, child))
  {
    if child.kind.RawTraitImpl? {
      if child.kind.extracted.Some? {
        InsertItemSortable(m, child.kind.extracted.value);
      }
    } else {
      InsertItemSortable(m, child.rendered);
      InsertItemsSortable(InsertItem(m, child.rendered), child.inherentImpls);
    }
  }

  lemma {:induction false} ExpandSortable(ws: Workspace, rank: Rank, krate: Crate, item: RawItem, path: string)
    requires Ranked(ws, rank) && UseAt(krate, item, path) in rank && item.kind.RawUse? && WorkspaceSortable(ws) && CrateSortable(krate)
    ensures var e := PureExpand(ws, rank, krate, item, path); e.Ok? && e.value.Some? ==> ExpandedSortable(e.value.value)
    decreases rank[UseAt(krate, item, path)], 1, 0
  {
    var task, imported := UseAt(krate, item, path), item.kind.imported;
    assert TaskOk(ws, rank, task);
    var source := SourceOf(ws, krate, imported, path);
    if imported.id.Some? && imported.id.value in krate.paths {
      ForeignSortable(ws, krate.paths[imported.id.value]);
    }
    match source
    case LocalTo(home, target) => LocalSortable(ws, rank, home, target, imported, path, item.attributes, rank[task]);
    case FromModel(name, segments) =>
      ModelSortable(ws, rank, name);
      var model := PureModel(ws, rank, name);
      if model.Ok? {
        ModelExpansionSortable(model.value.root, imported, path, item.attributes, segments);
      }
    case _ =>
  }

  lemma {:induction false} LocalSortable(ws: Workspace, rank: Rank, krate: Crate, target: RawItem, imported: Import, path: string, attributes: seq<string>, bound: nat)
    requires Ranked(ws, rank) && TargetBelow(rank, krate, target, imported, path, bound)
    requires WorkspaceSortable(ws) && CrateSortable(krate) && RawSortable(target)
    ensures var e := PureLocal(ws, rank, krate, target, imported, path, attributes, bound); e.Ok? && e.value.Some? ==> ExpandedSortable(e.value.value)
    decreases bound, 0, 0
  {
    if target.kind.RawUse? {
      ExpandSortable(ws, rank, krate, target, path);
      var nested := PureExpand(ws, rank, krate, target, path);
      if nested.Ok? {
        ChainSortable(nested.value, krate, target.kind.imported, attributes);
      }
    } else if target.kind.RawModule? {
      var home := ChildPath(path, imported.name);
      ModuleSortable(ws, rank, krate, target, home, |target.kind.items|);
      var m := PureModule(ws, rank, krate, target, home, |target.kind.items|);
      if m.Ok? {
        assert SortableIn([m.value]);
        ApplySortable(ExpandModule(m.value, imported.isGlob), attributes);
      }
    } else {
      ExpandItemSortable(target);
      ApplySortable(ExpandItem(target), attributes);
    }
  }

  lemma ChainSortable(nested: Option<Expanded>, krate: Crate, imported: Import, attributes: seq<string>)
    requires CrateSortable(krate) && (nested.Some? ==> ExpandedSortable(nested.value))
    ensures var e := MergeChained(nested, krate, imported, attributes); e.Some? ==> ExpandedSortable(e.value)
  {
    var first := if nested.Some? then nested.value else Expanded([], []);
    var second := Expanded([], []);
    if imported.id.Some? && imported.id.value in krate.index {
      ExpandItemSortable(krate.index[imported.id.value]);
      second := ExpandItem(krate.index[imported.id.value]);
    }
    SortableAppend(first.modules, second.modules);
    ApplySortable(Expanded(first.items + second.items, first.modules + second.modules), attributes);
  }

  /** If what is extracted item by item can be sorted, every module at every depth of every model that loads can be sorted. */
  lemma {:induction false} ModelSortable(ws: Workspace, rank: Rank, name: string)
    requires Ranked(ws, rank) && ModelOf(name) in rank && WorkspaceSortable(ws)
    ensures var model := PureModel(ws, rank, name); model.Ok? ==> Sortable(model.value.root)
    decreases rank[ModelOf(name)], 3, 0
  {
    assert TaskOk(ws, rank, ModelOf(name));
    var krate := PureCrate(ws, name);
    if krate.Ok? && RootOf(krate.value).Ok? {
      var root := RootOf(krate.value).value;
      ModuleSortable(ws, rank, krate.value, root, ws.packages[name].name, |root.kind.items|);
    }
  }

  /** So the sorter never panics on a module of a loaded model. */
  lemma {:induction false} DescendantSortable(m: ApiModule, positions: seq<nat>)
    requires Sortable(m)
    ensures Descendant(m, positions).Some? ==> ItemOrder.AllWellFormed(Descendant(m, positions).value.items)
    decreases |positions|
  {
    if |positions| == 0 || positions[0] >= |m.modules| {
    } else {
      SortableAt(m.modules, positions[0]);
      DescendantSortable(m.modules[positions[0]], positions[1..]);
    }
  }

  // ---------- What item-level extraction fills in ----------

  /** The fields that fix where an item sorts, apart from its name and declaration, are those of `e`. */
  predicate SortsAs(item: ApiItem, e: ItemOrder.Extracted) {
    var model := ItemOrder.Extract(e, item.name, item.declaration);
    item.kind == model.kind && item.ownerKind == model.ownerKind && item.sortKey == model.sortKey
  }

  ghost predicate IsImplOf(item: ApiItem, owner: ItemOrder.RawEnum, name: string) {
    item.name == name && exists selfType :: SortsAs(item, ItemOrder.InherentImplOf(owner, selfType))
  }

  ghost predicate IsTraitImpl(item: ApiItem) {
    exists selfType :: SortsAs(item, ItemOrder.TraitImplFor(selfType))
  }

  /** What `extract_item`, `inherent_impls_for_item`, `trait_impls_for_item` and `extract_trait_impl` make of a raw item. */
  ghost predicate ExtractedFrom(item: RawItem, raw: ItemOrder.RawEnum) {
    && SortsAs(item.rendered, ItemOrder.Plain(raw))
    && (forall i :: 0 <= i < |item.inherentImpls| ==> IsImplOf(item.inherentImpls[i], raw, item.rendered.name))
    && (forall i :: 0 <= i < |item.traitImpls| ==> IsTraitImpl(item.traitImpls[i]))
    && (item.kind.RawTraitImpl? && item.kind.extracted.Some? ==> IsTraitImpl(item.kind.extracted.value))
  }

  ghost predicate WorkspaceExtracted(ws: Workspace) {
    forall name, id :: name in ws.packages && ws.generate(name).Ok? && id in ws.generate(name).value.index ==>
                         exists raw :: ExtractedFrom(ws.generate(name).value.index[id], raw)
  }

  /** An extracted item can be sorted, and is one group with its impls, which come after it. */
  lemma ExtractedSorts(item: RawItem, raw: ItemOrder.RawEnum)
    requires ExtractedFrom(item, raw)
    ensures RawSortable(item)
    ensures forall i :: 0 <= i < |item.inherentImpls| ==>
              && ItemOrder.SameGroup(item.rendered, item.inherentImpls[i])
              && ItemOrder.Compare(item.rendered, item.inherentImpls[i]) == ItemOrder.Less
  {
    forall i | 0 <= i < |item.inherentImpls|
      ensures ItemOrder.WellFormed(item.inherentImpls[i])
      ensures ItemOrder.SameGroup(item.rendered, item.inherentImpls[i])
      ensures ItemOrder.Compare(item.rendered, item.inherentImpls[i]) == ItemOrder.Less
    {
      assert IsImplOf(item.inherentImpls[i], raw, item.rendered.name);
      ImplSorts(item.rendered, item.inherentImpls[i], raw);
    }
    forall i | 0 <= i < |item.traitImpls|
      ensures ItemOrder.WellFormed(item.traitImpls[i])
    {
      assert IsTraitImpl(item.traitImpls[i]);
    }
  }

  lemma ImplSorts(own: ApiItem, impl: ApiItem, raw: ItemOrder.RawEnum)
    requires SortsAs(own, ItemOrder.Plain(raw)) && IsImplOf(impl, raw, own.name)
    ensures ItemOrder.WellFormed(own) && ItemOrder.WellFormed(impl)
    ensures ItemOrder.SameGroup(own, impl) && ItemOrder.Compare(own, impl) == ItemOrder.Less
  {
    var selfType :| SortsAs(impl, ItemOrder.InherentImplOf(raw, selfType));
    ItemOrder.ExtractedGroups(raw, selfType, own.name, own.declaration, impl.declaration);
  }

  lemma ExtractedSortable(ws: Workspace)
    requires WorkspaceExtracted(ws)
    ensures WorkspaceSortable(ws)
  {
    forall name, id | name in ws.packages && ws.generate(name).Ok? && id in ws.generate(name).value.index
      ensures RawSortable(ws.generate(name).value.index[id])
    {
      var raw :| ExtractedFrom(ws.generate(name).value.index[id], raw);
      ExtractedSorts(ws.generate(name).value.index[id], raw);
    }
  }

  /** The sorter never panics on a module of a model loaded from what the extractor makes of raw items. */
  lemma LoadedModelSorts(ws: Workspace, rank: Rank, name: string, positions: seq<nat>)
    requires Ranked(ws, rank) && ModelOf(name) in rank && WorkspaceExtracted(ws)
    ensures var model := PureModel(ws, rank, name);
            model.Ok? && Descendant(model.value.root, positions).Some? ==> ItemOrder.AllWellFormed(Descendant(model.value.root, positions).value.items)
  {
    ExtractedSortable(ws);
    ModelSortable(ws, rank, name);
    var model := PureModel(ws, rank, name);
    if model.Ok? {
      DescendantSortable(model.value.root, positions);
    }
  }
}
