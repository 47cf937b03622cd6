/**
  Two invariants of every extraction run, whatever modules, re-exports, globs and crates it goes through:
  the path of a module extends the path of the module that holds it, and whatever a re-export
  brings in carries the attributes of the re-export first.
  */
module ExtractionShape {
  import opened Basics
  import opened ApiData
  import opened ModuleTree
  import opened Extraction

  // ---------- Nested paths ----------

  predicate Extends(path: string, parent: string) {
    |parent| + 2 <= |path| && path[..|parent|] == parent && path[|parent|..|parent| + 2] == "::"
  }

  predicate Nested(m: ApiModule)
    decreases m
  {
    NestedIn(m.modules, m.path)
  }

  /** Each module extends the parent's path and is nested itself. */
  predicate NestedIn(ms: seq<ApiModule>, parent: string)
    decreases ms
  {
    |ms| == 0 || (Extends(ms[0].path, parent) && Nested(ms[0]) && NestedIn(ms[1..], parent))
  }

  lemma ChildExtends(parent: string, name: string)
    ensures Extends(ChildPath(parent, name), parent)
  {
  }

  lemma ExtendsThrough(path: string, parent: string, name: string)
    requires Extends(path, ChildPath(parent, name))
    ensures Extends(path, parent)
  {
    var middle := ChildPath(parent, name);
    assert path[..|parent| + 2] == path[..|middle|][..|parent| + 2] == parent + "::";
    assert path[..|parent|] == path[..|parent| + 2][..|parent|];
    assert path[|parent|..|parent| + 2] == path[..|parent| + 2][|parent|..];
  }

  /** Children of a child may be spliced into the parent, as a glob does. */
  lemma {:induction false} NestedThrough(ms: seq<ApiModule>, parent: string, name: string)
    requires NestedIn(ms, ChildPath(parent, name))
    ensures NestedIn(ms, parent)
  {
    if |ms| == 0 {
    } else {
      ExtendsThrough(ms[0].path, parent, name);
      NestedThrough(ms[1..], parent, name);
    }
  }

  lemma {:induction false} NestedAppend(a: seq<ApiModule>, b: seq<ApiModule>, parent: string)
    ensures NestedIn(a + b, parent) <==> NestedIn(a, parent) && NestedIn(b, parent)
  {
    if |a| == 0 {
      assert a + b == b;
    } else {
      assert (a + b)[1..] == a[1..] + b;
      NestedAppend(a[1..], b, parent);
    }
  }

  /** Rebasing nests any tree, whatever its paths were. */
  lemma {:induction false} RebaseNests(m: ApiModule, path: string)
    ensures Nested(Rebase(m, path))
    decreases m
  {
    RebaseAllNests(m.modules, path);
  }

  lemma {:induction false} RebaseAllNests(ms: seq<ApiModule>, parent: string)
    ensures NestedIn(RebaseAll(ms, parent), parent)
    decreases ms
  {
    if |ms| == 0 {
    } else {
      var path := ChildPath(parent, LocalName(ms[0].path));
      RebaseNests(ms[0], path);
      RebaseAllNests(ms[1..], parent);
      ChildExtends(parent, LocalName(ms[0].path));
      assert RebaseAll(ms, parent)[1..] == RebaseAll(ms[1..], parent);
    }
  }

  lemma {:induction false} AttributesKeepNesting(ms: seq<ApiModule>, attributes: seq<string>, parent: string)
    requires NestedIn(ms, parent)
    ensures NestedIn(ApplyToModules(ms, attributes), parent)
  {
    if |ms| == 0 {
    } else {
      AttributesKeepNesting(ms[1..], attributes, parent);
      assert ApplyToModules(ms, attributes)[1..] == ApplyToModules(ms[1..], attributes);
    }
  }

  lemma {:induction false} ItemsKeepModules(m: ApiModule, items: seq<ApiItem>)
    ensures InsertItems(m, items).modules == m.modules && InsertItems(m, items).path == m.path
  {
    if |items| == 0 {
    } else {
      ItemsKeepModules(m, items[..|items| - 1]);
    }
  }

  lemma InsertNested(m: ApiModule, child: ApiModule)
    requires Nested(m) && Extends(child.path, m.path) && Nested(child)
    ensures Nested(InsertModule(m, child)) && InsertModule(m, child).path == m.path
  {
    NestedAppend(m.modules, [child], m.path);
  }

  lemma {:induction false} InsertAllNested(m: ApiModule, modules: seq<ApiModule>)
    requires Nested(m) && NestedIn(modules, m.path)
    ensures Nested(InsertModules(m, modules)) && InsertModules(m, modules).path == m.path
  {
    if |modules| == 0 {
    } else {
      var n := |modules| - 1;
      assert modules == modules[..n] + [modules[n]];
      NestedAppend(modules[..n], [modules[n]], m.path);
      InsertAllNested(m, modules[..n]);
      InsertNested(InsertModules(m, modules[..n]), modules[n]);
    }
  }

  /** What an expansion adds to a module at `path`. */
  predicate ExpandedNested(e: Option<Expanded>, path: string) {
    e.Some? ==> NestedIn(e.value.modules, path)
  }

  lemma ApplyNested(e: Expanded, attributes: seq<string>, path: string)
    requires NestedIn(e.modules, path)
    ensures NestedIn(ApplyImportAttributes(e, attributes).modules, path)
  {
    AttributesKeepNesting(e.modules, attributes, path);
  }

  lemma ModelExpansionNested(root: ApiModule, imported: Import, current: string, attributes: seq<string>, segments: seq<string>)
    ensures ExpandedNested(ExpandModelReexport(root, imported, current, attributes, segments), current)
  {
    var found := FindModule(root, segments);
    if found.Some? {
      RebaseNests(found.value, current);
      var path := ChildPath(current, imported.name);
      RebaseNests(found.value, path);
      ChildExtends(current, imported.name);
      var one := [Rebase(found.value, path)];
      assert NestedIn(one, current);
      ApplyNested(Expanded([], one), attributes, current);
      ApplyNested(Expanded(Rebase(found.value, current).items, Rebase(found.value, current).modules), attributes, current);
    } else {
      var item := ExpandModelItem(root, segments);
      if item.Some? {
        ApplyNested(item.value, attributes, current);
      }
    }
  }

  lemma {:induction false} ModuleNested(ws: Workspace, rank: Rank, krate: Crate, item: RawItem, path: string, n: nat)
    requires Ranked(ws, rank) && ModuleAt(krate, item, path) in rank
    requires item.kind.RawModule? && n <= |item.kind.items|
    ensures var m := PureModule(ws, rank, krate, item, path, n); m.Ok? ==> Nested(m.value) && m.value.path == path
    decreases rank[ModuleAt(krate, item, path)], 2, n
  {
    if n == 0 {
    } else {
      ModuleNested(ws, rank, krate, item, path, n - 1);
      var before, id := PureModule(ws, rank, krate, item, path, n - 1), item.kind.items[n - 1];
      if before.Ok? && id in krate.index {
        var task, child := ModuleAt(krate, item, path), krate.index[id];
        assert TaskOk(ws, rank, task);
        assert ChildBelow(rank, krate, krate.index[item.kind.items[n - 1]], path, rank[task]);
        if DescendsInto(child) {
          ModuleNested(ws, rank, krate, child, ModulePath(path, child), |child.kind.items|);
          var inner := PureModule(ws, rank, krate, child, ModulePath(path, child), |child.kind.items|);
          if inner.Ok? {
            ChildExtends(path, if child.name.Some? then child.name.value else "unknown_module");
            InsertNested(before.value, inner.value);
          }
        } else if child.kind.RawUse? && IsIncluded(child) {
          ExpandNested(ws, rank, krate, child, path);
          var expanded := PureExpand(ws, rank, krate, child, path);
          if expanded.Ok? {
            UseNested(before.value, child, expanded.value);
          }
        } else {
          PlainNested(before.value, child);
        }
      }
    }
  }

  lemma UseNested(m: ApiModule, child: RawItem, expanded: Option<Expanded>)
    requires Nested(m) && ExpandedNested(expanded, m.path)
    ensures Nested(InsertUse(m, child, expanded)) && InsertUse(m, child, expanded).path == m.path
  {
    if expanded.Some? {
      ItemsKeepModules(m, expanded.value.items);
      InsertAllNested(InsertItems(m, expanded.value.items), expanded.value.modules);
    }
  }

  lemma PlainNested(m: ApiModule, child: RawItem)
    requires Nested(m)
    ensures Nested(InsertPlain(m, child)) && InsertPlain(m, child).path == m.path
  {
    ItemsKeepModules(InsertItem(m, child.rendered), child.inherentImpls);
  }

  lemma {:induction false} ExpandNested(ws: Workspace, rank: Rank, krate: Crate, item: RawItem, path: string)
    requires Ranked(ws, rank) && UseAt(krate, item, path) in rank && item.kind.RawUse?
    ensures var e := PureExpand(ws, rank, krate, item, path); e.Ok? ==> ExpandedNested(e.value, path)
    decreases rank[UseAt(krate, item, path)], 1, 0
  {
    var task, imported := UseAt(krate, item, path), item.kind.imported;
    assert TaskOk(ws, rank, task);
    SourceNested(ws, rank, SourceOf(ws, krate, imported, path), imported, path, item.attributes, rank[task]);
  }

  lemma {:induction false} SourceNested(ws: Workspace, rank: Rank, source: Source, imported: Import, path: string, attributes: seq<string>, bound: nat)
    requires Ranked(ws, rank) && SourceBelow(rank, source, imported, path, bound)
    ensures var e := PureSource(ws, rank, source, imported, path, attributes, bound); e.Ok? ==> ExpandedNested(e.value, path)
    decreases bound, 0, 1
  {
    match source
    case LocalTo(home, target) => LocalNested(ws, rank, home, target, imported, path, attributes, bound);
    case FromModel(name, segments) =>
      var model := PureModel(ws, rank, name);
      if model.Ok? {
        ModelExpansionNested(model.value.root, imported, path, attributes, segments);
      }
    case _ =>
  }

  lemma {:induction false} LocalNested(ws: Workspace, rank: Rank, krate: Crate, target: RawItem, imported: Import, path: string, attributes: seq<string>, bound: nat)
    requires Ranked(ws, rank) && TargetBelow(rank, krate, target, imported, path, bound)
    ensures var e := PureLocal(ws, rank, krate, target, imported, path, attributes, bound); e.Ok? ==> ExpandedNested(e.value, path)
    decreases bound, 0, 0
  {
    if target.kind.RawUse? {
      ExpandNested(ws, rank, krate, target, path);
      var nested := PureExpand(ws, rank, krate, target, path);
      if nested.Ok? {
        ChainNested(nested.value, krate, target.kind.imported, attributes, path);
      }
    } else if target.kind.RawModule? {
      var home := ChildPath(path, imported.name);
      ModuleNested(ws, rank, krate, target, home, |target.kind.items|);
      var m := PureModule(ws, rank, krate, target, home, |target.kind.items|);
      if m.Ok? {
        SpliceNested(m.value, path, imported, attributes);
      }
    } else {
      ApplyNested(ExpandItem(target), attributes, path);
    }
  }

  lemma ChainNested(nested: Option<Expanded>, krate: Crate, imported: Import, attributes: seq<string>, path: string)
    requires ExpandedNested(nested, path)
    ensures ExpandedNested(MergeChained(nested, krate, imported, attributes), path)
  {
    var first := if nested.Some? then nested.value else Expanded([], []);
    var second :=
      if imported.id.Some? && imported.id.value in krate.index then ExpandItem(krate.index[imported.id.value]) else Expanded([], []);
    NestedAppend(first.modules, second.modules, path);
    ApplyNested(Expanded(first.items + second.items, first.modules + second.modules), attributes, path);
  }

  lemma SpliceNested(m: ApiModule, path: string, imported: Import, attributes: seq<string>)
    requires Nested(m) && m.path == ChildPath(path, imported.name)
    ensures NestedIn(ApplyImportAttributes(ExpandModule(m, imported.isGlob), attributes).modules, path)
  {
    NestedThrough(m.modules, path, imported.name);
    ChildExtends(path, imported.name);
    assert NestedIn([m], path);
    ApplyNested(ExpandModule(m, imported.isGlob), attributes, path);
  }

  /** Every model that loads is nested: at every depth a module's path extends its parent's. */
  lemma ModelNested(ws: Workspace, rank: Rank, name: string)
    requires Ranked(ws, rank) && ModelOf(name) in rank
    ensures var model := PureModel(ws, rank, name);
            model.Ok? ==> Nested(model.value.root) && model.value.root.path == ws.packages[name].name
  {
    assert TaskOk(ws, rank, ModelOf(name));
    var krate := PureCrate(ws, name);
    if krate.Ok? && RootOf(krate.value).Ok? {
      var root := RootOf(krate.value).value;
      ModuleNested(ws, rank, krate.value, root, ws.packages[name].name, |root.kind.items|);
    }
  }

  // ---------- Attributes of re-exports ----------

  ghost predicate Carries(e: Expanded, attributes: seq<string>) {
    && (forall i :: 0 <= i < |e.items| ==> attributes <= e.items[i].attributes)
    && (forall i :: 0 <= i < |e.modules| ==> attributes <= e.modules[i].attributes)
  }

  lemma PrependStarts(attributes: seq<string>, prefix: seq<string>)
    ensures prefix <= PrependAttributes(attributes, prefix)
  {
    AppendNewKeeps(prefix, attributes, |prefix|);
  }

  /** Only the attributes of an entry change, and the re-export's come first. */
  lemma {:induction false} ItemsCarry(items: seq<ApiItem>, attributes: seq<string>, i: nat)
    requires i < |items|
    ensures var out := ApplyToItems(items, attributes)[i]; attributes <= out.attributes && out == items[i].(attributes := out.attributes)
  {
    PrependStarts(items[0].attributes, attributes);
    if |items| > 1 {
      ItemsCarry(items[1..], attributes, if i > 0 then i - 1 else 0);
    }
  }

  lemma {:induction false} ModulesCarry(modules: seq<ApiModule>, attributes: seq<string>, i: nat)
    requires i < |modules|
    ensures var out := ApplyToModules(modules, attributes)[i]; attributes <= out.attributes && out == modules[i].(attributes := out.attributes)
  {
    PrependStarts(modules[0].attributes, attributes);
    if |modules| > 1 {
      ModulesCarry(modules[1..], attributes, if i > 0 then i - 1 else 0);
    }
  }

  lemma ApplyCarries(e: Expanded, attributes: seq<string>)
    ensures Carries(ApplyImportAttributes(e, attributes), attributes)
  {
    forall i | 0 <= i < |e.items|
      ensures attributes <= ApplyToItems(e.items, attributes)[i].attributes
    {
      ItemsCarry(e.items, attributes, i);
    }
    forall i | 0 <= i < |e.modules|
      ensures attributes <= ApplyToModules(e.modules, attributes)[i].attributes
    {
      ModulesCarry(e.modules, attributes, i);
    }
  }

  /** Whatever any re-export brings in, from this crate, another crate or a chain of re-exports, carries its attributes first. */
  lemma ReexportCarriesAttributes(ws: Workspace, rank: Rank, krate: Crate, item: RawItem, path: string)
    requires Ranked(ws, rank) && UseAt(krate, item, path) in rank && item.kind.RawUse?
    ensures var e := PureExpand(ws, rank, krate, item, path); e.Ok? && e.value.Some? ==> Carries(e.value.value, item.attributes)
  {
    var task, imported, attributes := UseAt(krate, item, path), item.kind.imported, item.attributes;
    assert TaskOk(ws, rank, task);
    match SourceOf(ws, krate, imported, path) {
      case LocalTo(home, target) =>
        LocalCarries(ws, rank, home, target, imported, path, attributes, rank[task]);
      case FromModel(name, segments) =>
        var model := PureModel(ws, rank, name);
        if model.Ok? {
          ModelCarries(model.value.root, imported, path, attributes, segments);
        }
      case _ =>
    }
  }

  lemma ModelCarries(root: ApiModule, imported: Import, path: string, attributes: seq<string>, segments: seq<string>)
    ensures var e := ExpandModelReexport(root, imported, path, attributes, segments); e.Some? ==> Carries(e.value, attributes)
  {
    forall e: Expanded
      ensures Carries(ApplyImportAttributes(e, attributes), attributes)
    {
      ApplyCarries(e, attributes);
    }
  }

  lemma LocalCarries(ws: Workspace, rank: Rank, krate: Crate, target: RawItem, imported: Import, path: string, attributes: seq<string>, bound: nat)
    requires Ranked(ws, rank) && TargetBelow(rank, krate, target, imported, path, bound)
    ensures var e := PureLocal(ws, rank, krate, target, imported, path, attributes, bound);
            e.Ok? && e.value.Some? ==> Carries(e.value.value, attributes)
  {
    forall e: Expanded
      ensures Carries(ApplyImportAttributes(e, attributes), attributes)
    {
      ApplyCarries(e, attributes);
    }
  }
}
