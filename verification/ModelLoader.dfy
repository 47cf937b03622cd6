/**
  The caching loader of `driver.rs`, with the extraction that calls back into it.

  `Valid` says that every cached crate and model is what the cache-free functions of `Extraction` give.
  Every method returns the cache-free result and only adds entries, whether it succeeds or fails.
  */
module ModelLoader {
  import opened Basics
  import opened ApiData
  import opened ModuleTree
  import opened Extraction
  import opened ExtractionContents

  ghost predicate CrateEntryOk(ws: Workspace, name: string, krate: Crate) {
    PureCrate(ws, name) == Ok(krate)
  }

  ghost predicate ModelEntryOk(ws: Workspace, rank: Rank, name: string, model: ApiModel)
    requires Ranked(ws, rank)
  {
    ModelOf(name) in rank && PureModel(ws, rank, name) == Ok(model)
  }

  /** Every entry of `before` is still there. */
  ghost predicate Extends<V>(before: map<string, V>, after: map<string, V>) {
    before.Keys <= after.Keys && forall name :: name in before ==> after[name] == before[name]
  }

  ghost predicate NoRepeats(names: seq<string>) {
    forall i, j :: 0 <= i < j < |names| ==> names[i] != names[j]
  }

  class Loader {
    const workspace: Workspace
    ghost const rank: Rank
    var crates: map<string, Crate>
    var models: map<string, ApiModel>
    /** The crates whose rustdoc has been generated and read successfully, in order. */
    ghost var generated: seq<string>

    ghost predicate Valid()
      reads this
    {
      && Ranked(workspace, rank)
      && (forall name :: name in crates ==> CrateEntryOk(workspace, name, crates[name]))
      && (forall name :: name in models ==> ModelEntryOk(workspace, rank, name, models[name]))
      && NoRepeats(generated)
      && (forall name :: name in crates <==> name in generated)
    }

    twostate predicate Grew()
      reads this
    {
      Extends(old(crates), crates) && Extends(old(models), models) && old(generated) <= generated
    }

    constructor (workspace: Workspace, ghost rank: Rank)
      requires Ranked(workspace, rank)
      ensures Valid() && this.workspace == workspace && this.rank == rank
      ensures crates == map[] && models == map[] && generated == []
    {
      this.workspace, this.rank := workspace, rank;
      crates, models, generated := map[], map[], [];
    }

    method LoadCrate(name: string) returns (r: Result<Crate, string>)
      requires Valid()
      modifies this
      ensures Valid() && Grew() && models == old(models)
      ensures r == PureCrate(workspace, name)
      ensures r.Ok? ==> name in crates
    {
      if name in crates {
        assert CrateEntryOk(workspace, name, crates[name]);
        return Ok(crates[name]);
      }
      if name !in workspace.packages {
        return Err(UnknownCrate(name));
      }
      r := workspace.generate(name);
      if r.Ok? {
        crates := crates[name := r.value];
        generated := generated + [name];
      }
    }

    method LoadModel(name: string) returns (r: Result<ApiModel, string>)
      requires Valid() && ModelOf(name) in rank
      modifies this
      ensures Valid() && Grew()
      ensures r == PureModel(workspace, rank, name)
      ensures r.Ok? ==> name in models
      decreases rank[ModelOf(name)], 3, 0
    {
      if name in models {
        assert ModelEntryOk(workspace, rank, name, models[name]);
        return Ok(models[name]);
      }
      if name !in workspace.packages {
        return Err(UnknownCrate(name));
      }
      var krate := LoadCrate(name);
      if krate.Err? {
        return Err(krate.error);
      }
      var root := RootOf(krate.value);
      if root.Err? {
        return Err(root.error);
      }
      assert TaskOk(workspace, rank, ModelOf(name));
      var m := ExtractModule(krate.value, root.value, workspace.packages[name].name);
      if m.Err? {
        return Err(m.error);
      }
      var model := ApiModel(workspace.packages[name].name, workspace.packages[name].version, m.value);
      assert ModelEntryOk(workspace, rank, name, model);
      if name in models {
        assert ModelEntryOk(workspace, rank, name, models[name]);
      }
      models := models[name := model];
      return Ok(model);
    }

    method ExtractModule(krate: Crate, item: RawItem, path: string) returns (r: Result<ApiModule, string>)
      requires Valid() && ModuleAt(krate, item, path) in rank && item.kind.RawModule?
      modifies this
      ensures Valid() && Grew()
      ensures r == PureModule(workspace, rank, krate, item, path, |item.kind.items|)
      decreases rank[ModuleAt(krate, item, path)], 2, 0
    {
      var m := EmptyModule(item, path);
      for i := 0 to |item.kind.items|
        invariant Valid() && Grew()
        invariant PureModule(workspace, rank, krate, item, path, i) == Ok(m)
      {
        var step := ExtractChild(krate, item, path, i, m);
        if step.Err? {
          ErrorStays(workspace, rank, krate, item, path, i + 1, |item.kind.items|);
          return Err(step.error);
        }
        m := step.value;
      }
      return Ok(m);
    }

    /** One turn of the loop over the children of a module. */
    method ExtractChild(krate: Crate, item: RawItem, path: string, i: nat, m: ApiModule) returns (r: Result<ApiModule, string>)
      requires Valid() && ModuleAt(krate, item, path) in rank && item.kind.RawModule? && i < |item.kind.items|
      requires PureModule(workspace, rank, krate, item, path, i) == Ok(m)
      modifies this
      ensures Valid() && Grew()
      ensures r == PureModule(workspace, rank, krate, item, path, i + 1)
      ensures ModuleIsRight(workspace, rank, krate, item, path, i + 1, r)
      decreases rank[ModuleAt(krate, item, path)], 1, 0
    {
      hide ModuleIsRight;
      ModuleHolds(workspace, rank, krate, item, path, i + 1);
      var id := item.kind.items[i];
      if id !in krate.index {
        return Ok(m);
      }
      var child := krate.index[id];
      assert TaskOk(workspace, rank, ModuleAt(krate, item, path));
      assert ChildBelow(rank, krate, krate.index[item.kind.items[i]], path, rank[ModuleAt(krate, item, path)]);
      if DescendsInto(child) {
        var inner := ExtractModule(krate, child, ModulePath(path, child));
        return if inner.Err? then Err(inner.error) else Ok(InsertModule(m, inner.value));
      }
      if child.kind.RawUse? && IsIncluded(child) {
        var expanded := ExpandReexport(krate, child, path);
        return if expanded.Err? then Err(expanded.error) else Ok(InsertUse(m, child, expanded.value));
      }
      return Ok(InsertPlain(m, child));
    }

    method ExpandReexport(krate: Crate, item: RawItem, path: string) returns (r: Result<Option<Expanded>, string>)
      requires Valid() && UseAt(krate, item, path) in rank && item.kind.RawUse?
      modifies this
      ensures Valid() && Grew()
      ensures r == PureExpand(workspace, rank, krate, item, path)
      decreases rank[UseAt(krate, item, path)], 1, 0
    {
      assert TaskOk(workspace, rank, UseAt(krate, item, path));
      var imported := item.kind.imported;
      if !imported.isGlob && imported.name != LocalName(imported.source) {
        return Ok(None);
      }
      if imported.id.None? {
        return Ok(None);
      }
      if imported.id.value in krate.index {
        if workspace.reachable(krate, imported.source, imported.isGlob, path) {
          return Ok(None);
        }
        r := ExpandLocalReexport(krate, krate.index[imported.id.value], imported, path, item.attributes, rank[UseAt(krate, item, path)]);
        return;
      }
      if imported.id.value !in krate.paths {
        return Ok(None);
      }
      r := ExpandForeignReexport(krate.paths[imported.id.value], imported, path, item.attributes, rank[UseAt(krate, item, path)]);
    }

    /** The part of `expand_reexport` for targets in other crates. */
    method ExpandForeignReexport(summary: seq<string>, imported: Import, path: string, attributes: seq<string>, ghost bound: nat) returns (r: Result<Option<Expanded>, string>)
      requires Valid() && SourceBelow(rank, ForeignSource(workspace, summary), imported, path, bound)
      modifies this
      ensures Valid() && Grew()
      ensures r == PureSource(workspace, rank, ForeignSource(workspace, summary), imported, path, attributes, bound)
      decreases bound, 0, 1
    {
      if |summary| == 0 || summary[0] !in workspace.packages {
        return Ok(None);
      }
      var foreign := LoadCrate(summary[0]);
      if foreign.Err? {
        return Err(foreign.error);
      }
      var target := FindRawItem(foreign.value, summary[1..]);
      if target.Some? {
        r := ExpandLocalReexport(foreign.value, target.value, imported, path, attributes, bound);
        return;
      }
      var model := LoadModel(summary[0]);
      if model.Err? {
        return Err(model.error);
      }
      return Ok(ExpandModelReexport(model.value.root, imported, path, attributes, summary[1..]));
    }

    method ExpandLocalReexport(krate: Crate, target: RawItem, imported: Import, path: string, attributes: seq<string>, ghost bound: nat) returns (r: Result<Option<Expanded>, string>)
      requires Valid() && TargetBelow(rank, krate, target, imported, path, bound)
      modifies this
      ensures Valid() && Grew()
      ensures r == PureLocal(workspace, rank, krate, target, imported, path, attributes, bound)
      decreases bound, 0, 0
    {
      if target.kind.RawUse? {
        var nested := ExpandReexport(krate, target, path);
        return if nested.Err? then Err(nested.error) else Ok(MergeChained(nested.value, krate, target.kind.imported, attributes));
      }
      if target.kind.RawModule? {
        var m := ExtractModule(krate, target, ChildPath(path, imported.name));
        return if m.Err? then Err(m.error) else Ok(Some(ApplyImportAttributes(ExpandModule(m.value, imported.isGlob), attributes)));
      }
      return Ok(if imported.isGlob then None else Some(ApplyImportAttributes(ExpandItem(target), attributes)));
    }
  }

  /** Once a child has failed, so has the module. */
  lemma {:induction false} ErrorStays(ws: Workspace, rank: Rank, krate: Crate, item: RawItem, path: string, i: nat, n: nat)
    requires Ranked(ws, rank) && ModuleAt(krate, item, path) in rank
    requires item.kind.RawModule? && i <= n <= |item.kind.items|
    ensures PureModule(ws, rank, krate, item, path, i).Err? ==> PureModule(ws, rank, krate, item, path, n) == PureModule(ws, rank, krate, item, path, i)
    decreases n
  {
    if i < n {
      ErrorStays(ws, rank, krate, item, path, i, n - 1);
    }
  }

  /** Any run of loads returns what cache-free loading would, in whatever order and with whatever failures. */
  method LoadAll(workspace: Workspace, ghost rank: Rank, names: seq<string>) returns (results: seq<Result<ApiModel, string>>)
    requires Ranked(workspace, rank)
    requires forall i :: 0 <= i < |names| ==> ModelOf(names[i]) in rank
    ensures |results| == |names|
    ensures forall i :: 0 <= i < |names| ==> results[i] == PureModel(workspace, rank, names[i]) && ModelIsRight(workspace, rank, names[i], results[i])
  {
    hide ModelIsRight;
    var loader := new Loader(workspace, rank);
    results := [];
    for i := 0 to |names|
      invariant loader.Valid() && loader.workspace == workspace && loader.rank == rank
      invariant |results| == i
      invariant forall j :: 0 <= j < i ==> results[j] == PureModel(workspace, rank, names[j]) && ModelIsRight(workspace, rank, names[j], results[j])
    {
      var r := loader.LoadModel(names[i]);
      ModelHolds(workspace, rank, names[i]);
      results := results + [r];
    }
  }
}
