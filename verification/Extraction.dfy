/**
  Extraction of an API model from rustdoc, without caches (`extract.rs`).

  A raw item carries what the item-level extraction makes of it (`rendered`, `inherentImpls`,
  `traitImpls`); this module models how modules, re-exports and foreign crates are put together.
  Extraction follows re-exports without a visited set, so it is defined for workspaces whose task
  graph has a rank: a task is a model to load, a module to extract or a re-export to expand.
  */
module Extraction {
  import opened Basics
  import opened ApiData
  import opened ModuleTree
  import opened AttributeText

  type Id = nat

  datatype Import = Import(source: string, name: string, id: Option<Id>, isGlob: bool)

  datatype RawKind =
    | RawModule(items: seq<Id>, isStripped: bool)
    | RawTraitImpl(extracted: Option<ApiItem>)
    | RawOtherImpl
    | RawUse(imported: Import)
    | RawOther

  datatype RawItem = RawItem(
    name: Option<string>, isVisible: bool, isExcludedKind: bool, kind: RawKind, docComments: seq<string>,
    attributes: seq<string>, rendered: ApiItem, inherentImpls: seq<ApiItem>, traitImpls: seq<ApiItem>)

  datatype Crate = Crate(root: Id, index: map<Id, RawItem>, paths: map<Id, seq<string>>)
  datatype Package = Package(name: string, version: string)

  /**
    `generate` stands for running rustdoc on a package and parsing its output, `reachable` for the test
    whether the source of a local re-export is itself publicly reachable.
    */
  datatype Workspace = Workspace(
    packages: map<string, Package>,
    generate: string -> Result<Crate, string>,
    reachable: (Crate, string, bool, string) -> bool)

  // ---------- Expansion of one re-export, given what it refers to ----------

  datatype Expanded = Expanded(items: seq<ApiItem>, modules: seq<ApiModule>)

  function ApplyToItems(items: seq<ApiItem>, attributes: seq<string>): (applied: seq<ApiItem>)
    ensures |applied| == |items|
  {
    if |items| == 0 then []
    else [items[0].(attributes := PrependAttributes(items[0].attributes, attributes))] + ApplyToItems(items[1..], attributes)
  }

  function ApplyToModules(modules: seq<ApiModule>, attributes: seq<string>): (applied: seq<ApiModule>)
    ensures |applied| == |modules|
  {
    if |modules| == 0 then []
    else [modules[0].(attributes := PrependAttributes(modules[0].attributes, attributes))] + ApplyToModules(modules[1..], attributes)
  }

  function ApplyImportAttributes(e: Expanded, attributes: seq<string>): Expanded {
    if |attributes| == 0 then e else Expanded(ApplyToItems(e.items, attributes), ApplyToModules(e.modules, attributes))
  }

  function ExpandItem(target: RawItem): Expanded {
    Expanded([target.rendered] + target.inherentImpls + target.traitImpls, [])
  }

  function TrimStartMatches(s: string, prefix: string): string
    requires |prefix| > 0
  {
    if StartsWith(s, prefix) then TrimStartMatches(s[|prefix|..], prefix) else s
  }

  function RebaseTraitImplItem(item: ApiItem): ApiItem {
    var at := Find(item.declaration, " for ");
    if at.None? then item
    else
      var traitName := TrimStartMatches(TrimStartMatches(item.declaration[..at.value], "unsafe "), "impl ");
      item.(name := LocalName(traitName) + "_" + item.name)
  }

  function NamedOrImplementing(items: seq<ApiItem>, name: string): seq<ApiItem> {
    if |items| == 0 then []
    else if items[0].name == name || (items[0].kind.TraitImpl? && Contains(items[0].declaration, " for " + name))
    then [RebaseTraitImplItem(items[0])] + NamedOrImplementing(items[1..], name)
    else NamedOrImplementing(items[1..], name)
  }

  function ExpandModelItem(root: ApiModule, segments: seq<string>): Option<Expanded> {
    var target := FindItem(root, segments);
    if target.None? || |segments| == 0 then None
    else
      var items := NamedOrImplementing(root.items, segments[|segments| - 1]);
      Some(Expanded(if |items| == 0 then [target.value] else items, []))
  }

  function ExpandModelReexport(root: ApiModule, imported: Import, current: string, attributes: seq<string>, segments: seq<string>): Option<Expanded> {
    var found := FindModule(root, segments);
    var expanded :=
      if imported.isGlob then
        if found.None? then None
        else var rebased := Rebase(found.value, current); Some(Expanded(rebased.items, rebased.modules))
      else if found.Some? then Some(Expanded([], [Rebase(found.value, ChildPath(current, imported.name))]))
      else ExpandModelItem(root, segments);
    if expanded.None? then None else Some(ApplyImportAttributes(expanded.value, attributes))
  }

  function LookupName(item: RawItem): Option<string> {
    if item.name.Some? then item.name else if item.kind.RawUse? then Some(item.kind.imported.name) else None
  }

  function FirstRaw(krate: Crate, items: seq<Id>, name: string): (found: Option<RawItem>)
    ensures found.Some? ==> LookupName(found.value) == Some(name)
  {
    if |items| == 0 then None
    else if items[0] in krate.index && LookupName(krate.index[items[0]]) == Some(name) then Some(krate.index[items[0]])
    else FirstRaw(krate, items[1..], name)
  }

  function RawBelow(krate: Crate, item: RawItem, path: seq<string>): Option<RawItem>
    decreases |path|
  {
    if |path| == 0 then Some(item)
    else if !item.kind.RawModule? then None
    else
      match FirstRaw(krate, item.kind.items, path[0])
      case None => None
      case Some(child) => RawBelow(krate, child, path[1..])
  }

  /** `find_raw_item_by_path` */
  function FindRawItem(krate: Crate, path: seq<string>): Option<RawItem> {
    if krate.root in krate.index then RawBelow(krate, krate.index[krate.root], path) else None
  }

  // ---------- What a re-export refers to ----------

  datatype Source =
    | NotExpanded
    | LocalTo(krate: Crate, target: RawItem)
    | FromModel(name: string, segments: seq<string>)
    | Failed(error: string)

  function UnknownCrate(name: string): string {
    "Unknown workspace crate '" + name + "'"
  }

  /** Loading a crate without a cache. */
  function PureCrate(ws: Workspace, name: string): Result<Crate, string> {
    if name in ws.packages then ws.generate(name) else Err(UnknownCrate(name))
  }

  function ForeignSource(ws: Workspace, path: seq<string>): Source {
    if |path| == 0 || path[0] !in ws.packages then NotExpanded
    else
      match PureCrate(ws, path[0])
      case Err(error) => Failed(error)
      case Ok(krate) =>
        match FindRawItem(krate, path[1..])
        case Some(target) => LocalTo(krate, target)
        case None => FromModel(path[0], path[1..])
  }

  /** The decisions at the head of `expand_reexport`. */
  function SourceOf(ws: Workspace, krate: Crate, imported: Import, current: string): Source {
    if !imported.isGlob && imported.name != LocalName(imported.source) then NotExpanded
    else if imported.id.None? then NotExpanded
    else if imported.id.value in krate.index then
      if ws.reachable(krate, imported.source, imported.isGlob, current) then NotExpanded
      else LocalTo(krate, krate.index[imported.id.value])
    else if imported.id.value in krate.paths then ForeignSource(ws, krate.paths[imported.id.value])
    else NotExpanded
  }

  // ---------- The rank hypothesis ----------

  datatype Task =
    | ModelOf(name: string)
    | ModuleAt(krate: Crate, item: RawItem, path: string)
    | UseAt(krate: Crate, item: RawItem, path: string)

  type Rank = map<Task, nat>

  ghost predicate Below(rank: Rank, task: Task, bound: nat) {
    task in rank && rank[task] < bound
  }

  predicate DescendsInto(child: RawItem) {
    child.kind.RawModule? && !child.kind.isStripped && child.isVisible
  }

  predicate IsIncluded(child: RawItem) {
    child.isVisible && !child.isExcludedKind
  }

  function ModulePath(parent: string, child: RawItem): string {
    ChildPath(parent, if child.name.Some? then child.name.value else "unknown_module")
  }

  ghost predicate ChildBelow(rank: Rank, krate: Crate, child: RawItem, path: string, bound: nat) {
    && (DescendsInto(child) ==> Below(rank, ModuleAt(krate, child, ModulePath(path, child)), bound))
    && (child.kind.RawUse? && IsIncluded(child) ==> Below(rank, UseAt(krate, child, path), bound))
  }

  ghost predicate TargetBelow(rank: Rank, krate: Crate, target: RawItem, imported: Import, path: string, bound: nat) {
    && (target.kind.RawUse? ==> Below(rank, UseAt(krate, target, path), bound))
    && (target.kind.RawModule? ==> Below(rank, ModuleAt(krate, target, ChildPath(path, imported.name)), bound))
  }

  ghost predicate SourceBelow(rank: Rank, source: Source, imported: Import, path: string, bound: nat) {
    && (source.LocalTo? ==> TargetBelow(rank, source.krate, source.target, imported, path, bound))
    && (source.FromModel? ==> Below(rank, ModelOf(source.name), bound))
  }

  predicate HasRootModule(krate: Crate) {
    krate.root in krate.index && krate.index[krate.root].kind.RawModule?
  }

  ghost predicate TaskOk(ws: Workspace, rank: Rank, task: Task)
    requires task in rank
  {
    match task
    case ModelOf(name) =>
      name in ws.packages && ws.generate(name).Ok? && HasRootModule(ws.generate(name).value) ==>
        var krate := ws.generate(name).value;
        Below(rank, ModuleAt(krate, krate.index[krate.root], ws.packages[name].name), rank[task])
    case ModuleAt(krate, item, path) =>
      item.kind.RawModule? ==>
        forall i :: 0 <= i < |item.kind.items| && item.kind.items[i] in krate.index ==>
          ChildBelow(rank, krate, krate.index[item.kind.items[i]], path, rank[task])
    case UseAt(krate, item, path) =>
      item.kind.RawUse? ==> SourceBelow(rank, SourceOf(ws, krate, item.kind.imported, path), item.kind.imported, path, rank[task])
  }

  ghost predicate Ranked(ws: Workspace, rank: Rank) {
    forall task :: task in rank ==> TaskOk(ws, rank, task)
  }

  // ---------- Extraction without caches ----------

  function EmptyModule(item: RawItem, path: string): ApiModule {
    ApiModule(path, item.docComments, item.attributes, [], [])
  }

  function InsertExpanded(m: ApiModule, e: Expanded): (r: ApiModule)
    ensures Distinct(m) ==> Distinct(r)
  {
    InsertModules(InsertItems(m, e.items), e.modules)
  }

  function InsertUse(m: ApiModule, child: RawItem, expanded: Option<Expanded>): (r: ApiModule)
    ensures Distinct(m) ==> Distinct(r)
  {
    if expanded.Some? then InsertExpanded(m, expanded.value) else InsertItem(m, child.rendered)
  }

  /** What a child that is neither entered nor expanded adds. */
  function InsertPlain(m: ApiModule, child: RawItem): (r: ApiModule)
    ensures Distinct(m) ==> Distinct(r)
  {
    if child.kind.RawTraitImpl? then
      if child.kind.extracted.Some? then InsertItem(m, child.kind.extracted.value) else m
    else if child.kind.RawOtherImpl? || !IsIncluded(child) then m
    else InsertItems(InsertItem(m, child.rendered), child.inherentImpls)
  }

  /** The module made from the first `n` children. */
  ghost function PureModule(ws: Workspace, rank: Rank, krate: Crate, item: RawItem, path: string, n: nat): (r: Result<ApiModule, string>)
    requires Ranked(ws, rank) && ModuleAt(krate, item, path) in rank
    requires item.kind.RawModule? && n <= |item.kind.items|
    ensures r.Ok? ==> Distinct(r.value)
    decreases rank[ModuleAt(krate, item, path)], 2, n
  {
    if n == 0 then Ok(EmptyModule(item, path))
    else
      match PureModule(ws, rank, krate, item, path, n - 1)
      case Err(error) => Err(error)
      case Ok(m) =>
        var id := item.kind.items[n - 1];
        if id !in krate.index then Ok(m)
        else
          var child := krate.index[id];
          assert TaskOk(ws, rank, ModuleAt(krate, item, path));
          assert ChildBelow(rank, krate, krate.index[item.kind.items[n - 1]], path, rank[ModuleAt(krate, item, path)]);
          if DescendsInto(child) then
            match PureModule(ws, rank, krate, child, ModulePath(path, child), |child.kind.items|)
            case Err(error) => Err(error)
            case Ok(inner) => Ok(InsertModule(m, inner))
          else if child.kind.RawUse? && IsIncluded(child) then
            match PureExpand(ws, rank, krate, child, path)
            case Err(error) => Err(error)
            case Ok(expanded) => Ok(InsertUse(m, child, expanded))
          else Ok(InsertPlain(m, child))
  }

  ghost function PureExpand(ws: Workspace, rank: Rank, krate: Crate, item: RawItem, path: string): Result<Option<Expanded>, string>
    requires Ranked(ws, rank) && UseAt(krate, item, path) in rank && item.kind.RawUse?
    decreases rank[UseAt(krate, item, path)], 1, 0
  {
    assert TaskOk(ws, rank, UseAt(krate, item, path));
    var imported := item.kind.imported;
    PureSource(ws, rank, SourceOf(ws, krate, imported, path), imported, path, item.attributes, rank[UseAt(krate, item, path)])
  }

  ghost function PureSource(ws: Workspace, rank: Rank, source: Source, imported: Import, path: string, attributes: seq<string>, bound: nat): Result<Option<Expanded>, string>
    requires Ranked(ws, rank) && SourceBelow(rank, source, imported, path, bound)
    decreases bound, 0, 1
  {
    match source
    case NotExpanded => Ok(None)
    case Failed(error) => Err(error)
    case LocalTo(home, target) => PureLocal(ws, rank, home, target, imported, path, attributes, bound)
    case FromModel(name, segments) =>
      match PureModel(ws, rank, name)
      case Err(error) => Err(error)
      case Ok(model) => Ok(ExpandModelReexport(model.root, imported, path, attributes, segments))
  }

  function MergeChained(nested: Option<Expanded>, krate: Crate, imported: Import, attributes: seq<string>): Option<Expanded> {
    var first := if nested.Some? then nested.value else Expanded([], []);
    var second :=
      if imported.id.Some? && imported.id.value in krate.index then ExpandItem(krate.index[imported.id.value]) else Expanded([], []);
    var merged := Expanded(first.items + second.items, first.modules + second.modules);
    if |merged.items| == 0 && |merged.modules| == 0 then None else Some(ApplyImportAttributes(merged, attributes))
  }

  function ExpandModule(m: ApiModule, isGlob: bool): Expanded {
    if isGlob then Expanded(m.items, m.modules) else Expanded([], [m])
  }

  /** `expand_local_reexport` */
  ghost function PureLocal(ws: Workspace, rank: Rank, krate: Crate, target: RawItem, imported: Import, path: string, attributes: seq<string>, bound: nat): Result<Option<Expanded>, string>
    requires Ranked(ws, rank) && TargetBelow(rank, krate, target, imported, path, bound)
    decreases bound, 0, 0
  {
    match target.kind
    case RawUse(other) =>
      (match PureExpand(ws, rank, krate, target, path)
       case Err(error) => Err(error)
       case Ok(nested) => Ok(MergeChained(nested, krate, other, attributes)))
    case RawModule(items, _) =>
      (match PureModule(ws, rank, krate, target, ChildPath(path, imported.name), |items|)
       case Err(error) => Err(error)
       case Ok(m) => Ok(Some(ApplyImportAttributes(ExpandModule(m, imported.isGlob), attributes))))
    case _ =>
      Ok(if imported.isGlob then None else Some(ApplyImportAttributes(ExpandItem(target), attributes)))
  }

  function RootOf(krate: Crate): Result<RawItem, string> {
    if krate.root !in krate.index then Err("rustdoc JSON root module was missing from the index")
    else if !krate.index[krate.root].kind.RawModule? then Err("rustdoc JSON root item was not a module")
    else Ok(krate.index[krate.root])
  }

  /** Loading a model without a cache. */
  ghost function PureModel(ws: Workspace, rank: Rank, name: string): Result<ApiModel, string>
    requires Ranked(ws, rank) && ModelOf(name) in rank
    decreases rank[ModelOf(name)], 3, 0
  {
    assert TaskOk(ws, rank, ModelOf(name));
    match PureCrate(ws, name)
    case Err(error) => Err(error)
    case Ok(krate) =>
      match RootOf(krate)
      case Err(error) => Err(error)
      case Ok(root) =>
        match PureModule(ws, rank, krate, root, ws.packages[name].name, |root.kind.items|)
        case Err(error) => Err(error)
        case Ok(m) => Ok(ApiModel(ws.packages[name].name, ws.packages[name].version, m))
  }

  // ---------- The result does not depend on the rank ----------

  lemma {:induction false} ModuleRankFree(ws: Workspace, rank: Rank, other: Rank, krate: Crate, item: RawItem, path: string, n: nat)
    requires Ranked(ws, rank) && Ranked(ws, other)
    requires ModuleAt(krate, item, path) in rank && ModuleAt(krate, item, path) in other
    requires item.kind.RawModule? && n <= |item.kind.items|
    ensures PureModule(ws, rank, krate, item, path, n) == PureModule(ws, other, krate, item, path, n)
    decreases rank[ModuleAt(krate, item, path)], 2, n
  {
    if n == 0 {
    } else {
      ModuleRankFree(ws, rank, other, krate, item, path, n - 1);
      var id := item.kind.items[n - 1];
      if id in krate.index {
        var task, child := ModuleAt(krate, item, path), krate.index[id];
        assert TaskOk(ws, rank, task) && TaskOk(ws, other, task);
        assert ChildBelow(rank, krate, krate.index[item.kind.items[n - 1]], path, rank[task]);
        assert ChildBelow(other, krate, krate.index[item.kind.items[n - 1]], path, other[task]);
        if DescendsInto(child) {
          ModuleRankFree(ws, rank, other, krate, child, ModulePath(path, child), |child.kind.items|);
        } else if child.kind.RawUse? && IsIncluded(child) {
          ExpandRankFree(ws, rank, other, krate, child, path);
        }
      }
    }
  }

  lemma {:induction false} ExpandRankFree(ws: Workspace, rank: Rank, other: Rank, krate: Crate, item: RawItem, path: string)
    requires Ranked(ws, rank) && Ranked(ws, other)
    requires UseAt(krate, item, path) in rank && UseAt(krate, item, path) in other && item.kind.RawUse?
    ensures PureExpand(ws, rank, krate, item, path) == PureExpand(ws, other, krate, item, path)
    decreases rank[UseAt(krate, item, path)], 1, 0
  {
    var task, imported := UseAt(krate, item, path), item.kind.imported;
    assert TaskOk(ws, rank, task) && TaskOk(ws, other, task);
    SourceRankFree(ws, rank, other, SourceOf(ws, krate, imported, path), imported, path, item.attributes, rank[task], other[task]);
  }

  lemma {:induction false} SourceRankFree(ws: Workspace, rank: Rank, other: Rank, source: Source, imported: Import, path: string, attributes: seq<string>, bound: nat, bound': nat)
    requires Ranked(ws, rank) && Ranked(ws, other)
    requires SourceBelow(rank, source, imported, path, bound) && SourceBelow(other, source, imported, path, bound')
    ensures PureSource(ws, rank, source, imported, path, attributes, bound) == PureSource(ws, other, source, imported, path, attributes, bound')
    decreases bound, 0, 1
  {
    match source
    case LocalTo(home, target) => LocalRankFree(ws, rank, other, home, target, imported, path, attributes, bound, bound');
    case FromModel(name, _) => ModelRankFree(ws, rank, other, name);
    case _ =>
  }

  lemma {:induction false} LocalRankFree(ws: Workspace, rank: Rank, other: Rank, krate: Crate, target: RawItem, imported: Import, path: string, attributes: seq<string>, bound: nat, bound': nat)
    requires Ranked(ws, rank) && Ranked(ws, other)
    requires TargetBelow(rank, krate, target, imported, path, bound) && TargetBelow(other, krate, target, imported, path, bound')
    ensures PureLocal(ws, rank, krate, target, imported, path, attributes, bound) == PureLocal(ws, other, krate, target, imported, path, attributes, bound')
    decreases bound, 0, 0
  {
    if target.kind.RawUse? {
      ExpandRankFree(ws, rank, other, krate, target, path);
    } else if target.kind.RawModule? {
      ModuleRankFree(ws, rank, other, krate, target, ChildPath(path, imported.name), |target.kind.items|);
    }
  }

  /** Any two ranks give the same cache-free model, so it is a function of the workspace alone. */
  lemma {:induction false} ModelRankFree(ws: Workspace, rank: Rank, other: Rank, name: string)
    requires Ranked(ws, rank) && Ranked(ws, other)
    requires ModelOf(name) in rank && ModelOf(name) in other
    ensures PureModel(ws, rank, name) == PureModel(ws, other, name)
    decreases rank[ModelOf(name)], 3, 0
  {
    assert TaskOk(ws, rank, ModelOf(name)) && TaskOk(ws, other, ModelOf(name));
    var krate := PureCrate(ws, name);
    if krate.Ok? && RootOf(krate.value).Ok? {
      var root := RootOf(krate.value).value;
      ModuleRankFree(ws, rank, other, krate.value, root, ws.packages[name].name, |root.kind.items|);
    }
  }
}
