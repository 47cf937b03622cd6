/**
  The crates that `check_api_superset` reads, and the rules by which an item is on the public surface of one.

  The rules speak of the fields of the crates only. An item that ends a route puts a kind at a path; an item that
  opens another module passes on what that module shows, either below a longer prefix or, for a module of
  another crate, as it looks from that module and joined afterwards.
  */
module SurfaceRules {
  import opened Basics

  type Id = nat

  datatype ItemEnum =
    | Module(items: seq<Id>)
    | Use(source: string, name: string, id: Option<Id>, isGlob: bool)
    | Impl
    | Struct | Enum | Function | TypeAlias | Constant | Trait | Static | Macro | ProcMacro | Union
    | OtherItem

  datatype Item = Item(name: Option<string>, isPublic: bool, inner: ItemEnum)

  datatype ItemKind =
    | ModuleKind | StructKind | EnumKind | FunctionKind | TypeAliasKind | ConstantKind | TraitKind
    | StaticKind | MacroKind | ProcAttributeKind | ProcDeriveKind | UnionKind | OtherKind

  datatype Summary = Summary(path: seq<string>, kind: ItemKind)
  datatype Crate = Crate(root: Id, index: map<Id, Item>, paths: map<Id, Summary>)
  type Deps = map<string, Crate>

  // ---------- Paths ----------

  function JoinPath(prefix: string, name: string): (path: string) {
    if prefix == "" then name else prefix + "::" + name
  }

  /** `parts` are what stands between the separators of `s`, which are found from the left. */
  ghost predicate SplitsInto(s: string, parts: seq<string>) {
    && |parts| > 0 && Join(parts, "::") == s
    && (forall i :: 0 <= i < |parts| - 1 ==> NoSeparator(parts[i] + ":"))
    && NoSeparator(parts[|parts| - 1])
  }

  predicate NoSeparator(s: string) {
    forall i :: 0 <= i < |s| - 1 ==> !(s[i] == ':' && s[i + 1] == ':')
  }

  predicate IsModuleNamed(krate: Crate, id: Id, segment: string) {
    id in krate.index && krate.index[id].name == Some(segment) && krate.index[id].inner.Module?
  }

  /** The first listed module of that name. */
  ghost predicate FirstNamed(krate: Crate, items: seq<Id>, segment: string, i: nat) {
    i < |items| && IsModuleNamed(krate, items[i], segment) && forall j :: 0 <= j < i ==> !IsModuleNamed(krate, items[j], segment)
  }

  /** From `items`, each segment entering the first module of its name, one gets to `inner`. */
  ghost predicate Leads(krate: Crate, items: seq<Id>, path: seq<string>, inner: seq<Id>)
    decreases |path|
  {
    if |path| == 0 then inner == items
    else exists i: nat :: FirstNamed(krate, items, path[0], i) && Leads(krate, krate.index[items[i]].inner.items, path[1..], inner)
  }

  /** The module at a path whose first segment names a known crate. */
  ghost predicate ModuleAt(deps: Deps, path: seq<string>, home: Crate, inner: seq<Id>) {
    && |path| > 0 && path[0] in deps && home == deps[path[0]]
    && home.root in home.index && home.index[home.root].inner.Module?
    && Leads(home, home.index[home.root].inner.items, path[1..], inner)
  }

  // ---------- Kinds ----------

  /** The word for an item; modules, re-exports, impls and others have none. */
  predicate HasWord(inner: ItemEnum, word: string) {
    || (inner.Struct? && word == "struct") || (inner.Enum? && word == "enum") || (inner.Function? && word == "fn")
    || (inner.TypeAlias? && word == "type alias") || (inner.Constant? && word == "const") || (inner.Trait? && word == "trait")
    || (inner.Static? && word == "static") || (inner.Macro? && word == "macro") || (inner.ProcMacro? && word == "proc macro")
    || (inner.Union? && word == "union")
  }

  /** A summary of kind `kind` stands for an item like `inner`. */
  predicate Summarizes(kind: ItemKind, inner: ItemEnum) {
    match kind
    case ModuleKind => inner.Module?
    case StructKind => inner.Struct?
    case EnumKind => inner.Enum?
    case FunctionKind => inner.Function?
    case TypeAliasKind => inner.TypeAlias?
    case ConstantKind => inner.Constant?
    case TraitKind => inner.Trait?
    case StaticKind => inner.Static?
    case MacroKind => inner.Macro?
    case ProcAttributeKind | ProcDeriveKind => inner.ProcMacro?
    case UnionKind => inner.Union?
    case OtherKind => inner.OtherItem?
  }

  /** An item that is only summarized has the word of the items it stands for. */
  ghost predicate SummaryHasWord(kind: ItemKind, word: string) {
    exists inner :: Summarizes(kind, inner) && HasWord(inner, word)
  }

  // ---------- The rules ----------

  function NameOf(item: Item): string {
    if item.name.Some? then item.name.value else ""
  }

  /** Only public items of the crate count. */
  predicate IsPublicItem(krate: Crate, id: Id) {
    id in krate.index && krate.index[id].isPublic
  }

  /** An item that is neither a module nor a re-export shows itself, under its own name. */
  predicate ShowsItself(item: Item, prefix: string, path: string, kind: string) {
    !item.inner.Use? && HasWord(item.inner, kind) && path == JoinPath(prefix, NameOf(item))
  }

  predicate IsNamedUse(item: Item) {
    item.inner.Use? && !item.inner.isGlob && item.inner.id.Some?
  }

  predicate IsGlob(item: Item) {
    item.inner.Use? && item.inner.isGlob
  }

  /** A named re-export shows its target under the name of the re-export, whatever the target's name and visibility. */
  ghost predicate ShowsTarget(krate: Crate, item: Item, prefix: string, path: string, kind: string) {
    && IsNamedUse(item) && path == JoinPath(prefix, item.inner.name)
    && (if item.inner.id.value in krate.index then HasWord(krate.index[item.inner.id.value].inner, kind)
        else item.inner.id.value in krate.paths && SummaryHasWord(krate.paths[item.inner.id.value].kind, kind))
  }

  /** The source of a glob does not start in a known crate, so its target is looked up. */
  ghost predicate LooksUpTarget(deps: Deps, item: Item) {
    IsGlob(item) && item.inner.id.Some? && exists parts :: SplitsInto(item.inner.source, parts) && parts[0] !in deps
  }

  /** A glob whose target is summarized as something else than a module shows it at the prefix itself. */
  ghost predicate ShowsAtPrefix(deps: Deps, krate: Crate, item: Item, prefix: string, path: string, kind: string) {
    && LooksUpTarget(deps, item) && path == prefix
    && item.inner.id.value !in krate.index && item.inner.id.value in krate.paths
    && SummaryHasWord(krate.paths[item.inner.id.value].kind, kind)
  }

  ghost predicate Ends(deps: Deps, krate: Crate, id: Id, prefix: string, path: string, kind: string) {
    && IsPublicItem(krate, id)
    && (|| ShowsItself(krate.index[id], prefix, path, kind)
        || ShowsTarget(krate, krate.index[id], prefix, path, kind)
        || ShowsAtPrefix(deps, krate, krate.index[id], prefix, path, kind))
  }

  /** The items of a module of this crate are walked below `at`: a module under its name, a re-exported one under the new name. */
  ghost predicate Opens(deps: Deps, krate: Crate, id: Id, prefix: string, inner: seq<Id>, at: string) {
    && IsPublicItem(krate, id)
    && var item := krate.index[id];
       || (item.inner.Module? && inner == item.inner.items && at == JoinPath(prefix, NameOf(item)))
       || (IsNamedUse(item) && IsModuleWith(krate, item.inner.id.value, inner) && at == JoinPath(prefix, item.inner.name))
       || (LooksUpTarget(deps, item) && IsModuleWith(krate, item.inner.id.value, inner) && at == prefix)
  }

  predicate IsModuleWith(krate: Crate, id: Id, inner: seq<Id>) {
    id in krate.index && krate.index[id].inner.Module? && inner == krate.index[id].inner.items
  }

  /** What a module of another crate shows by itself is joined to `at`. */
  ghost predicate Imports(deps: Deps, krate: Crate, id: Id, prefix: string, home: Crate, inner: seq<Id>, at: string) {
    && IsPublicItem(krate, id)
    && var item := krate.index[id];
       || (IsNamedUse(item) && IsForeignModule(deps, krate, item.inner.id.value, home, inner) && at == JoinPath(prefix, item.inner.name))
       || (LooksUpTarget(deps, item) && IsForeignModule(deps, krate, item.inner.id.value, home, inner) && at == prefix)
       || (IsGlob(item) && at == prefix && exists parts :: SplitsInto(item.inner.source, parts) && ModuleAt(deps, parts, home, inner))
  }

  ghost predicate IsForeignModule(deps: Deps, krate: Crate, id: Id, home: Crate, inner: seq<Id>) {
    id !in krate.index && id in krate.paths && krate.paths[id].kind.ModuleKind? && ModuleAt(deps, krate.paths[id].path, home, inner)
  }

  type Route = seq<Id>

  /** Followed from a module with these items, the route shows `kind` at `path`. */
  ghost predicate Shows(deps: Deps, krate: Crate, items: seq<Id>, prefix: string, route: Route, path: string, kind: string)
    decreases |route|
  {
    && |route| > 0 && route[0] in items
    && (|| (|route| == 1 && Ends(deps, krate, route[0], prefix, path, kind))
        || (exists inner, at :: Opens(deps, krate, route[0], prefix, inner, at) && Shows(deps, krate, inner, at, route[1..], path, kind))
        || (exists home, inner, at, sub :: && Imports(deps, krate, route[0], prefix, home, inner, at)
                                           && Shows(deps, home, inner, "", route[1..], sub, kind) && path == JoinPath(at, sub)))
  }

  /** Some route from a module with these items shows `kind` at `path`. */
  ghost predicate Shown(deps: Deps, krate: Crate, items: seq<Id>, prefix: string, path: string, kind: string) {
    exists route :: Shows(deps, krate, items, prefix, route, path, kind)
  }

  function RootItems(krate: Crate): seq<Id>
    requires krate.root in krate.index
  {
    if krate.index[krate.root].inner.Module? then krate.index[krate.root].inner.items else []
  }

  ghost predicate OnSurface(deps: Deps, krate: Crate, path: string, kind: string)
    requires krate.root in krate.index
  {
    Shown(deps, krate, RootItems(krate), "", path, kind)
  }

  ghost predicate IsOffered(deps: Deps, krate: Crate, path: string)
    requires krate.root in krate.index
  {
    exists kind :: OnSurface(deps, krate, path, kind)
  }
}
