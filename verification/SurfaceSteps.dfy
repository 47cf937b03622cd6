/**
  What one item contributes to a walk of the public surface, and that routes of such steps are the rules.

  `ItemStep` says what one item contributes: nothing, a leaf, the items of another module walked under a longer
  prefix, or the items of another module walked from "" and then joined. A route is the list of item ids
  followed from a module to a leaf; following a route needs no rank and no map.
  */
module SurfaceSteps {
  import opened Basics
  import opened SurfaceRules

  function ItemKindStr(inner: ItemEnum): Option<string> {
    match inner
    case Struct => Some("struct")
    case Enum => Some("enum")
    case Function => Some("fn")
    case TypeAlias => Some("type alias")
    case Constant => Some("const")
    case Trait => Some("trait")
    case Static => Some("static")
    case Macro => Some("macro")
    case ProcMacro => Some("proc macro")
    case Union => Some("union")
    case _ => None
  }

  function ItemKindDisplay(kind: ItemKind): Option<string> {
    match kind
    case StructKind => Some("struct")
    case EnumKind => Some("enum")
    case FunctionKind => Some("fn")
    case TypeAliasKind => Some("type alias")
    case ConstantKind => Some("const")
    case TraitKind => Some("trait")
    case StaticKind => Some("static")
    case MacroKind => Some("macro")
    case ProcAttributeKind | ProcDeriveKind => Some("proc macro")
    case UnionKind => Some("union")
    case _ => None
  }

  // ---------- Paths ----------

  /** A glob adds no segment; everything else adds one. */
  function At(prefix: string, segment: Option<string>): string {
    if segment.None? then prefix else JoinPath(prefix, segment.value)
  }

  /** `str::split("::")`: leftmost separators first, and never an empty list. */
  function Split(s: string, current: string := ""): (parts: seq<string>)
    ensures |parts| >= 1
    decreases |s|
  {
    if |s| == 0 then [current]
    else if |s| >= 2 && s[..2] == "::" then [current] + Split(s[2..])
    else Split(s[1..], current + [s[0]])
  }

  lemma JoinPathInjective(p: string, a: string, b: string)
    requires JoinPath(p, a) == JoinPath(p, b)
    ensures a == b
  {
    assert JoinPath(p, a)[|JoinPath(p, a)| - |a|..] == a;
    assert JoinPath(p, b)[|JoinPath(p, b)| - |b|..] == b;
  }

  lemma JoinPathAssociative(p: string, q: string, r: string)
    requires q != ""
    ensures JoinPath(JoinPath(p, q), r) == JoinPath(p, JoinPath(q, r))
  {
    assert p + "::" + q + "::" + r == p + "::" + (q + "::" + r);
  }

  // ---------- Module lookup by path ----------

  /** The items of the first listed module with that name; same-named items of other kinds are skipped. */
  function FirstModule(krate: Crate, items: seq<Id>, segment: string): (found: Option<seq<Id>>)
    ensures found.None? ==> forall j :: 0 <= j < |items| ==> !IsModuleNamed(krate, items[j], segment)
    ensures found.Some? ==>
              exists i :: && 0 <= i < |items| && IsModuleNamed(krate, items[i], segment)
                          && found.value == krate.index[items[i]].inner.items
                          && forall j :: 0 <= j < i ==> !IsModuleNamed(krate, items[j], segment)
  {
    if |items| == 0 then None
    else if IsModuleNamed(krate, items[0], segment) then Some(krate.index[items[0]].inner.items)
    else
      var rest := FirstModule(krate, items[1..], segment);
      assert rest.Some? ==>
          exists i :: && 0 <= i < |items| && IsModuleNamed(krate, items[i], segment)
                      && rest.value == krate.index[items[i]].inner.items
                      && forall j :: 0 <= j < i ==> !IsModuleNamed(krate, items[j], segment) by {
        if rest.Some? {
          var i :| && 0 <= i < |items[1..]| && IsModuleNamed(krate, items[1..][i], segment)
                   && rest.value == krate.index[items[1..][i]].inner.items
                   && forall j :: 0 <= j < i ==> !IsModuleNamed(krate, items[1..][j], segment);
          assert items[i + 1] == items[1..][i];
          assert forall j :: 0 < j < i + 1 ==> items[j] == items[1..][j - 1];
        }
      }
      rest
  }

  function Descend(krate: Crate, items: seq<Id>, path: seq<string>): Option<seq<Id>>
    decreases |path|
  {
    if |path| == 0 then Some(items)
    else
      match FirstModule(krate, items, path[0])
      case None => None
      case Some(inner) => Descend(krate, inner, path[1..])
  }

  /** Where a module path leads from the crate root, going through the first match at every segment. */
  function ModuleItems(krate: Crate, path: seq<string>): Option<seq<Id>> {
    if krate.root in krate.index && krate.index[krate.root].inner.Module?
    then Descend(krate, krate.index[krate.root].inner.items, path)
    else None
  }

  method FindModuleItems(krate: Crate, path: seq<string>) returns (found: Option<seq<Id>>)
    ensures found == ModuleItems(krate, path)
  {
    if krate.root !in krate.index || !krate.index[krate.root].inner.Module? {
      return None;
    }
    var current := krate.index[krate.root].inner.items;
    if |path| == 0 {
      return Some(current);
    }
    for i := 0 to |path|
      invariant ModuleItems(krate, path) == Descend(krate, current, path[i..])
      invariant i < |path|
    {
      var hit := false;
      var level := current;
      for j := 0 to |level|
        invariant !hit && current == level
        invariant FirstModule(krate, level, path[i]) == FirstModule(krate, level[j..], path[i])
      {
        var id := level[j];
        assert level[j..][1..] == level[j + 1..];
        if id in krate.index && krate.index[id].name == Some(path[i]) && krate.index[id].inner.Module? {
          assert path[i..][1..] == path[i + 1..];
          if i == |path| - 1 {
            return Some(krate.index[id].inner.items);
          }
          current := krate.index[id].inner.items;
          hit := true;
          break;
        }
      }
      if !hit {
        return None;
      }
    }
    return None;
  }

  // ---------- What one item contributes ----------

  datatype Step =
    | Nothing
    | Leaf(segment: Option<string>, kind: string)
    | Inline(krate: Crate, items: seq<Id>, segment: Option<string>)
    | Import(krate: Crate, items: seq<Id>, segment: Option<string>)

  function LeafStep(segment: Option<string>, kind: Option<string>): Step {
    if kind.Some? then Leaf(segment, kind.value) else Nothing
  }

  /** `collect_item` */
  function LocalStep(krate: Crate, item: Item, segment: Option<string>): Step {
    if item.inner.Module? then Inline(krate, item.inner.items, segment)
    else LeafStep(segment, ItemKindStr(item.inner))
  }

  function ImportStep(deps: Deps, path: seq<string>, segment: Option<string>): Step
    requires |path| > 0
  {
    if path[0] in deps && ModuleItems(deps[path[0]], path[1..]).Some?
    then Import(deps[path[0]], ModuleItems(deps[path[0]], path[1..]).value, segment)
    else Nothing
  }

  /** `collect_external`. A module summary with an empty path makes the source index out of bounds. */
  function ExternalStep(deps: Deps, summary: Summary, segment: Option<string>): Step {
    if summary.kind.ModuleKind?
    then if |summary.path| > 0 then ImportStep(deps, summary.path, segment) else Nothing
    else LeafStep(segment, ItemKindDisplay(summary.kind))
  }

  /** `resolve_glob`: a source whose first segment names a known crate never looks at the target id. */
  function GlobStep(deps: Deps, krate: Crate, use: ItemEnum): Step
    requires use.Use?
  {
    var parts := Split(use.source);
    if parts[0] in deps then ImportStep(deps, parts, None)
    else if use.id.None? then Nothing
    else if use.id.value in krate.index then
      var target := krate.index[use.id.value];
      if target.inner.Module? then Inline(krate, target.inner.items, None) else Nothing
    else if use.id.value in krate.paths then ExternalStep(deps, krate.paths[use.id.value], None)
    else Nothing
  }

  function NamedUseStep(deps: Deps, krate: Crate, use: ItemEnum): Step
    requires use.Use?
  {
    if use.id.None? then Nothing
    else if use.id.value in krate.index then LocalStep(krate, krate.index[use.id.value], Some(use.name))
    else if use.id.value in krate.paths then ExternalStep(deps, krate.paths[use.id.value], Some(use.name))
    else Nothing
  }

  function ItemStep(deps: Deps, krate: Crate, id: Id): Step {
    if id !in krate.index || !krate.index[id].isPublic then Nothing
    else
      var item := krate.index[id];
      match item.inner
      case Module(items) => Inline(krate, items, Some(NameOf(item)))
      case Use(_, _, _, isGlob) => if isGlob then GlobStep(deps, krate, item.inner) else NamedUseStep(deps, krate, item.inner)
      case Impl => Nothing
      case _ => LeafStep(Some(NameOf(item)), ItemKindStr(item.inner))
  }

  // ---------- Routes: the declarative rules ----------

  type Entry = (string, string)

  /** The entry a route derives, if it is a route at all. */
  function Follow(deps: Deps, krate: Crate, items: seq<Id>, prefix: string, route: Route): Option<Entry>
    decreases |route|
  {
    if |route| == 0 || route[0] !in items then None
    else
      match ItemStep(deps, krate, route[0])
      case Nothing => None
      case Leaf(segment, kind) => if |route| == 1 then Some((At(prefix, segment), kind)) else None
      case Inline(k, its, segment) => Follow(deps, k, its, At(prefix, segment), route[1..])
      case Import(k, its, segment) =>
        match Follow(deps, k, its, "", route[1..])
        case None => None
        case Some(entry) => Some((JoinPath(At(prefix, segment), entry.0), entry.1))
  }

  ghost predicate Derivable(deps: Deps, krate: Crate, items: seq<Id>, prefix: string, path: string, kind: string) {
    exists route :: Follow(deps, krate, items, prefix, route) == Some((path, kind))
  }

  // ---------- Routes are the rules ----------

  lemma NoSeparatorAppend(s: string, c: char, d: char)
    requires NoSeparator(s + [c]) && !(c == ':' && d == ':')
    ensures NoSeparator(s + [c] + [d])
  {
    var t := s + [c] + [d];
    forall i | 0 <= i < |t| - 1
      ensures !(t[i] == ':' && t[i + 1] == ':')
    {
      assert i < |s| ==> (s + [c])[i] == t[i] && (s + [c])[i + 1] == t[i + 1];
    }
  }

  lemma JoinCons(part: string, parts: seq<string>)
    requires |parts| > 0
    ensures Join([part] + parts, "::") == part + "::" + Join(parts, "::")
  {
    assert ([part] + parts)[1..] == parts;
  }

  lemma SplitsCons(part: string, rest: string, parts: seq<string>)
    requires NoSeparator(part + ":") && SplitsInto(rest, parts)
    ensures SplitsInto(part + "::" + rest, [part] + parts)
  {
    JoinCons(part, parts);
    var all := [part] + parts;
    forall i | 0 <= i < |all| - 1
      ensures NoSeparator(all[i] + ":")
    {
      assert i > 0 ==> all[i] == parts[i - 1];
    }
  }

  predicate SeparatorAt(s: string, n: nat) {
    n + 1 < |s| && s[n] == ':' && s[n + 1] == ':'
  }

  lemma AtSeparator(s: string, current: string)
    requires SeparatorAt(s, 0)
    ensures s[..2] == "::" && [s[0]] == ":" && current + s == current + "::" + s[2..]
  {
    assert s == "::" + s[2..];
  }

  lemma {:induction false} SplitSplits(s: string, current: string)
    requires NoSeparator(current) && (|s| > 0 ==> NoSeparator(current + [s[0]]))
    ensures SplitsInto(current + s, Split(s, current))
    decreases |s|, 0
  {
    hide SplitsInto, NoSeparator;
    if |s| == 0 {
      LastPart(current);
      assert current + s == current;
    } else if SeparatorAt(s, 0) {
      AtSeparator(s, current);
      SplitRest(s[2..]);
      SplitsCons(current, s[2..], Split(s[2..]));
    } else {
      assert |s| >= 2 ==> s[..2] == [s[0], s[1]];
      if |s| >= 2 {
        NoSeparatorAppend(current, s[0], s[1]);
      }
      SplitSplits(s[1..], current + [s[0]]);
      assert current + [s[0]] + s[1..] == current + s;
    }
  }

  lemma LastPart(current: string)
    requires NoSeparator(current)
    ensures SplitsInto(current, [current])
  {
  }

  lemma {:induction false} SplitRest(s: string)
    ensures SplitsInto(s, Split(s))
    decreases |s|, 1
  {
    assert "" + s == s;
    SplitSplits(s, "");
  }

  /** A split text starts with what stands before its first separator. */
  lemma LeadingPart(s: string, p: seq<string>, n: nat)
    requires SplitsInto(s, p)
    ensures |p[0]| <= |s| && p[0] == s[..|p[0]|]
    ensures SeparatorAt(s, n) ==> |p[0]| <= n
    ensures if |p| == 1 then p[0] == s else SeparatorAt(s, |p[0]|) && s[|p[0]| + 2..] == Join(p[1..], "::")
  {
    if |p| > 1 {
      var marked := p[0] + ":";
      assert s == p[0] + "::" + Join(p[1..], "::");
      assert NoSeparator(p[0] + ":");
      assert forall i :: 0 <= i < |marked| ==> marked[i] == s[i];
    }
  }

  lemma {:induction false} SplitUnique(s: string, p: seq<string>, q: seq<string>)
    requires SplitsInto(s, p) && SplitsInto(s, q)
    ensures p == q
    decreases |p|
  {
    LeadingPart(s, p, |q[0]|);
    LeadingPart(s, q, |p[0]|);
    if |p| > 1 && |q| > 1 {
      assert forall i :: 0 <= i < |p[1..]| ==> p[1..][i] == p[i + 1];
      assert forall i :: 0 <= i < |q[1..]| ==> q[1..][i] == q[i + 1];
      SplitUnique(s[|p[0]| + 2..], p[1..], q[1..]);
      assert p == [p[0]] + p[1..] && q == [q[0]] + q[1..];
    }
  }

  lemma SplitIff(s: string, parts: seq<string>)
    ensures SplitsInto(s, parts) <==> parts == Split(s)
  {
    SplitRest(s);
    if SplitsInto(s, parts) {
      SplitUnique(s, parts, Split(s));
    }
  }

  lemma {:induction false} LeadsIff(krate: Crate, items: seq<Id>, path: seq<string>, inner: seq<Id>)
    ensures Leads(krate, items, path, inner) <==> Descend(krate, items, path) == Some(inner)
    decreases |path|
  {
    if |path| == 0 {
    } else {
      var found := FirstModule(krate, items, path[0]);
      if found.Some? {
        var i: nat :| FirstNamed(krate, items, path[0], i) && found.value == krate.index[items[i]].inner.items;
        LeadsIff(krate, found.value, path[1..], inner);
        assert forall j: nat :: FirstNamed(krate, items, path[0], j) ==> j == i;
      }
    }
  }

  lemma ModuleAtIff(deps: Deps, path: seq<string>, home: Crate, inner: seq<Id>)
    ensures ModuleAt(deps, path, home, inner) <==>
            |path| > 0 && path[0] in deps && home == deps[path[0]] && ModuleItems(home, path[1..]) == Some(inner)
  {
    if |path| > 0 && home.root in home.index && home.index[home.root].inner.Module? {
      LeadsIff(home, home.index[home.root].inner.items, path[1..], inner);
    }
  }

  /** Items and their summaries have the same words. */
  lemma WordIff(inner: ItemEnum, kind: ItemKind, word: string)
    ensures HasWord(inner, word) <==> ItemKindStr(inner) == Some(word)
    ensures SummaryHasWord(kind, word) <==> ItemKindDisplay(kind) == Some(word)
  {
    if ItemKindDisplay(kind) == Some(word) {
      var like := match kind
        case StructKind => Struct case EnumKind => Enum case FunctionKind => Function case TypeAliasKind => TypeAlias
        case ConstantKind => Constant case TraitKind => Trait case StaticKind => Static case MacroKind => Macro
        case ProcAttributeKind | ProcDeriveKind => ProcMacro case UnionKind => Union case _ => OtherItem;
      assert Summarizes(kind, like) && HasWord(like, word);
    }
  }

  /** What the source of a glob decides. */
  lemma GlobSource(deps: Deps, item: Item)
    ensures LooksUpTarget(deps, item) <==> IsGlob(item) && item.inner.id.Some? && Split(item.inner.source)[0] !in deps
    ensures IsGlob(item) ==>
              forall home, inner :: (exists parts :: SplitsInto(item.inner.source, parts) && ModuleAt(deps, parts, home, inner))
                                    <==> ModuleAt(deps, Split(item.inner.source), home, inner)
  {
    hide SplitsInto, Split, ModuleAt;
    if IsGlob(item) {
      forall parts
        ensures SplitsInto(item.inner.source, parts) <==> parts == Split(item.inner.source)
      {
        SplitIff(item.inner.source, parts);
      }
    }
  }

  lemma ImportStepIff(deps: Deps, path: seq<string>, segment: Option<string>, home: Crate, inner: seq<Id>)
    requires |path| > 0
    ensures ModuleAt(deps, path, home, inner) <==> ImportStep(deps, path, segment) == Import(home, inner, segment)
    ensures ModuleAt(deps, path, home, inner) ==> path[0] in deps
    ensures var step := ImportStep(deps, path, segment); step.Nothing? || (step.Import? && step.segment == segment)
  {
    hide ModuleAt, ModuleItems;
    ModuleAtIff(deps, path, home, inner);
  }

  lemma StepEnds(deps: Deps, krate: Crate, id: Id, prefix: string, path: string, kind: string)
    ensures var step := ItemStep(deps, krate, id);
            Ends(deps, krate, id, prefix, path, kind) <==> step.Leaf? && path == At(prefix, step.segment) && kind == step.kind
  {
    hide HasWord, SummaryHasWord, ItemKindStr, ItemKindDisplay, JoinPath, ModuleItems, LooksUpTarget, Split;
    if IsPublicItem(krate, id) {
      var item := krate.index[id];
      WordIff(item.inner, OtherKind, kind);
      NoWord(item.inner, OtherKind, kind);
      if item.inner.Use? && item.inner.id.Some? {
        if item.inner.id.value in krate.index {
          WordIff(krate.index[item.inner.id.value].inner, OtherKind, kind);
          NoWord(krate.index[item.inner.id.value].inner, OtherKind, kind);
        } else if item.inner.id.value in krate.paths {
          WordIff(item.inner, krate.paths[item.inner.id.value].kind, kind);
          NoWord(item.inner, krate.paths[item.inner.id.value].kind, kind);
        }
      }
      GlobSource(deps, item);
    }
  }

  /** Modules, re-exports and impls have no word. */
  lemma NoWord(inner: ItemEnum, kind: ItemKind, word: string)
    ensures inner.Module? || inner.Use? || inner.Impl? ==> !HasWord(inner, word)
    ensures kind.ModuleKind? ==> !SummaryHasWord(kind, word)
  {
  }

  lemma StepOpens(deps: Deps, krate: Crate, id: Id, prefix: string, inner: seq<Id>, at: string)
    ensures var step := ItemStep(deps, krate, id);
            Opens(deps, krate, id, prefix, inner, at) <==> step.Inline? && step.krate == krate && step.items == inner && at == At(prefix, step.segment)
  {
    hide ItemKindStr, ItemKindDisplay, JoinPath, ModuleItems, LooksUpTarget, Split;
    if IsPublicItem(krate, id) {
      GlobSource(deps, krate.index[id]);
    }
  }

  lemma StepImports(deps: Deps, krate: Crate, id: Id, prefix: string, home: Crate, inner: seq<Id>, at: string)
    ensures var step := ItemStep(deps, krate, id);
            Imports(deps, krate, id, prefix, home, inner, at) <==> step.Import? && step.krate == home && step.items == inner && at == At(prefix, step.segment)
  {
    hide ItemKindStr, ItemKindDisplay, JoinPath, ModuleItems, LooksUpTarget, Split, ModuleAt, ImportStep;
    if IsPublicItem(krate, id) {
      var item := krate.index[id];
      GlobSource(deps, item);
      if IsGlob(item) {
        ImportStepIff(deps, Split(item.inner.source), None, home, inner);
      }
      if item.inner.Use? && item.inner.id.Some? && item.inner.id.value !in krate.index && item.inner.id.value in krate.paths {
        var path := krate.paths[item.inner.id.value].path;
        if |path| > 0 {
          ImportStepIff(deps, path, if IsGlob(item) then None else Some(item.inner.name), home, inner);
        } else {
          ModuleAtIff(deps, path, home, inner);
        }
      }
    }
  }

  /** A route shows what the rules say it shows: following it finds the same. */
  lemma {:induction false} ShowsIff(deps: Deps, krate: Crate, items: seq<Id>, prefix: string, route: Route, path: string, kind: string)
    ensures Shows(deps, krate, items, prefix, route, path, kind) <==> Follow(deps, krate, items, prefix, route) == Some((path, kind))
    decreases |route|
  {
    hide Ends, Opens, Imports, ItemStep, At, JoinPath;
    if |route| > 0 && route[0] in items {
      var step := ItemStep(deps, krate, route[0]);
      StepEnds(deps, krate, route[0], prefix, path, kind);
      forall inner, at
        ensures Opens(deps, krate, route[0], prefix, inner, at) <==> step.Inline? && step.krate == krate && step.items == inner && at == At(prefix, step.segment)
      {
        StepOpens(deps, krate, route[0], prefix, inner, at);
      }
      forall home, inner, at
        ensures Imports(deps, krate, route[0], prefix, home, inner, at) <==> step.Import? && step.krate == home && step.items == inner && at == At(prefix, step.segment)
      {
        StepImports(deps, krate, route[0], prefix, home, inner, at);
      }
      InlineIsLocal(deps, krate, route[0]);
      if step.Inline? {
        ShowsIff(deps, krate, step.items, At(prefix, step.segment), route[1..], path, kind);
      } else if step.Import? {
        forall sub
          ensures Shows(deps, step.krate, step.items, "", route[1..], sub, kind) <==> Follow(deps, step.krate, step.items, "", route[1..]) == Some((sub, kind))
        {
          ShowsIff(deps, step.krate, step.items, "", route[1..], sub, kind);
        }
      }
    }
  }

  lemma InlineIsLocal(deps: Deps, krate: Crate, id: Id)
    ensures ItemStep(deps, krate, id).Inline? ==> ItemStep(deps, krate, id).krate == krate
  {
  }

  /** The derivable entries are those the rules put on the surface. */
  lemma DerivableIff(deps: Deps, krate: Crate, items: seq<Id>, prefix: string, path: string, kind: string)
    ensures Derivable(deps, krate, items, prefix, path, kind) <==> Shown(deps, krate, items, prefix, path, kind)
  {
    hide Follow, Shows;
    if Derivable(deps, krate, items, prefix, path, kind) {
      var route :| Follow(deps, krate, items, prefix, route) == Some((path, kind));
      ShowsIff(deps, krate, items, prefix, route, path, kind);
    }
    if Shown(deps, krate, items, prefix, path, kind) {
      var route :| Shows(deps, krate, items, prefix, route, path, kind);
      ShowsIff(deps, krate, items, prefix, route, path, kind);
    }
  }
}
