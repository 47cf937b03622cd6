/**
  What a re-export brings in, read off the import and the item it refers to.

  `Decides` lists which re-exports are expanded and from where; `TargetBrings` and `ModelBrings` say what then
  arrives: a directly re-exported item comes with its inherent impls and its trait impls.
  */
module ExtractionReexports {
  import opened Basics
  import opened ApiData
  import opened ModuleTree
  import opened AttributeText
  import opened Extraction

  // ---------- Import attributes ----------

  /** The same items, each with the attributes of the import in front of its own. */
  predicate Decorated(items: seq<ApiItem>, originals: seq<ApiItem>, attributes: seq<string>) {
    && |items| == |originals|
    && forall i :: 0 <= i < |items| ==> items[i] == originals[i].(attributes := PrependAttributes(originals[i].attributes, attributes))
  }

  predicate DecoratedModules(modules: seq<ApiModule>, originals: seq<ApiModule>, attributes: seq<string>) {
    && |modules| == |originals|
    && forall i :: 0 <= i < |modules| ==> modules[i] == originals[i].(attributes := PrependAttributes(originals[i].attributes, attributes))
  }

  lemma {:induction false} ItemsDecorated(items: seq<ApiItem>, attributes: seq<string>)
    ensures Decorated(ApplyToItems(items, attributes), items, attributes)
  {
    if |items| == 0 {
    } else {
      ItemsDecorated(items[1..], attributes);
    }
  }

  lemma {:induction false} ModulesDecorated(modules: seq<ApiModule>, attributes: seq<string>)
    ensures DecoratedModules(ApplyToModules(modules, attributes), modules, attributes)
  {
    if |modules| == 0 {
    } else {
      ModulesDecorated(modules[1..], attributes);
    }
  }

  lemma ApplyDecorates(e: Expanded, attributes: seq<string>)
    ensures var applied := ApplyImportAttributes(e, attributes);
            Decorated(applied.items, e.items, attributes) && DecoratedModules(applied.modules, e.modules, attributes)
  {
    if |attributes| > 0 {
      ItemsDecorated(e.items, attributes);
      ModulesDecorated(e.modules, attributes);
    }
  }

  // ---------- What a raw target brings ----------

  /** An item with all its impls. */
  function WithImpls(target: RawItem): seq<ApiItem> {
    [target.rendered] + target.inherentImpls + target.traitImpls
  }

  ghost predicate Brings(r: Result<Option<Expanded>, string>, items: seq<ApiItem>, modules: seq<ApiModule>, attributes: seq<string>) {
    r.Ok? && r.value.Some? && Decorated(r.value.value.items, items, attributes) && DecoratedModules(r.value.value.modules, modules, attributes)
  }

  /** A plain item comes with all its impls, unless it is the target of a glob. */
  lemma ItemBrings(ws: Workspace, rank: Rank, krate: Crate, target: RawItem, imported: Import, path: string, attributes: seq<string>, bound: nat)
    requires Ranked(ws, rank) && TargetBelow(rank, krate, target, imported, path, bound)
    requires !target.kind.RawUse? && !target.kind.RawModule?
    ensures var r := PureLocal(ws, rank, krate, target, imported, path, attributes, bound);
            if imported.isGlob then r == Ok(None) else Brings(r, WithImpls(target), [], attributes)
  {
    ApplyDecorates(Expanded(WithImpls(target), []), attributes);
  }

  /** A module is extracted below its new name; a glob takes its contents, otherwise it comes as a whole. */
  lemma ModuleBrings(ws: Workspace, rank: Rank, krate: Crate, target: RawItem, imported: Import, path: string, attributes: seq<string>, bound: nat)
    requires Ranked(ws, rank) && TargetBelow(rank, krate, target, imported, path, bound) && target.kind.RawModule?
    ensures var r := PureLocal(ws, rank, krate, target, imported, path, attributes, bound);
            var m := PureModule(ws, rank, krate, target, path + "::" + imported.name, |target.kind.items|);
            if m.Err? then r == Err(m.error)
            else if imported.isGlob then Brings(r, m.value.items, m.value.modules, attributes)
            else Brings(r, [], [m.value], attributes)
  {
    hide PureModule, Ranked;
    var m := PureModule(ws, rank, krate, target, path + "::" + imported.name, |target.kind.items|);
    if m.Ok? {
      ApplyDecorates(Expanded(m.value.items, m.value.modules), attributes);
      ApplyDecorates(Expanded([], [m.value]), attributes);
    }
  }

  /** A re-export of a re-export brings what that one brings, and then the item that one names with its impls; nothing if both are nothing. */
  lemma ChainBrings(ws: Workspace, rank: Rank, krate: Crate, target: RawItem, imported: Import, path: string, attributes: seq<string>, bound: nat)
    requires Ranked(ws, rank) && TargetBelow(rank, krate, target, imported, path, bound) && target.kind.RawUse?
    ensures var r := PureLocal(ws, rank, krate, target, imported, path, attributes, bound);
            var nested, id := PureExpand(ws, rank, krate, target, path), target.kind.imported.id;
            if nested.Err? then r == Err(nested.error)
            else
              var first := if nested.value.Some? then nested.value.value else Expanded([], []);
              var second := if id.Some? && id.value in krate.index then WithImpls(krate.index[id.value]) else [];
              if first.items == [] && first.modules == [] && second == [] then r == Ok(None)
              else Brings(r, first.items + second, first.modules, attributes)
  {
    hide PureExpand, Ranked;
    var nested, id := PureExpand(ws, rank, krate, target, path), target.kind.imported.id;
    if nested.Ok? {
      var first := if nested.value.Some? then nested.value.value else Expanded([], []);
      var second := if id.Some? && id.value in krate.index then WithImpls(krate.index[id.value]) else [];
      assert first.modules + [] == first.modules;
      ApplyDecorates(Expanded(first.items + second, first.modules), attributes);
      assert first.items + second == [] <==> first.items == [] && second == [];
    }
  }

  // ---------- Which target ----------

  /** The raw item at a path below an item: at each segment the first child of that name. */
  ghost predicate RawLeads(krate: Crate, item: RawItem, path: seq<string>, target: RawItem)
    decreases |path|
  {
    if |path| == 0 then target == item
    else
      && item.kind.RawModule?
      && exists i: nat :: FirstChild(krate, item.kind.items, path[0], i) && RawLeads(krate, krate.index[item.kind.items[i]], path[1..], target)
  }

  /** A re-export has the name it re-exports under, other items their own. */
  predicate IsCalled(krate: Crate, id: Id, name: string) {
    && id in krate.index
    && var item := krate.index[id];
       item.name == Some(name) || (item.name.None? && item.kind.RawUse? && item.kind.imported.name == name)
  }

  ghost predicate FirstChild(krate: Crate, items: seq<Id>, name: string, i: nat) {
    i < |items| && IsCalled(krate, items[i], name) && forall j :: 0 <= j < i ==> !IsCalled(krate, items[j], name)
  }

  lemma {:induction false} FirstRawIsFirst(krate: Crate, items: seq<Id>, name: string)
    ensures var found := FirstRaw(krate, items, name);
            if found.None? then forall i :: 0 <= i < |items| ==> !IsCalled(krate, items[i], name)
            else exists i: nat :: FirstChild(krate, items, name, i) && found.value == krate.index[items[i]]
  {
    if |items| == 0 {
    } else {
      FirstRawIsFirst(krate, items[1..], name);
      var found, rest := FirstRaw(krate, items, name), FirstRaw(krate, items[1..], name);
      if IsCalled(krate, items[0], name) {
        assert FirstChild(krate, items, name, 0);
      } else if rest.Some? {
        var i: nat :| FirstChild(krate, items[1..], name, i) && rest.value == krate.index[items[1..][i]];
        assert forall j :: 0 < j <= i + 1 ==> items[j] == items[1..][j - 1];
        assert FirstChild(krate, items, name, i + 1);
      } else {
        assert forall j :: 0 < j < |items| ==> items[j] == items[1..][j - 1];
      }
    }
  }

  lemma {:induction false} RawLeadsIff(krate: Crate, item: RawItem, path: seq<string>, target: RawItem)
    ensures RawLeads(krate, item, path, target) <==> RawBelow(krate, item, path) == Some(target)
    decreases |path|
  {
    if |path| == 0 || !item.kind.RawModule? {
    } else {
      FirstRawIsFirst(krate, item.kind.items, path[0]);
      var found := FirstRaw(krate, item.kind.items, path[0]);
      if found.Some? {
        var i: nat :| FirstChild(krate, item.kind.items, path[0], i) && found.value == krate.index[item.kind.items[i]];
        RawLeadsIff(krate, found.value, path[1..], target);
        assert forall j: nat :: FirstChild(krate, item.kind.items, path[0], j) ==> j == i;
      }
    }
  }

  /** A single item re-exported under another name than its own. */
  predicate IsRenamed(imported: Import) {
    !imported.isGlob && imported.name != LocalName(imported.source)
  }

  /** The target is local and not shown anywhere else. */
  ghost predicate IsHiddenLocal(ws: Workspace, krate: Crate, imported: Import, path: string, target: RawItem) {
    && imported.id.Some? && imported.id.value in krate.index && target == krate.index[imported.id.value]
    && !ws.reachable(krate, imported.source, imported.isGlob, path)
  }

  /** The target is a path into a crate of the workspace. */
  ghost predicate IsForeign(ws: Workspace, krate: Crate, imported: Import, summary: seq<string>) {
    && imported.id.Some? && imported.id.value !in krate.index && imported.id.value in krate.paths
    && summary == krate.paths[imported.id.value] && |summary| > 0 && summary[0] in ws.packages
  }

  ghost predicate IsRawForeign(foreign: Crate, summary: seq<string>, target: RawItem)
    requires |summary| > 0
  {
    foreign.root in foreign.index && RawLeads(foreign, foreign.index[foreign.root], summary[1..], target)
  }

  /** Which re-exports are expanded, and from which target. */
  lemma Decides(ws: Workspace, krate: Crate, imported: Import, path: string, target: RawItem, summary: seq<string>)
    ensures var source := SourceOf(ws, krate, imported, path);
            && (IsRenamed(imported) ==> source == NotExpanded)
            && (!IsRenamed(imported) && IsHiddenLocal(ws, krate, imported, path, target) ==> source == LocalTo(krate, target))
            && (!IsRenamed(imported) && IsForeign(ws, krate, imported, summary) ==>
                  var foreign := ws.generate(summary[0]);
                  && (foreign.Err? ==> source == Failed(foreign.error))
                  && (foreign.Ok? && IsRawForeign(foreign.value, summary, target) ==> source == LocalTo(foreign.value, target))
                  && (foreign.Ok? && (forall t :: !IsRawForeign(foreign.value, summary, t)) ==> source == FromModel(summary[0], summary[1..])))
            && ((forall t :: !IsHiddenLocal(ws, krate, imported, path, t)) && (forall s :: !IsForeign(ws, krate, imported, s)) ==> source == NotExpanded)
  {
    hide LocalName, RawLeads;
    if imported.id.Some? && imported.id.value in krate.index {
      assert !ws.reachable(krate, imported.source, imported.isGlob, path) ==> IsHiddenLocal(ws, krate, imported, path, krate.index[imported.id.value]);
    }
    if imported.id.Some? && imported.id.value !in krate.index && imported.id.value in krate.paths {
      var s := krate.paths[imported.id.value];
      assert |s| > 0 && s[0] in ws.packages ==> IsForeign(ws, krate, imported, s);
      if |s| > 0 && s[0] in ws.packages && ws.generate(s[0]).Ok? {
        ForeignTarget(ws.generate(s[0]).value, s, target);
      }
    }
  }

  lemma ForeignTarget(foreign: Crate, summary: seq<string>, target: RawItem)
    requires |summary| > 0
    ensures IsRawForeign(foreign, summary, target) <==> FindRawItem(foreign, summary[1..]) == Some(target)
    ensures (forall t :: !IsRawForeign(foreign, summary, t)) <==> FindRawItem(foreign, summary[1..]) == None
  {
    hide RawLeads, RawBelow;
    if foreign.root in foreign.index {
      forall t
        ensures RawLeads(foreign, foreign.index[foreign.root], summary[1..], t) <==> RawBelow(foreign, foreign.index[foreign.root], summary[1..]) == Some(t)
      {
        RawLeadsIff(foreign, foreign.index[foreign.root], summary[1..], t);
      }
      var found := RawBelow(foreign, foreign.index[foreign.root], summary[1..]);
      if found.Some? {
        assert IsRawForeign(foreign, summary, found.value);
      }
    }
  }

  // ---------- What a loaded model brings ----------

  /** An item of that name, or a trait impl for that name. */
  predicate Answers(item: ApiItem, name: string) {
    item.name == name || (item.kind.TraitImpl? && Contains(item.declaration, " for " + name))
  }

  lemma {:induction false} AnswersIff(items: seq<ApiItem>, name: string, x: ApiItem)
    ensures x in NamedOrImplementing(items, name) <==> exists i :: 0 <= i < |items| && Answers(items[i], name) && x == RebaseTraitImplItem(items[i])
  {
    hide RebaseTraitImplItem, Contains;
    if |items| == 0 {
    } else {
      AnswersIff(items[1..], name, x);
      assert forall i :: 0 < i < |items| ==> items[i] == items[1..][i - 1];
      if i :| 0 <= i < |items[1..]| && Answers(items[1..][i], name) && x == RebaseTraitImplItem(items[1..][i]) {
        assert Answers(items[i + 1], name) && x == RebaseTraitImplItem(items[i + 1]);
      }
      if i :| 0 <= i < |items| && Answers(items[i], name) && x == RebaseTraitImplItem(items[i]) {
        assert i > 0 ==> items[i] == items[1..][i - 1];
      }
    }
  }

  /** The declaration of a trait impl, up to its type. */
  function ImplHead(isUnsafe: bool, trait_: string): string {
    (if isUnsafe then "unsafe impl " else "impl ") + trait_
  }

  /** A trait impl that is re-exported is named after its trait and its type; everything else about it stays. */
  lemma TraitImplIsRenamed(item: ApiItem, isUnsafe: bool, trait_: string, selfType: string)
    requires item.declaration == ImplHead(isUnsafe, trait_) + " for " + selfType
    requires Find(item.declaration, " for ") == Some(|ImplHead(isUnsafe, trait_)|)
    requires !StartsWith(trait_, "impl ") && !StartsWith(trait_, "unsafe ")
    ensures RebaseTraitImplItem(item) == item.(name := LocalName(trait_) + "_" + item.name)
  {
    hide LocalName, Find, TrimStartMatches, StartsWith;
    Unprefixed(trait_);
    var head := ImplHead(isUnsafe, trait_);
    assert item.declaration[..|head|] == head;
  }

  lemma Unprefixed(trait_: string)
    requires !StartsWith(trait_, "impl ") && !StartsWith(trait_, "unsafe ")
    ensures TrimStartMatches(TrimStartMatches("impl " + trait_, "unsafe "), "impl ") == trait_
    ensures TrimStartMatches(TrimStartMatches("unsafe impl " + trait_, "unsafe "), "impl ") == trait_
  {
    var a := "impl " + trait_;
    assert a[0] == 'i' && (|a| >= 7 ==> a[..7][0] == 'i');
    assert TrimStartMatches(a, "unsafe ") == a;
    assert a[..5] == "impl " && a[5..] == trait_;
    assert TrimStartMatches(trait_, "impl ") == trait_;
    var b := "unsafe impl " + trait_;
    assert b[..7] == "unsafe " && b[7..] == a;
  }

  /** A glob takes the contents of the module found; otherwise the module comes as a whole, or the items that answer to the last segment. */
  lemma ModelBrings(root: ApiModule, imported: Import, current: string, attributes: seq<string>, segments: seq<string>)
    ensures var r, found := ExpandModelReexport(root, imported, current, attributes, segments), FindModule(root, segments);
            if found.Some? && imported.isGlob then Brings(Ok(r), found.value.items, Rebase(found.value, current).modules, attributes)
            else if found.Some? then Brings(Ok(r), [], [Rebase(found.value, current + "::" + imported.name)], attributes)
            else if imported.isGlob || |segments| == 0 || FindItem(root, segments).None? then r == None
            else
              var named := NamedOrImplementing(root.items, segments[|segments| - 1]);
              Brings(Ok(r), if named == [] then [FindItem(root, segments).value] else named, [], attributes)
  {
    hide FindModule, FindItem, Rebase, NamedOrImplementing;
    var found := FindModule(root, segments);
    if found.Some? {
      ApplyDecorates(Expanded(found.value.items, Rebase(found.value, current).modules), attributes);
      ApplyDecorates(Expanded([], [Rebase(found.value, current + "::" + imported.name)]), attributes);
    } else if |segments| > 0 && FindItem(root, segments).Some? {
      var named := NamedOrImplementing(root.items, segments[|segments| - 1]);
      ApplyDecorates(Expanded(if named == [] then [FindItem(root, segments).value] else named, []), attributes);
    }
  }

  // ---------- Whole re-exports ----------

  /** The import refers to this raw item of this crate, and is to be expanded. */
  ghost predicate Targets(ws: Workspace, krate: Crate, imported: Import, path: string, home: Crate, target: RawItem) {
    || (home == krate && IsHiddenLocal(ws, krate, imported, path, target))
    || (exists summary :: IsForeign(ws, krate, imported, summary) && ws.generate(summary[0]) == Ok(home) && IsRawForeign(home, summary, target))
  }

  lemma TargetIsSource(ws: Workspace, krate: Crate, imported: Import, path: string, home: Crate, target: RawItem)
    requires Targets(ws, krate, imported, path, home, target) && !IsRenamed(imported)
    ensures SourceOf(ws, krate, imported, path) == LocalTo(home, target)
  {
    hide SourceOf, RawLeads, IsRenamed;
    if home == krate && IsHiddenLocal(ws, krate, imported, path, target) {
      Decides(ws, krate, imported, path, target, []);
    } else {
      var summary :| IsForeign(ws, krate, imported, summary) && ws.generate(summary[0]) == Ok(home) && IsRawForeign(home, summary, target);
      Decides(ws, krate, imported, path, target, summary);
    }
  }

  /** A re-export that is not renamed and whose target is a plain item brings the item, its inherent impls and its trait impls. */
  lemma ReexportBringsItem(ws: Workspace, rank: Rank, krate: Crate, use: RawItem, path: string, home: Crate, target: RawItem)
    requires Ranked(ws, rank) && UseAt(krate, use, path) in rank && use.kind.RawUse?
    requires Targets(ws, krate, use.kind.imported, path, home, target) && !IsRenamed(use.kind.imported)
    requires !target.kind.RawUse? && !target.kind.RawModule?
    ensures var r := PureExpand(ws, rank, krate, use, path);
            if use.kind.imported.isGlob then r == Ok(None) else Brings(r, WithImpls(target), [], use.attributes)
  {
    var imported, bound := use.kind.imported, rank[UseAt(krate, use, path)];
    TargetIsSource(ws, krate, imported, path, home, target);
    assert TaskOk(ws, rank, UseAt(krate, use, path));
    hide SourceOf, Targets, Brings, WithImpls, IsRenamed, PureLocal;
    ItemBrings(ws, rank, home, target, imported, path, use.attributes, bound);
  }

  /** If the target is a module or another re-export it brings what that brings. */
  lemma ReexportFollowsTarget(ws: Workspace, rank: Rank, krate: Crate, use: RawItem, path: string, home: Crate, target: RawItem)
    requires Ranked(ws, rank) && UseAt(krate, use, path) in rank && use.kind.RawUse?
    requires Targets(ws, krate, use.kind.imported, path, home, target) && !IsRenamed(use.kind.imported)
    ensures var imported, bound := use.kind.imported, rank[UseAt(krate, use, path)];
            && TargetBelow(rank, home, target, imported, path, bound)
            && PureExpand(ws, rank, krate, use, path) == PureLocal(ws, rank, home, target, imported, path, use.attributes, bound)
  {
    TargetIsSource(ws, krate, use.kind.imported, path, home, target);
    assert TaskOk(ws, rank, UseAt(krate, use, path));
    hide SourceOf, Targets, IsRenamed, PureLocal;
  }

  /** A path into a workspace crate at which there is no raw item is looked up in the model of that crate. */
  lemma ReexportBringsModel(ws: Workspace, rank: Rank, krate: Crate, use: RawItem, path: string, summary: seq<string>)
    requires Ranked(ws, rank) && UseAt(krate, use, path) in rank && use.kind.RawUse?
    requires IsForeign(ws, krate, use.kind.imported, summary) && !IsRenamed(use.kind.imported)
    ensures var r, foreign := PureExpand(ws, rank, krate, use, path), ws.generate(summary[0]);
            && (foreign.Err? ==> r == Err(foreign.error))
            && (foreign.Ok? && (forall t :: !IsRawForeign(foreign.value, summary, t)) ==>
                  && ModelOf(summary[0]) in rank
                  && var model := PureModel(ws, rank, summary[0]);
                     if model.Err? then r == Err(model.error)
                     else r == Ok(ExpandModelReexport(model.value.root, use.kind.imported, path, use.attributes, summary[1..])))
  {
    Decides(ws, krate, use.kind.imported, path, use, summary);
    assert TaskOk(ws, rank, UseAt(krate, use, path));
    hide SourceOf, IsRawForeign, IsForeign, IsRenamed, PureModel, ExpandModelReexport;
  }

  /** Every other re-export is listed as it stands. */
  lemma ReexportStays(ws: Workspace, rank: Rank, krate: Crate, use: RawItem, path: string)
    requires Ranked(ws, rank) && UseAt(krate, use, path) in rank && use.kind.RawUse?
    requires var imported := use.kind.imported;
             || IsRenamed(imported)
             || ((forall t :: !IsHiddenLocal(ws, krate, imported, path, t)) && (forall s :: !IsForeign(ws, krate, imported, s)))
    ensures PureExpand(ws, rank, krate, use, path) == Ok(None)
  {
    Decides(ws, krate, use.kind.imported, path, use, []);
    hide SourceOf, IsRenamed;
  }
}
