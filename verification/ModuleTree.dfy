/**
  Module trees of the API model: lookup by path segments, rebasing onto a new path, insertion without
  duplicates, and prepending of import attributes (`extract.rs`, `model.rs`).
  */
module ModuleTree {
  import opened Basics
  import opened ApiData

  // ---------- Paths ----------

  /** The index of the last "::", if any. */
  function LastSeparator(path: string): (at: Option<nat>)
    ensures at.Some? ==> at.value + 2 <= |path| && path[at.value] == ':' && path[at.value + 1] == ':'
    ensures at.Some? ==> forall i :: at.value < i < |path| - 1 ==> !(path[i] == ':' && path[i + 1] == ':')
    ensures at.None? ==> forall i :: 0 <= i < |path| - 1 ==> !(path[i] == ':' && path[i + 1] == ':')
  {
    if |path| < 2 then None
    else if path[|path| - 2] == ':' && path[|path| - 1] == ':' then Some(|path| - 2)
    else
      var at := LastSeparator(path[..|path| - 1]);
      assert forall i :: 0 <= i < |path| - 1 ==> path[..|path| - 1][i] == path[i];
      at
  }

  /** `local_name`, and `last_path_segment` of a path. */
  function LocalName(path: string): string {
    var at := LastSeparator(path);
    if at.None? then path else path[at.value + 2..]
  }

  function ChildPath(parent: string, name: string): string {
    parent + "::" + name
  }

  /** A name survives being appended to a path exactly when it holds no separator and does not start with a colon. */
  lemma LocalNameOfChild(parent: string, name: string)
    requires LastSeparator(name).None?
    ensures LocalName(ChildPath(parent, name)) == name <==> !(|name| > 0 && name[0] == ':')
  {
    var path := ChildPath(parent, name);
    var at := LastSeparator(path);
    assert path[|parent|] == ':' && path[|parent| + 1] == ':';
    assert at.Some? && at.value >= |parent|;
    assert forall i :: 0 <= i < |name| ==> path[|parent| + 2 + i] == name[i];
    assert path[|parent| + 2..] == name;
    if |name| > 0 && name[0] == ':' {
      assert path[|parent| + 1] == ':' && path[|parent| + 2] == ':';
      assert |LocalName(path)| < |name|;
    }
  }

  lemma LocalNameHasNoSeparator(path: string)
    ensures LastSeparator(LocalName(path)).None?
  {
    var at := LastSeparator(path);
    if at.Some? {
      var name := LocalName(path);
      assert forall i :: 0 <= i < |name| ==> name[i] == path[at.value + 2 + i];
    }
  }

  // ---------- Rebasing ----------

  function Rebase(m: ApiModule, path: string): (r: ApiModule)
    ensures r.path == path && r.items == m.items && r.attributes == m.attributes && r.docComments == m.docComments
    ensures |r.modules| == |m.modules|
    decreases m
  {
    m.(path := path, modules := RebaseAll(m.modules, path))
  }

  function RebaseAll(ms: seq<ApiModule>, parent: string): (rs: seq<ApiModule>)
    ensures |rs| == |ms|
    ensures forall i :: 0 <= i < |ms| ==> rs[i] == Rebase(ms[i], ChildPath(parent, LocalName(ms[i].path)))
    decreases ms
  {
    if |ms| == 0 then [] else [Rebase(ms[0], ChildPath(parent, LocalName(ms[0].path)))] + RebaseAll(ms[1..], parent)
  }

  /** The descendant reached by child positions. */
  function Descendant(m: ApiModule, positions: seq<nat>): Option<ApiModule>
    decreases |positions|
  {
    if |positions| == 0 then Some(m)
    else if positions[0] >= |m.modules| then None
    else Descendant(m.modules[positions[0]], positions[1..])
  }

  /** `path`, followed by the local names met on the way down. */
  function PathBelow(m: ApiModule, positions: seq<nat>, path: string): string
    requires Descendant(m, positions).Some?
    decreases |positions|
  {
    if |positions| == 0 then path
    else
      var child := m.modules[positions[0]];
      PathBelow(child, positions[1..], ChildPath(path, LocalName(child.path)))
  }

  /** Every descendant keeps its place and contents and gets the new path followed by the old local names. */
  lemma {:induction false} RebaseDescendant(m: ApiModule, path: string, positions: seq<nat>)
    ensures var before, after := Descendant(m, positions), Descendant(Rebase(m, path), positions);
            && (before.Some? <==> after.Some?)
            && (before.Some? ==>
                  && after.value.path == PathBelow(m, positions, path)
                  && after.value.items == before.value.items
                  && after.value.attributes == before.value.attributes
                  && after.value.docComments == before.value.docComments
                  && |after.value.modules| == |before.value.modules|)
    decreases |positions|
  {
    if |positions| > 0 && positions[0] < |m.modules| {
      var child := m.modules[positions[0]];
      RebaseDescendant(child, ChildPath(path, LocalName(child.path)), positions[1..]);
    }
  }

  /** No module below the root has a local name that starts with a colon. */
  predicate CleanNames(m: ApiModule)
    decreases m
  {
    CleanAll(m.modules)
  }

  predicate CleanAll(ms: seq<ApiModule>)
    decreases ms
  {
    |ms| > 0 ==> !StartsWithColon(LocalName(ms[0].path)) && CleanNames(ms[0]) && CleanAll(ms[1..])
  }

  predicate StartsWithColon(name: string) {
    |name| > 0 && name[0] == ':'
  }

  /** Rebasing twice is rebasing once to the last path, exactly when the names below the root are clean. */
  lemma {:induction false} RebaseTwiceIff(m: ApiModule, p: string, q: string)
    ensures Rebase(Rebase(m, p), q) == Rebase(m, q) <==> CleanNames(m)
    decreases m
  {
    RebaseAllTwiceIff(m.modules, p, q);
  }

  lemma {:induction false} RebaseAllTwiceIff(ms: seq<ApiModule>, p: string, q: string)
    ensures RebaseAll(RebaseAll(ms, p), q) == RebaseAll(ms, q) <==> CleanAll(ms)
    decreases ms
  {
    if |ms| == 0 {
    } else {
      var name := LocalName(ms[0].path);
      LocalNameHasNoSeparator(ms[0].path);
      LocalNameOfChild(p, name);
      var name' := LocalName(ChildPath(p, name));
      RebaseAllTwiceIff(ms[1..], p, q);
      RebaseTwiceIff(ms[0], ChildPath(p, name), ChildPath(q, name));
      var once := RebaseAll(ms, p);
      assert once[0].path == ChildPath(p, name) && once[1..] == RebaseAll(ms[1..], p);
      assert RebaseAll(once, q)[1..] == RebaseAll(once[1..], q);
      assert RebaseAll(ms, q)[1..] == RebaseAll(ms[1..], q);
      RebaseSplits(once, ms, q);
      if name' != name {
        assert RebaseAll(once, q)[0].path == ChildPath(q, name');
        assert ChildPath(q, name')[|q| + 2..] == name' && ChildPath(q, name)[|q| + 2..] == name;
      }
    }
  }

  lemma RebaseSplits(xs: seq<ApiModule>, ys: seq<ApiModule>, q: string)
    requires |xs| > 0 && |ys| > 0
    ensures RebaseAll(xs, q) == RebaseAll(ys, q) <==>
            RebaseAll(xs, q)[0] == RebaseAll(ys, q)[0] && RebaseAll(xs, q)[1..] == RebaseAll(ys, q)[1..]
  {
    var a, b := RebaseAll(xs, q), RebaseAll(ys, q);
    assert a == [a[0]] + a[1..] && b == [b[0]] + b[1..];
  }

  // ---------- Lookup ----------

  /** The first child with a name. */
  function FirstNamed(ms: seq<ApiModule>, name: string): (found: Option<nat>)
    ensures found.Some? ==> found.value < |ms|
  {
    if |ms| == 0 then None
    else if LocalName(ms[0].path) == name then Some(0)
    else
      var rest := FirstNamed(ms[1..], name);
      if rest.None? then None else Some(rest.value + 1)
  }

  predicate NamedAt(ms: seq<ApiModule>, name: string, i: nat) {
    i < |ms| && LocalName(ms[i].path) == name
  }

  lemma {:induction false} FirstNamedIsFirst(ms: seq<ApiModule>, name: string, i: nat)
    ensures FirstNamed(ms, name).Some? ==> NamedAt(ms, name, FirstNamed(ms, name).value)
    ensures NamedAt(ms, name, i) ==> FirstNamed(ms, name).Some? && FirstNamed(ms, name).value <= i
  {
    hide LocalName;
    if |ms| == 0 {
    } else {
      FirstNamedIsFirst(ms[1..], name, if i > 0 then i - 1 else 0);
    }
  }

  function FindModule(m: ApiModule, segments: seq<string>): Option<ApiModule>
    decreases |segments|
  {
    if |segments| == 0 then Some(m)
    else
      var tail, child := segments[1..], FirstNamed(m.modules, segments[0]);
      if child.Some? && |tail| == 0 then Some(m.modules[child.value])
      else if child.Some? && FindModule(m.modules[child.value], tail).Some? then FindModule(m.modules[child.value], tail)
      else if |tail| == 0 then None
      else FindModule(m, tail)
  }

  /** Going down through the first child with each name. */
  function Exact(m: ApiModule, segments: seq<string>): Option<ApiModule>
    decreases |segments|
  {
    if |segments| == 0 then Some(m)
    else
      var child := FirstNamed(m.modules, segments[0]);
      if child.None? then None else Exact(m.modules[child.value], segments[1..])
  }

  /** The segments kept by a mask. */
  function Select(segments: seq<string>, mask: seq<bool>): seq<string>
    requires |mask| == |segments|
  {
    if |segments| == 0 then []
    else if mask[0] then [segments[0]] + Select(segments[1..], mask[1..])
    else Select(segments[1..], mask[1..])
  }

  lemma SelectTail(segments: seq<string>, mask: seq<bool>)
    requires |mask| == |segments| > 0
    ensures mask[0] ==> |Select(segments, mask)| > 0 && Select(segments, mask)[0] == segments[0] && Select(segments, mask)[1..] == Select(segments[1..], mask[1..])
    ensures !mask[0] ==> Select(segments, mask) == Select(segments[1..], mask[1..])
  {
  }

  ghost predicate Reaches(m: ApiModule, segments: seq<string>, mask: seq<bool>, target: ApiModule) {
    && |mask| == |segments|
    && (|mask| > 0 ==> mask[|mask| - 1])
    && Exact(m, Select(segments, mask)) == Some(target)
  }

  /** An exact path is always preferred. */
  lemma {:induction false} FindModuleExact(m: ApiModule, segments: seq<string>)
    requires Exact(m, segments).Some?
    ensures FindModule(m, segments) == Exact(m, segments)
    decreases |segments|
  {
    if |segments| == 0 {
    } else {
      FindModuleExact(m.modules[FirstNamed(m.modules, segments[0]).value], segments[1..]);
    }
  }

  /** Whenever a subsequence of the segments that ends in the last one leads anywhere, something is found. */
  lemma {:induction false} FindModuleComplete(m: ApiModule, segments: seq<string>, mask: seq<bool>, target: ApiModule)
    requires Reaches(m, segments, mask, target)
    ensures FindModule(m, segments).Some?
    decreases |segments|
  {
    if |segments| == 0 {
    } else {
      if mask[0] {
        var child := FirstNamed(m.modules, segments[0]).value;
        assert Select(segments, mask)[1..] == Select(segments[1..], mask[1..]);
        FindModuleComplete(m.modules[child], segments[1..], mask[1..], target);
      } else {
        FindModuleComplete(m, segments[1..], mask[1..], target);
      }
    }
  }

  /** One selection goes before another if it keeps the first segment on which they differ. */
  predicate Before(a: seq<bool>, b: seq<bool>) {
    |a| == |b| && |a| > 0 && (if a[0] == b[0] then Before(a[1..], b[1..]) else a[0])
  }

  /** The segments along which the module was found. */
  function Chosen(m: ApiModule, segments: seq<string>): (mask: seq<bool>)
    requires FindModule(m, segments).Some?
    ensures |mask| == |segments|
    decreases |segments|
  {
    if |segments| == 0 then []
    else
      var tail, child := segments[1..], FirstNamed(m.modules, segments[0]);
      if child.Some? && FindModule(m.modules[child.value], tail).Some? then [true] + Chosen(m.modules[child.value], tail)
      else [false] + Chosen(m, tail)
  }

  lemma ReachesEnter(m: ApiModule, segments: seq<string>, rest: seq<bool>, target: ApiModule)
    requires |segments| > 0 && FirstNamed(m.modules, segments[0]).Some?
    requires Reaches(m.modules[FirstNamed(m.modules, segments[0]).value], segments[1..], rest, target)
    ensures Reaches(m, segments, [true] + rest, target)
  {
    hide FirstNamed;
    var mask := [true] + rest;
    assert mask[1..] == rest;
    SelectTail(segments, mask);
  }

  lemma ReachesSkip(m: ApiModule, segments: seq<string>, rest: seq<bool>, target: ApiModule)
    requires |segments| > 1 && Reaches(m, segments[1..], rest, target)
    ensures Reaches(m, segments, [false] + rest, target)
  {
    var mask := [false] + rest;
    assert mask[1..] == rest;
    SelectTail(segments, mask);
  }

  /** Whatever is found is reached by a subsequence of the segments that ends in the last one. */
  lemma {:induction false} FindModuleReaches(m: ApiModule, segments: seq<string>)
    requires FindModule(m, segments).Some?
    ensures Reaches(m, segments, Chosen(m, segments), FindModule(m, segments).value)
    decreases |segments|
  {
    if |segments| == 0 {
      return;
    }
    hide Reaches, FirstNamed;
    var tail, child := segments[1..], FirstNamed(m.modules, segments[0]);
    if child.Some? && FindModule(m.modules[child.value], tail).Some? {
      FindModuleReaches(m.modules[child.value], tail);
      ReachesEnter(m, segments, Chosen(m.modules[child.value], tail), FindModule(m, segments).value);
    } else {
      FindModuleReaches(m, tail);
      ReachesSkip(m, segments, Chosen(m, tail), FindModule(m, segments).value);
    }
  }

  /** Among all selections that lead anywhere, the one chosen goes before all others. */
  lemma {:induction false} FindModulePrefers(m: ApiModule, segments: seq<string>, other: seq<bool>, target: ApiModule)
    requires Reaches(m, segments, other, target)
    ensures FindModule(m, segments).Some?
    ensures other == Chosen(m, segments) || Before(Chosen(m, segments), other)
    decreases |segments|
  {
    FindModuleComplete(m, segments, other, target);
    if |segments| == 0 {
    } else {
      ReachesTail(m, segments, other, target);
      hide Reaches, Exact, Select;
      var child, mask := FirstNamed(m.modules, segments[0]), Chosen(m, segments);
      var home := if other[0] then m.modules[child.value] else m;
      if mask[0] == other[0] {
        FindModulePrefers(home, segments[1..], other[1..], target);
        assert mask[1..] == Chosen(home, segments[1..]);
        assert mask == [mask[0]] + mask[1..] && other == [other[0]] + other[1..];
      }
    }
  }

  /** A selection goes on from the child it enters, or stays and drops a segment. */
  lemma ReachesTail(m: ApiModule, segments: seq<string>, mask: seq<bool>, target: ApiModule)
    requires |segments| > 0 && Reaches(m, segments, mask, target)
    ensures !mask[0] ==> Reaches(m, segments[1..], mask[1..], target)
    ensures mask[0] ==>
              && FirstNamed(m.modules, segments[0]).Some?
              && var child := m.modules[FirstNamed(m.modules, segments[0]).value];
                 Reaches(child, segments[1..], mask[1..], target) && FindModule(child, segments[1..]).Some?
  {
    if mask[0] {
      assert Select(segments, mask)[1..] == Select(segments[1..], mask[1..]);
      FindModuleComplete(m.modules[FirstNamed(m.modules, segments[0]).value], segments[1..], mask[1..], target);
    }
  }

  function FirstItem(items: seq<ApiItem>, name: string): (found: Option<ApiItem>)
    ensures found.Some? ==> found.value in items && found.value.name == name
    ensures found.None? ==> forall j :: 0 <= j < |items| ==> items[j].name != name
  {
    if |items| == 0 then None else if items[0].name == name then Some(items[0]) else FirstItem(items[1..], name)
  }

  function FindItem(m: ApiModule, segments: seq<string>): Option<ApiItem>
    decreases |segments|
  {
    if |segments| == 0 then None
    else if |segments| == 1 then FirstItem(m.items, segments[0])
    else
      var tail, child := segments[1..], FirstNamed(m.modules, segments[0]);
      if child.Some? && FindItem(m.modules[child.value], tail).Some? then FindItem(m.modules[child.value], tail)
      else FindItem(m, tail)
  }

  /** Some of the segments before the last lead to a module whose first item with the last name is `item`. */
  ghost predicate ReachesItem(m: ApiModule, segments: seq<string>, mask: seq<bool>, item: ApiItem) {
    && |mask| + 1 == |segments|
    && var home := Exact(m, Select(segments[..|mask|], mask));
       home.Some? && FirstItem(home.value.items, segments[|mask|]) == Some(item)
  }

  lemma {:induction false} FindItemReaches(m: ApiModule, segments: seq<string>) returns (mask: seq<bool>)
    requires FindItem(m, segments).Some?
    ensures ReachesItem(m, segments, mask, FindItem(m, segments).value)
    decreases |segments|
  {
    if |segments| == 1 {
      mask := [];
    } else {
      var tail, child := segments[1..], FirstNamed(m.modules, segments[0]);
      if child.Some? && FindItem(m.modules[child.value], tail).Some? {
        var rest := FindItemReaches(m.modules[child.value], tail);
        mask := [true] + rest;
        SelectNext(segments, mask, rest);
      } else {
        var rest := FindItemReaches(m, tail);
        mask := [false] + rest;
        SelectNext(segments, mask, rest);
      }
    }
  }

  lemma {:induction false} FindItemComplete(m: ApiModule, segments: seq<string>, mask: seq<bool>, item: ApiItem)
    requires ReachesItem(m, segments, mask, item)
    ensures FindItem(m, segments).Some?
    decreases |segments|
  {
    if |segments| > 1 {
      SelectNext(segments, mask, mask[1..]);
      if mask[0] {
        FindItemComplete(m.modules[FirstNamed(m.modules, segments[0]).value], segments[1..], mask[1..], item);
      } else {
        FindItemComplete(m, segments[1..], mask[1..], item);
      }
    }
  }

  lemma SelectNext(segments: seq<string>, mask: seq<bool>, rest: seq<bool>)
    requires |mask| + 1 == |segments| && |mask| > 0 && mask[1..] == rest
    ensures var chosen, tail := Select(segments[..|mask|], mask), Select(segments[1..][..|rest|], rest);
            chosen == if mask[0] then [segments[0]] + tail else tail
    ensures mask[0] ==> Select(segments[..|mask|], mask)[1..] == Select(segments[1..][..|rest|], rest)
    ensures segments[1..][|rest|] == segments[|mask|]
  {
    assert segments[..|mask|][1..] == segments[1..][..|rest|];
  }

  // ---------- Insertion without duplicates ----------

  const UNIT := "\U{1f}"

  function MemberKey(m: ApiMember): string {
    m.name + UNIT + Join(m.docComments, UNIT) + UNIT + Join(m.attributes, UNIT) + UNIT + m.declaration
  }

  function MemberKeys(ms: seq<ApiMember>): seq<string> {
    if |ms| == 0 then [] else [MemberKey(ms[0])] + MemberKeys(ms[1..])
  }

  /** `item_dedup_key`: inherent impls are compared with everything they print, other items by declaration. */
  function DedupKey(item: ApiItem): string {
    if item.kind.InherentImpl? then
      (if item.sourceId.Some? then item.sourceId.value else "no-source-id") + UNIT +
      item.declaration + "\U{1d}" + Join(item.docComments, UNIT) + "\U{1d}" + Join(item.attributes, UNIT) + "\U{1d}" +
      Join(MemberKeys(item.members), "\U{1e}")
    else item.declaration
  }

  function Keys(items: seq<ApiItem>): set<string> {
    set i | 0 <= i < |items| :: DedupKey(items[i])
  }

  function Paths(modules: seq<ApiModule>): set<string> {
    set i | 0 <= i < |modules| :: modules[i].path
  }

  /** No two items share a key and no two child modules share a path. */
  ghost predicate Distinct(m: ApiModule) {
    && (forall i, j :: 0 <= i < j < |m.items| ==> DedupKey(m.items[i]) != DedupKey(m.items[j]))
    && (forall i, j :: 0 <= i < j < |m.modules| ==> m.modules[i].path != m.modules[j].path)
  }

  function InsertItem(m: ApiModule, item: ApiItem): (r: ApiModule)
    ensures Distinct(m) ==> Distinct(r)
    ensures DedupKey(item) in Keys(r.items) && m.items <= r.items
  {
    if DedupKey(item) in Keys(m.items) then m
    else
      var r := m.(items := m.items + [item]);
      assert r.items[|m.items|] == item;
      assert Distinct(m) ==> Distinct(r) by {
        if Distinct(m) {
          forall i, j | 0 <= i < j < |r.items|
            ensures DedupKey(r.items[i]) != DedupKey(r.items[j])
          {
            assert j == |m.items| ==> DedupKey(m.items[i]) in Keys(m.items);
          }
        }
      }
      r
  }

  function InsertModule(m: ApiModule, child: ApiModule): (r: ApiModule)
    ensures Distinct(m) ==> Distinct(r)
    ensures child.path in Paths(r.modules) && m.modules <= r.modules
  {
    if child.path in Paths(m.modules) then m
    else
      var r := m.(modules := m.modules + [child]);
      assert r.modules[|m.modules|] == child;
      assert Distinct(m) ==> Distinct(r) by {
        if Distinct(m) {
          forall i, j | 0 <= i < j < |r.modules|
            ensures r.modules[i].path != r.modules[j].path
          {
            assert j == |m.modules| ==> m.modules[i].path in Paths(m.modules);
          }
        }
      }
      r
  }

  function InsertItems(m: ApiModule, items: seq<ApiItem>): (r: ApiModule)
    ensures Distinct(m) ==> Distinct(r)
  {
    if |items| == 0 then m else InsertItem(InsertItems(m, items[..|items| - 1]), items[|items| - 1])
  }

  function InsertModules(m: ApiModule, modules: seq<ApiModule>): (r: ApiModule)
    ensures Distinct(m) ==> Distinct(r)
  {
    if |modules| == 0 then m else InsertModule(InsertModules(m, modules[..|modules| - 1]), modules[|modules| - 1])
  }

  /** The module that `extract_module` builds, with the two sets of what it already holds. */
  class Builder {
    var built: ApiModule
    var seenDeclarations: set<string>
    var seenModules: set<string>

    ghost predicate Valid()
      reads this
    {
      && Distinct(built)
      && seenDeclarations == Keys(built.items)
      && seenModules == Paths(built.modules)
    }

    constructor (path: string, docComments: seq<string>, attributes: seq<string>)
      ensures Valid() && built == ApiModule(path, docComments, attributes, [], [])
    {
      built := ApiModule(path, docComments, attributes, [], []);
      seenDeclarations, seenModules := {}, {};
    }

    method AddItem(item: ApiItem)
      requires Valid()
      modifies this
      ensures Valid() && built == InsertItem(old(built), item)
    {
      KeysGrow(built.items, item);
      if DedupKey(item) !in seenDeclarations {
        seenDeclarations := seenDeclarations + {DedupKey(item)};
        built := built.(items := built.items + [item]);
      }
    }

    method AddModule(child: ApiModule)
      requires Valid()
      modifies this
      ensures Valid() && built == InsertModule(old(built), child)
    {
      PathsGrow(built.modules, child);
      if child.path !in seenModules {
        seenModules := seenModules + {child.path};
        built := built.(modules := built.modules + [child]);
      }
    }

    method AddExpanded(items: seq<ApiItem>, modules: seq<ApiModule>)
      requires Valid()
      modifies this
      ensures Valid() && built == InsertModules(InsertItems(old(built), items), modules)
    {
      for i := 0 to |items|
        invariant Valid() && built == InsertItems(old(built), items[..i])
      {
        AddItem(items[i]);
        assert items[..i + 1][..i] == items[..i];
      }
      assert items[..|items|] == items;
      ghost var withItems := built;
      for i := 0 to |modules|
        invariant Valid() && built == InsertModules(withItems, modules[..i])
      {
        AddModule(modules[i]);
        assert modules[..i + 1][..i] == modules[..i];
      }
      assert modules[..|modules|] == modules;
    }
  }

  lemma KeysGrow(items: seq<ApiItem>, item: ApiItem)
    ensures Keys(items + [item]) == Keys(items) + {DedupKey(item)}
  {
    hide DedupKey;
    assert (items + [item])[|items|] == item;
    forall i | 0 <= i < |items|
      ensures (items + [item])[i] == items[i]
    {
    }
  }

  lemma PathsGrow(modules: seq<ApiModule>, child: ApiModule)
    ensures Paths(modules + [child]) == Paths(modules) + {child.path}
  {
    assert (modules + [child])[|modules|] == child;
    forall i | 0 <= i < |modules|
      ensures (modules + [child])[i] == modules[i]
    {
    }
  }

  /** The items that no earlier one has the key of, in order. */
  ghost function Firsts(items: seq<ApiItem>): seq<ApiItem> {
    if |items| == 0 then []
    else
      var n := |items| - 1;
      if IsFirst(items, n) then Firsts(items[..n]) + [items[n]] else Firsts(items[..n])
  }

  ghost predicate IsFirst(items: seq<ApiItem>, n: nat)
    requires n < |items|
  {
    forall j :: 0 <= j < n ==> DedupKey(items[j]) != DedupKey(items[n])
  }

  /** A run of insertions keeps exactly the first item of every key. */
  lemma {:induction false} InsertItemsKeepsFirsts(m: ApiModule, items: seq<ApiItem>)
    requires m.items == []
    ensures InsertItems(m, items).items == Firsts(items)
    ensures Keys(Firsts(items)) == Keys(items)
  {
    if |items| == 0 {
      return;
    }
    hide DedupKey, InsertItems, Keys, Firsts;
    var before, last := items[..|items| - 1], items[|items| - 1];
    InsertItemsKeepsFirsts(m, before);
    assert items == before + [last];
    InsertsGrow(m, before, last);
    FirstsGrow(before, last);
    KeysGrow(before, last);
    KeysGrow(Firsts(before), last);
  }

  lemma InsertsGrow(m: ApiModule, before: seq<ApiItem>, last: ApiItem)
    ensures var r := InsertItems(m, before);
            InsertItems(m, before + [last]).items == if DedupKey(last) in Keys(r.items) then r.items else r.items + [last]
  {
    hide DedupKey, Keys;
    assert (before + [last])[..|before|] == before;
  }

  lemma FirstsGrow(before: seq<ApiItem>, last: ApiItem)
    ensures Firsts(before + [last]) == if DedupKey(last) in Keys(before) then Firsts(before) else Firsts(before) + [last]
  {
    hide DedupKey;
    var items := before + [last];
    assert items[..|before|] == before;
    assert forall j :: 0 <= j < |before| ==> items[j] == before[j];
    assert IsFirst(items, |before|) <==> DedupKey(last) !in Keys(before);
  }

  // ---------- Import attributes ----------

  /** `prepend_attributes` as a function: the prefix, then what is new, once each, in order. */
  function PrependAttributes(attributes: seq<string>, prefix: seq<string>): seq<string> {
    if |prefix| == 0 then attributes else AppendNew(prefix, attributes)
  }

  function AppendNew(combined: seq<string>, attributes: seq<string>): seq<string>
    decreases |attributes|
  {
    if |attributes| == 0 then combined
    else if attributes[0] in combined then AppendNew(combined, attributes[1..])
    else AppendNew(combined + [attributes[0]], attributes[1..])
  }

  method Prepend(attributes: seq<string>, prefix: seq<string>) returns (combined: seq<string>)
    ensures combined == PrependAttributes(attributes, prefix)
  {
    if |prefix| == 0 {
      return attributes;
    }
    combined := prefix;
    for i := 0 to |attributes|
      invariant AppendNew(prefix, attributes) == AppendNew(combined, attributes[i..])
    {
      assert attributes[i..][1..] == attributes[i + 1..];
      if attributes[i] !in combined {
        combined := combined + [attributes[i]];
      }
    }
  }

  /** What appending keeps: the start, the union of the texts, and no text twice after the start. */
  lemma {:induction false} AppendNewKeeps(combined: seq<string>, attributes: seq<string>, n: nat)
    requires n <= |combined|
    requires forall i, j :: 0 <= i < j < |combined| && n <= j ==> combined[i] != combined[j]
    ensures var all := AppendNew(combined, attributes);
            && combined <= all
            && (forall text :: text in all <==> text in combined || text in attributes)
            && (forall i, j :: 0 <= i < j < |all| && n <= j ==> all[i] != all[j])
    decreases |attributes|
  {
    if |attributes| == 0 {
    } else {
      var next := if attributes[0] in combined then combined else combined + [attributes[0]];
      AppendNewKeeps(next, attributes[1..], n);
    }
  }

  /** Texts already there are skipped. */
  lemma {:induction false} AppendKnown(combined: seq<string>, known: seq<string>)
    requires forall i :: 0 <= i < |known| ==> known[i] in combined
    ensures AppendNew(combined, known) == combined
    decreases |known|
  {
    if |known| == 0 {
    } else {
      AppendKnown(combined, known[1..]);
    }
  }

  lemma {:induction false} AppendFresh(combined: seq<string>, novel: seq<string>)
    requires forall i :: 0 <= i < |novel| ==> novel[i] !in combined
    requires forall i, j :: 0 <= i < j < |novel| ==> novel[i] != novel[j]
    ensures AppendNew(combined, novel) == combined + novel
    decreases |novel|
  {
    if |novel| > 0 {
      AppendFresh(combined + [novel[0]], novel[1..]);
      assert combined + [novel[0]] + novel[1..] == combined + novel;
    } else {
      assert combined + novel == combined;
    }
  }

  lemma {:induction false} AppendSplit(combined: seq<string>, a: seq<string>, b: seq<string>)
    ensures AppendNew(combined, a + b) == AppendNew(AppendNew(combined, a), b)
    decreases |a|
  {
    if |a| == 0 {
      assert a + b == b;
    } else {
      assert (a + b)[1..] == a[1..] + b;
      AppendSplit(if a[0] in combined then combined else combined + [a[0]], a[1..], b);
    }
  }

  /** Prepending the same import attributes again changes nothing. */
  lemma PrependIdempotent(attributes: seq<string>, prefix: seq<string>)
    ensures PrependAttributes(PrependAttributes(attributes, prefix), prefix) == PrependAttributes(attributes, prefix)
  {
    if |prefix| > 0 {
      var all := AppendNew(prefix, attributes);
      AppendNewKeeps(prefix, attributes, |prefix|);
      var novel := all[|prefix|..];
      assert all == prefix + novel;
      AppendSplit(prefix, prefix, novel);
      AppendKnown(prefix, prefix);
      forall i | 0 <= i < |novel|
        ensures novel[i] !in prefix
      {
        assert forall k :: 0 <= k < |prefix| ==> all[k] != all[|prefix| + i];
      }
      forall i, j | 0 <= i < j < |novel|
        ensures novel[i] != novel[j]
      {
        assert all[|prefix| + i] != all[|prefix| + j];
      }
      AppendFresh(prefix, novel);
    }
  }
}
