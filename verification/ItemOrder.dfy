/**
  The order in which the items of a module are listed (`ApiModule::sorted_items`).

  The comparator is proved equal to the lexicographic order of a single key, which makes it a total
  preorder; the sorted list is then the only stable one, and its groups are described by `GroupsTogether`
  and the lemmas after it.
  */
module ItemOrder {
  import opened Basics
  import opened ApiData
  import TypeSyntax
  import TypeRender

  datatype Ordering = Less | Equal | Greater

  function Reverse(o: Ordering): Ordering {
    match o
    case Less => Greater
    case Equal => Equal
    case Greater => Less
  }

  function Then(first: Ordering, second: Ordering): Ordering {
    if first.Equal? then second else first
  }

  // ---------- Lexicographic order ----------

  function CompareNat(a: nat, b: nat): Ordering {
    if a < b then Less else if a == b then Equal else Greater
  }

  function Lex(a: seq<nat>, b: seq<nat>): Ordering {
    if |a| == 0 then (if |b| == 0 then Equal else Less)
    else if |b| == 0 then Greater
    else Then(CompareNat(a[0], b[0]), Lex(a[1..], b[1..]))
  }

  /** Strings are compared by their UTF-8 bytes, which orders them by code point. */
  function Codes(s: string): seq<nat> {
    seq(|s|, i requires 0 <= i < |s| => s[i] as nat)
  }

  lemma {:induction false} LexReverses(a: seq<nat>, b: seq<nat>)
    ensures Lex(b, a) == Reverse(Lex(a, b))
  {
    if |a| > 0 && |b| > 0 {
      LexReverses(a[1..], b[1..]);
    }
  }

  lemma {:induction false} LexEqualIff(a: seq<nat>, b: seq<nat>)
    ensures Lex(a, b) == Equal <==> a == b
  {
    if |a| > 0 && |b| > 0 {
      LexEqualIff(a[1..], b[1..]);
      assert a == [a[0]] + a[1..] && b == [b[0]] + b[1..];
    }
  }

  lemma {:induction false} LexTransitive(a: seq<nat>, b: seq<nat>, c: seq<nat>)
    requires Lex(a, b) != Greater && Lex(b, c) != Greater
    ensures Lex(a, c) != Greater
  {
    if |a| > 0 && |b| > 0 && |c| > 0 && a[0] == b[0] == c[0] {
      LexTransitive(a[1..], b[1..], c[1..]);
    }
  }

  /** A block that ends in 0 and holds no other 0: comparing blocks never looks past the first difference. */
  function Block(s: seq<nat>): (block: seq<nat>)
    ensures |block| == |s| + 1
  {
    if |s| == 0 then [0] else [s[0] + 1] + Block(s[1..])
  }

  lemma {:induction false} LexBlocks(a: seq<nat>, b: seq<nat>, x: seq<nat>, y: seq<nat>)
    ensures Lex(Block(a) + x, Block(b) + y) == Then(Lex(a, b), Lex(x, y))
  {
    var p, q := Block(a) + x, Block(b) + y;
    assert p[0] == Block(a)[0] && q[0] == Block(b)[0];
    assert p[1..] == Block(a)[1..] + x && q[1..] == Block(b)[1..] + y;
    if |a| == 0 && |b| == 0 {
      assert p[1..] == x && q[1..] == y;
    } else if |a| > 0 && |b| > 0 {
      assert Block(a)[1..] == Block(a[1..]) && Block(b)[1..] == Block(b[1..]);
      LexBlocks(a[1..], b[1..], x, y);
    }
  }

  lemma LexHead(a: nat, b: nat, x: seq<nat>, y: seq<nat>)
    ensures Lex([a] + x, [b] + y) == Then(CompareNat(a, b), Lex(x, y))
  {
    assert ([a] + x)[1..] == x && ([b] + y)[1..] == y;
  }

  // ---------- The comparator ----------

  /** `sort_rank`; `None` is the panic on an inherent impl without a usable owner. */
  function SortRank(kind: ApiItemKind, owner: Option<ApiItemKind>): Option<nat>
    decreases owner.Some?
  {
    match kind
    case Use => Some(0)
    case Macro => Some(1)
    case ProcMacro => Some(2)
    case Function => Some(3)
    case Struct => Some(4)
    case Enum => Some(5)
    case Trait => Some(6)
    case TraitAlias => Some(7)
    case InherentImpl => if owner.None? then None else SortRank(owner.value, None)
    case TraitImpl => Some(8)
    case Union => Some(9)
    case TypeAlias => Some(10)
    case Const => Some(11)
    case Static => Some(12)
  }

  predicate WellFormed(item: ApiItem) {
    item.kind.InherentImpl? ==> item.ownerKind.Some? && !item.ownerKind.value.InherentImpl?
  }

  /** The rank is computed without a panic exactly on well-formed items. */
  lemma RankedIffWellFormed(item: ApiItem)
    ensures SortRank(item.kind, item.ownerKind).Some? <==> WellFormed(item)
  {
    if item.ownerKind.Some? {
      assert SortRank(item.ownerKind.value, None).Some? <==> !item.ownerKind.value.InherentImpl?;
    }
  }

  function RankOf(item: ApiItem): nat
    requires WellFormed(item)
  {
    RankedIffWellFormed(item);
    SortRank(item.kind, item.ownerKind).value
  }

  function CompareKeys(a: Option<SortKey>, b: Option<SortKey>): Ordering {
    if a.None? && b.None? then Equal
    else if a.None? then Less
    else if b.None? then Greater
    else Then(Lex(a.value.typeArgClasses, b.value.typeArgClasses), Lex(Codes(a.value.renderedSelfType), Codes(b.value.renderedSelfType)))
  }

  /** The closure passed to `sort_by`. */
  function Compare(left: ApiItem, right: ApiItem): Ordering
    requires WellFormed(left) && WellFormed(right)
  {
    Then(CompareNat(RankOf(left), RankOf(right)),
         Then(Lex(Codes(left.name), Codes(right.name)),
              if left.kind.InherentImpl? && right.kind.InherentImpl? then
                Then(CompareKeys(left.sortKey, right.sortKey), Lex(Codes(left.declaration), Codes(right.declaration)))
              else if left.kind.InherentImpl? then Greater
              else if right.kind.InherentImpl? then Less
              else Lex(Codes(left.name), Codes(right.name))))
  }

  function KeyBlocks(key: Option<SortKey>): seq<nat> {
    if key.None? then [0] else [1] + (Block(key.value.typeArgClasses) + Block(Codes(key.value.renderedSelfType)))
  }

  /** Rank, name, owner before impl; impls further by sort key and declaration. */
  function Key(item: ApiItem): seq<nat>
    requires WellFormed(item)
  {
    [RankOf(item)] + (Block(Codes(item.name)) + Detail(item))
  }

  function Detail(item: ApiItem): seq<nat> {
    if item.kind.InherentImpl? then [1] + (KeyBlocks(item.sortKey) + Block(Codes(item.declaration))) else [0]
  }

  lemma Regroup(p: seq<nat>, a: seq<nat>, b: seq<nat>, x: seq<nat>)
    ensures p + (a + b) + x == p + (a + (b + x))
  {
  }

  lemma LexTwoBlocks(a: seq<nat>, a': seq<nat>, b: seq<nat>, b': seq<nat>, x: seq<nat>, y: seq<nat>)
    ensures Lex([1] + (Block(a) + Block(a')) + x, [1] + (Block(b) + Block(b')) + y) == Then(Then(Lex(a, b), Lex(a', b')), Lex(x, y))
  {
    LexBlocks(a', b', x, y);
    LexBlocks(a, b, Block(a') + x, Block(b') + y);
    LexHead(1, 1, Block(a) + (Block(a') + x), Block(b) + (Block(b') + y));
    Regroup([1], Block(a), Block(a'), x);
    Regroup([1], Block(b), Block(b'), y);
    hide Lex, Block;
  }

  lemma CompareKeysIsLex(a: Option<SortKey>, b: Option<SortKey>, x: seq<nat>, y: seq<nat>)
    ensures Lex(KeyBlocks(a) + x, KeyBlocks(b) + y) == Then(CompareKeys(a, b), Lex(x, y))
  {
    if a.Some? && b.Some? {
      LexTwoBlocks(a.value.typeArgClasses, Codes(a.value.renderedSelfType), b.value.typeArgClasses, Codes(b.value.renderedSelfType), x, y);
    } else if a.None? && b.None? {
      LexHead(0, 0, x, y);
    }
  }

  lemma DetailIsLex(left: ApiItem, right: ApiItem)
    ensures Lex(Detail(left), Detail(right)) ==
            if left.kind.InherentImpl? && right.kind.InherentImpl? then
              Then(CompareKeys(left.sortKey, right.sortKey), Lex(Codes(left.declaration), Codes(right.declaration)))
            else if left.kind.InherentImpl? then Greater
            else if right.kind.InherentImpl? then Less
            else Equal
  {
    if left.kind.InherentImpl? && right.kind.InherentImpl? {
      var x, y := Block(Codes(left.declaration)), Block(Codes(right.declaration));
      LexBlocks(Codes(left.declaration), Codes(right.declaration), [], []);
      assert x + [] == x && y + [] == y;
      CompareKeysIsLex(left.sortKey, right.sortKey, x, y);
      LexHead(1, 1, KeyBlocks(left.sortKey) + x, KeyBlocks(right.sortKey) + y);
    }
  }

  /** The hand-written comparator is the lexicographic order of the keys. */
  lemma CompareIsLex(left: ApiItem, right: ApiItem)
    requires WellFormed(left) && WellFormed(right)
    ensures Compare(left, right) == Lex(Key(left), Key(right))
  {
    LexHead(RankOf(left), RankOf(right), Block(Codes(left.name)) + Detail(left), Block(Codes(right.name)) + Detail(right));
    LexBlocks(Codes(left.name), Codes(right.name), Detail(left), Detail(right));
    DetailIsLex(left, right);
  }

  /** The comparator is a total preorder on well-formed items. */
  lemma TotalPreorder(a: ApiItem, b: ApiItem, c: ApiItem)
    requires WellFormed(a) && WellFormed(b) && WellFormed(c)
    ensures Compare(a, a) == Equal
    ensures Compare(b, a) == Reverse(Compare(a, b))
    ensures Compare(a, b) != Greater && Compare(b, c) != Greater ==> Compare(a, c) != Greater
    ensures Compare(a, b) == Equal <==> Key(a) == Key(b)
  {
    CompareIsLex(a, a);
    CompareIsLex(a, b);
    CompareIsLex(b, a);
    CompareIsLex(b, c);
    CompareIsLex(a, c);
    LexEqualIff(Key(a), Key(a));
    LexEqualIff(Key(a), Key(b));
    LexReverses(Key(a), Key(b));
    if Compare(a, b) != Greater && Compare(b, c) != Greater {
      LexTransitive(Key(a), Key(b), Key(c));
    }
  }

  // ---------- The stable sort ----------

  predicate AllWellFormed(items: seq<ApiItem>) {
    forall i :: 0 <= i < |items| ==> WellFormed(items[i])
  }

  ghost predicate Sorted(items: seq<ApiItem>)
    requires AllWellFormed(items)
  {
    forall i, j :: 0 <= i < j < |items| ==> Compare(items[i], items[j]) != Greater
  }

  // ---------- The order in words ----------

  /** The kinds in the order in which they are listed. */
  const LISTING: seq<ApiItemKind> :=
    [Use, Macro, ProcMacro, Function, Struct, Enum, Trait, TraitAlias, TraitImpl, Union, TypeAlias, Const, Static]

  /** An inherent impl is listed with its owner. */
  function ListedKind(item: ApiItem): ApiItemKind
    requires WellFormed(item)
  {
    if item.kind.InherentImpl? then item.ownerKind.value else item.kind
  }

  predicate KindNotAfter(a: ApiItemKind, b: ApiItemKind) {
    Precedes(LISTING, a, b)
  }

  predicate Precedes(kinds: seq<ApiItemKind>, a: ApiItemKind, b: ApiItemKind) {
    exists i, j :: 0 <= i <= j < |kinds| && kinds[i] == a && kinds[j] == b
  }

  /** Equal, or a proper beginning, or smaller at the first difference. */
  ghost predicate NotAfter(a: seq<nat>, b: seq<nat>) {
    a <= b || exists k :: 0 <= k < |a| && k < |b| && a[..k] == b[..k] && a[k] < b[k]
  }

  /** The same for strings, by code point. */
  ghost predicate TextNotAfter(a: string, b: string) {
    a <= b || exists k :: 0 <= k < |a| && k < |b| && a[..k] == b[..k] && a[k] < b[k]
  }

  ghost predicate KeyNotAfter(a: Option<SortKey>, b: Option<SortKey>, ties: bool) {
    match (a, b)
    case (None, None) => ties
    case (None, Some(_)) => true
    case (Some(_), None) => false
    case (Some(x), Some(y)) =>
      if x.typeArgClasses != y.typeArgClasses then NotAfter(x.typeArgClasses, y.typeArgClasses)
      else if x.renderedSelfType != y.renderedSelfType then TextNotAfter(x.renderedSelfType, y.renderedSelfType)
      else ties
  }

  /** Kind first, then name; an impl after the item it belongs to; impls by arguments, self type and declaration. */
  ghost predicate ListedBefore(a: ApiItem, b: ApiItem)
    requires WellFormed(a) && WellFormed(b)
  {
    if ListedKind(a) != ListedKind(b) then KindNotAfter(ListedKind(a), ListedKind(b))
    else if a.name != b.name then TextNotAfter(a.name, b.name)
    else if a.kind.InherentImpl? && b.kind.InherentImpl? then KeyNotAfter(a.sortKey, b.sortKey, TextNotAfter(a.declaration, b.declaration))
    else !a.kind.InherentImpl?
  }

  ghost predicate Listed(items: seq<ApiItem>)
    requires AllWellFormed(items)
  {
    forall i, j :: 0 <= i < j < |items| ==> ListedBefore(items[i], items[j])
  }

  lemma {:induction false} LexIsNotAfter(a: seq<nat>, b: seq<nat>)
    ensures Lex(a, b) != Greater <==> NotAfter(a, b)
  {
    if |a| == 0 || |b| == 0 {
    } else {
      LexIsNotAfter(a[1..], b[1..]);
      NotAfterCons(a, b);
    }
  }

  lemma NotAfterCons(a: seq<nat>, b: seq<nat>)
    requires |a| > 0 && |b| > 0
    ensures NotAfter(a, b) <==> a[0] < b[0] || (a[0] == b[0] && NotAfter(a[1..], b[1..]))
  {
    var x, y := a[1..], b[1..];
    assert a == [a[0]] + x && b == [b[0]] + y;
    if a[0] < b[0] {
      assert a[..0] == b[..0];
    }
    if a[0] == b[0] && NotAfter(x, y) && !(x <= y) {
      var k :| 0 <= k < |x| && k < |y| && x[..k] == y[..k] && x[k] < y[k];
      assert a[..k + 1] == [a[0]] + x[..k] && b[..k + 1] == [b[0]] + y[..k];
      assert a[k + 1] < b[k + 1];
    }
    if NotAfter(a, b) && !(a <= b) {
      var k :| 0 <= k < |a| && k < |b| && a[..k] == b[..k] && a[k] < b[k];
      if k > 0 {
        assert a[..k][0] == b[..k][0];
        assert x[..k - 1] == a[..k][1..] == b[..k][1..] == y[..k - 1];
        assert x[k - 1] < y[k - 1];
      }
    }
  }

  lemma CodesInjective(a: string, b: string)
    requires Codes(a) == Codes(b)
    ensures a == b
  {
    assert |a| == |b|;
    forall i | 0 <= i < |a|
      ensures a[i] == b[i]
    {
      assert Codes(a)[i] == Codes(b)[i];
    }
  }

  lemma CodesOfBeginning(a: string, b: string, k: nat)
    requires k <= |a| && k <= |b|
    ensures a[..k] == b[..k] <==> Codes(a)[..k] == Codes(b)[..k]
  {
    assert Codes(a)[..k] == Codes(a[..k]) && Codes(b)[..k] == Codes(b[..k]);
    if Codes(a[..k]) == Codes(b[..k]) {
      CodesInjective(a[..k], b[..k]);
    }
  }

  lemma LexIsTextNotAfter(a: string, b: string)
    ensures Lex(Codes(a), Codes(b)) != Greater <==> TextNotAfter(a, b)
    ensures Lex(Codes(a), Codes(b)) == Equal <==> a == b
  {
    LexIsNotAfter(Codes(a), Codes(b));
    LexEqualIff(Codes(a), Codes(b));
    if Codes(a) == Codes(b) {
      CodesInjective(a, b);
    }
    forall k: nat | k <= |a| && k <= |b|
      ensures a[..k] == b[..k] <==> Codes(a)[..k] == Codes(b)[..k]
    {
      CodesOfBeginning(a, b, k);
    }
    if a <= b {
      assert a[..|a|] == b[..|a|];
      assert Codes(a)[..|a|] == Codes(b)[..|a|];
    }
    if Codes(a) <= Codes(b) {
      assert Codes(a)[..|a|] == Codes(b)[..|a|];
      assert a[..|a|] == b[..|a|];
    }
  }

  lemma RankOfListed(i: nat)
    requires i < |LISTING|
    ensures SortRank(LISTING[i], None) == Some(i)
  {
  }

  lemma RankedIsListed(kind: ApiItemKind)
    requires !kind.InherentImpl?
    ensures var rank := SortRank(kind, None); rank.Some? && rank.value < |LISTING| && LISTING[rank.value] == kind
  {
  }

  lemma RanksAreListing(a: ApiItemKind, b: ApiItemKind)
    requires !a.InherentImpl? && !b.InherentImpl?
    ensures var x, y := SortRank(a, None), SortRank(b, None);
            x.Some? && y.Some? && (x == y <==> a == b) && (x.value <= y.value <==> KindNotAfter(a, b))
  {
    hide SortRank, Precedes;
    RankedIsListed(a);
    RankedIsListed(b);
    forall i: nat | i < |LISTING|
      ensures SortRank(LISTING[i], None) == Some(i)
    {
      RankOfListed(i);
    }
    PrecedesAt(LISTING, SortRank(a, None).value, SortRank(b, None).value);
  }

  lemma PrecedesAt(kinds: seq<ApiItemKind>, x: nat, y: nat)
    requires x < |kinds| && y < |kinds| && forall i: nat :: i < |kinds| ==> SortRank(kinds[i], None) == Some(i)
    ensures x == y <==> kinds[x] == kinds[y]
    ensures x <= y <==> Precedes(kinds, kinds[x], kinds[y])
  {
    hide SortRank;
  }

  lemma KeysAreListed(a: Option<SortKey>, b: Option<SortKey>, rest: Ordering)
    ensures Then(CompareKeys(a, b), rest) != Greater <==> KeyNotAfter(a, b, rest != Greater)
  {
    if a.Some? && b.Some? {
      LexIsNotAfter(a.value.typeArgClasses, b.value.typeArgClasses);
      LexEqualIff(a.value.typeArgClasses, b.value.typeArgClasses);
      LexIsTextNotAfter(a.value.renderedSelfType, b.value.renderedSelfType);
    }
  }

  /** The comparator puts `a` no later than `b` iff it is listed before `b` in these words. */
  lemma CompareIsListing(a: ApiItem, b: ApiItem)
    requires WellFormed(a) && WellFormed(b)
    ensures Compare(a, b) != Greater <==> ListedBefore(a, b)
  {
    assert RankOf(a) == SortRank(ListedKind(a), None).value && RankOf(b) == SortRank(ListedKind(b), None).value;
    RanksAreListing(ListedKind(a), ListedKind(b));
    hide Lex, Codes, TextNotAfter, KeyNotAfter, CompareKeys, KindNotAfter;
    LexIsTextNotAfter(a.name, b.name);
    LexIsTextNotAfter(a.declaration, b.declaration);
    KeysAreListed(a.sortKey, b.sortKey, Lex(Codes(a.declaration), Codes(b.declaration)));
  }

  lemma SortedIsListed(items: seq<ApiItem>)
    requires AllWellFormed(items)
    ensures Sorted(items) <==> Listed(items)
  {
    hide Compare, ListedBefore, WellFormed;
    forall i, j | 0 <= i < j < |items|
      ensures Compare(items[i], items[j]) != Greater <==> ListedBefore(items[i], items[j])
    {
      CompareIsListing(items[i], items[j]);
    }
  }

  // ---------- Stability ----------

  /** The items with a given key, in order. */
  ghost function WithKey(items: seq<ApiItem>, key: seq<nat>): seq<ApiItem>
    requires AllWellFormed(items)
  {
    if |items| == 0 then []
    else if Key(items[0]) == key then [items[0]] + WithKey(items[1..], key)
    else WithKey(items[1..], key)
  }

  lemma {:induction false} WithKeyIff(items: seq<ApiItem>, key: seq<nat>, x: ApiItem)
    requires AllWellFormed(items) && WellFormed(x)
    ensures x in WithKey(items, key) <==> x in items && Key(x) == key
  {
    if |items| == 0 {
    } else {
      WithKeyIff(items[1..], key, x);
      assert items == [items[0]] + items[1..];
    }
  }

  /** The same items, and items with equal keys in the same order. */
  ghost predicate SameByKey(a: seq<ApiItem>, b: seq<ApiItem>)
    requires AllWellFormed(a) && AllWellFormed(b)
  {
    forall key :: WithKey(a, key) == WithKey(b, key)
  }

  lemma {:induction false} CountWithKey(items: seq<ApiItem>, x: ApiItem)
    requires AllWellFormed(items) && WellFormed(x)
    ensures multiset(items)[x] == multiset(WithKey(items, Key(x)))[x]
  {
    if |items| == 0 {
    } else {
      CountWithKey(items[1..], x);
      assert items == [items[0]] + items[1..];
    }
  }

  /** In particular one is a permutation of the other. */
  lemma SameByKeyPermutes(a: seq<ApiItem>, b: seq<ApiItem>)
    requires AllWellFormed(a) && AllWellFormed(b) && SameByKey(a, b)
    ensures multiset(a) == multiset(b)
  {
    forall x | x in multiset(a) + multiset(b)
      ensures multiset(a)[x] == multiset(b)[x]
    {
      assert WellFormed(x) by {
        if x in a {
          var i :| 0 <= i < |a| && a[i] == x;
        } else {
          var i :| 0 <= i < |b| && b[i] == x;
        }
      }
      CountWithKey(a, x);
      CountWithKey(b, x);
    }
  }

  /** `sorted_items`: a stable sort. Each item, from the last to the first, goes before the first one not less than it. */
  method SortedItems(items: seq<ApiItem>) returns (sorted: seq<ApiItem>)
    requires AllWellFormed(items)
    ensures AllWellFormed(sorted) && Sorted(sorted) && SameByKey(sorted, items)
    ensures Listed(sorted)
  {
    sorted := [];
    var i := |items|;
    while i > 0
      invariant 0 <= i <= |items|
      invariant AllWellFormed(sorted) && Sorted(sorted) && SameByKey(sorted, items[i..])
    {
      i := i - 1;
      var x, k := items[i], 0;
      while k < |sorted| && Compare(x, sorted[k]) == Greater
        invariant 0 <= k <= |sorted|
        invariant forall j :: 0 <= j < k ==> Compare(x, sorted[j]) == Greater
      {
        k := k + 1;
      }
      InsertKeepsSorted(sorted, x, k);
      InsertKeepsOrder(sorted, x, k);
      assert items[i..][1..] == items[i + 1..];
      sorted := sorted[..k] + [x] + sorted[k..];
    }
    assert items[0..] == items;
    SortedIsListed(sorted);
  }

  lemma InsertKeepsSorted(sorted: seq<ApiItem>, x: ApiItem, k: nat)
    requires AllWellFormed(sorted) && Sorted(sorted) && WellFormed(x) && k <= |sorted|
    requires forall j :: 0 <= j < k ==> Compare(x, sorted[j]) == Greater
    requires k < |sorted| ==> Compare(x, sorted[k]) != Greater
    ensures AllWellFormed(sorted[..k] + [x] + sorted[k..]) && Sorted(sorted[..k] + [x] + sorted[k..])
  {
    hide Compare, WellFormed;
    var out := sorted[..k] + [x] + sorted[k..];
    forall i | 0 <= i < |out|
      ensures WellFormed(out[i])
    {
      assert out[i] == if i < k then sorted[i] else if i == k then x else sorted[i - 1];
    }
    forall i, j | 0 <= i < j < |out|
      ensures Compare(out[i], out[j]) != Greater
    {
      assert out[i] == if i < k then sorted[i] else if i == k then x else sorted[i - 1];
      assert out[j] == if j < k then sorted[j] else if j == k then x else sorted[j - 1];
      if j == k {
        TotalPreorder(out[i], x, x);
      } else if i == k {
        TotalPreorder(x, sorted[k], out[j]);
      }
    }
  }

  lemma {:induction false} WithKeyAppend(a: seq<ApiItem>, b: seq<ApiItem>, key: seq<nat>)
    requires AllWellFormed(a) && AllWellFormed(b)
    ensures AllWellFormed(a + b) && WithKey(a + b, key) == WithKey(a, key) + WithKey(b, key)
  {
    hide Key, WellFormed;
    if |a| == 0 {
      assert a + b == b;
    } else {
      assert (a + b)[0] == a[0] && (a + b)[1..] == a[1..] + b;
      WithKeyAppend(a[1..], b, key);
    }
  }

  lemma {:induction false} WithoutKey(a: seq<ApiItem>, key: seq<nat>)
    requires AllWellFormed(a) && forall i :: 0 <= i < |a| ==> Key(a[i]) != key
    ensures WithKey(a, key) == []
  {
    if |a| == 0 {
    } else {
      WithoutKey(a[1..], key);
    }
  }

  lemma InsertWithKey(front: seq<ApiItem>, x: ApiItem, back: seq<ApiItem>, key: seq<nat>)
    requires AllWellFormed(front) && AllWellFormed(back) && WellFormed(x)
    requires Key(x) == key ==> WithKey(front, key) == []
    ensures AllWellFormed(front + back) && AllWellFormed(front + ([x] + back))
    ensures WithKey(front + ([x] + back), key) == if Key(x) == key then [x] + WithKey(front + back, key) else WithKey(front + back, key)
  {
    hide Key, WellFormed;
    assert ([x] + back)[1..] == back;
    assert WithKey([x] + back, key) == if Key(x) == key then [x] + WithKey(back, key) else WithKey(back, key);
    WithKeyAppend(front, [x] + back, key);
    WithKeyAppend(front, back, key);
  }

  lemma Regrouped(sorted: seq<ApiItem>, x: ApiItem, k: nat)
    requires k <= |sorted|
    ensures sorted[..k] + [x] + sorted[k..] == sorted[..k] + ([x] + sorted[k..])
    ensures sorted[..k] + sorted[k..] == sorted
  {
  }

  /** Items passed over have other keys, so the new item comes first among its equals. */
  lemma InsertKeepsOrder(sorted: seq<ApiItem>, x: ApiItem, k: nat)
    requires AllWellFormed(sorted) && WellFormed(x) && k <= |sorted|
    requires forall j :: 0 <= j < k ==> Compare(x, sorted[j]) == Greater
    ensures AllWellFormed(sorted[..k] + [x] + sorted[k..])
    ensures forall key :: WithKey(sorted[..k] + [x] + sorted[k..], key) == if Key(x) == key then [x] + WithKey(sorted, key) else WithKey(sorted, key)
  {
    hide Compare, Key, WellFormed;
    forall i | 0 <= i < |sorted[..k]|
      ensures Key(sorted[..k][i]) != Key(x)
    {
      TotalPreorder(x, sorted[i], x);
    }
    WithoutKey(sorted[..k], Key(x));
    forall key
      ensures AllWellFormed(sorted[..k] + [x] + sorted[k..])
      ensures WithKey(sorted[..k] + [x] + sorted[k..], key) == if Key(x) == key then [x] + WithKey(sorted, key) else WithKey(sorted, key)
    {
      Regrouped(sorted, x, k);
      InsertWithKey(sorted[..k], x, sorted[k..], key);
    }
  }

  lemma EmptyTogether(a: seq<ApiItem>, b: seq<ApiItem>)
    requires AllWellFormed(a) && AllWellFormed(b)
    ensures |a| == 0 && SameByKey(a, b) ==> |b| == 0
  {
    if |b| > 0 {
      assert WithKey(b, Key(b[0]))[0] == b[0];
    }
  }

  /** There is only one such list, so any stable sort gives it. */
  lemma {:induction false} StableSortUnique(a: seq<ApiItem>, b: seq<ApiItem>)
    requires AllWellFormed(a) && AllWellFormed(b) && Sorted(a) && Sorted(b) && SameByKey(a, b)
    ensures a == b
  {
    hide Compare, Key, WellFormed;
    if |a| == 0 {
      EmptyTogether(a, b);
    } else {
      WithKeyIff(a, Key(a[0]), a[0]);
      WithKeyIff(b, Key(a[0]), a[0]);
      assert a[0] in b;
      WithKeyIff(b, Key(b[0]), b[0]);
      WithKeyIff(a, Key(b[0]), b[0]);
      assert WithKey(a, Key(a[0]))[0] == a[0] && WithKey(b, Key(b[0]))[0] == b[0];
      SortedHead(a, b[0]);
      SortedHead(b, a[0]);
      TotalPreorder(a[0], b[0], a[0]);
      assert a[0] == b[0];
      forall key
        ensures WithKey(a[1..], key) == WithKey(b[1..], key)
      {
        assert WithKey(a, key) == WithKey(b, key);
        if Key(a[0]) == key {
          assert WithKey(a[1..], key) == WithKey(a, key)[1..];
          assert WithKey(b[1..], key) == WithKey(b, key)[1..];
        }
      }
      StableSortUnique(a[1..], b[1..]);
      assert a == [a[0]] + a[1..] && b == [b[0]] + b[1..];
    }
  }

  lemma SortedHead(a: seq<ApiItem>, x: ApiItem)
    requires AllWellFormed(a) && Sorted(a) && x in a
    ensures Compare(a[0], x) != Greater
  {
    var i :| 0 <= i < |a| && a[i] == x;
    if i == 0 {
      TotalPreorder(x, x, x);
    }
  }

  // ---------- Groups ----------

  predicate SameGroup(a: ApiItem, b: ApiItem)
    requires WellFormed(a) && WellFormed(b)
  {
    RankOf(a) == RankOf(b) && a.name == b.name
  }

  /** Items of one kind and name, and the impls they own, stand together. */
  lemma GroupsTogether(sorted: seq<ApiItem>, i: nat, j: nat, k: nat)
    requires AllWellFormed(sorted) && Sorted(sorted) && i < j < k < |sorted|
    requires SameGroup(sorted[i], sorted[k])
    ensures SameGroup(sorted[i], sorted[j])
  {
    var a, b, c := sorted[i], sorted[j], sorted[k];
    LexReverses(Codes(a.name), Codes(b.name));
    LexEqualIff(Codes(a.name), Codes(b.name));
    if Codes(a.name) == Codes(b.name) {
      CodesInjective(a.name, b.name);
    }
  }

  /** Within a group every impl stands after every other item. */
  lemma ImplsAfterOwners(sorted: seq<ApiItem>, i: nat, j: nat)
    requires AllWellFormed(sorted) && Sorted(sorted) && i < j < |sorted|
    requires SameGroup(sorted[i], sorted[j]) && sorted[i].kind.InherentImpl?
    ensures sorted[j].kind.InherentImpl?
  {
    LexEqualIff(Codes(sorted[i].name), Codes(sorted[j].name));
  }

  /** Within a group the impls are ordered by class vector, then self type, then declaration. */
  lemma ImplsInOrder(sorted: seq<ApiItem>, i: nat, j: nat)
    requires AllWellFormed(sorted) && Sorted(sorted) && i < j < |sorted|
    requires SameGroup(sorted[i], sorted[j]) && sorted[i].kind.InherentImpl?
    ensures Then(CompareKeys(sorted[i].sortKey, sorted[j].sortKey), Lex(Codes(sorted[i].declaration), Codes(sorted[j].declaration))) != Greater
  {
    ImplsAfterOwners(sorted, i, j);
    LexEqualIff(Codes(sorted[i].name), Codes(sorted[j].name));
  }

  /** The owner of an impl has the impl's owner kind: different kinds have different ranks. */
  lemma GroupHasOneKind(a: ApiItem, b: ApiItem)
    requires WellFormed(a) && WellFormed(b) && SameGroup(a, b) && !a.kind.InherentImpl?
    ensures if b.kind.InherentImpl? then b.ownerKind == Some(a.kind) else b.kind == a.kind
  {
    assert forall k: ApiItemKind, l: ApiItemKind :: !k.InherentImpl? && !l.InherentImpl? && SortRank(k, None) == SortRank(l, None) ==> k == l;
    assert SortRank(a.kind, a.ownerKind) == SortRank(a.kind, None);
    assert !b.kind.InherentImpl? ==> SortRank(b.kind, b.ownerKind) == SortRank(b.kind, None);
  }

  // ---------- Items as the extractor builds them ----------

  datatype RawEnum =
    | RawUse | RawMacro | RawProcMacro | RawFunction | RawStruct | RawEnumeration | RawTrait | RawTraitAlias
    | RawUnion | RawTypeAlias | RawConstant | RawStatic | RawOther

  function ItemKind(raw: RawEnum): (kind: ApiItemKind)
    ensures !kind.InherentImpl? && !kind.TraitImpl?
  {
    match raw
    case RawUse => Use
    case RawMacro => Macro
    case RawProcMacro => ProcMacro
    case RawFunction => Function
    case RawStruct => Struct
    case RawEnumeration => Enum
    case RawTrait => Trait
    case RawTraitAlias => TraitAlias
    case RawUnion => Union
    case RawTypeAlias => TypeAlias
    case RawConstant => Const
    case RawStatic => Static
    case RawOther => TypeAlias
  }

  /** Generic arguments before inferred ones before concrete ones; lifetimes and constants do not count. */
  function ArgClasses(args: seq<TypeSyntax.GenericArg>): (classes: seq<nat>)
    ensures |classes| <= |args| && forall i :: 0 <= i < |classes| ==> classes[i] <= 2
  {
    if |args| == 0 then []
    else
      var rest := ArgClasses(args[1..]);
      match args[0]
      case TypeArg(Generic(_)) => [0] + rest
      case InferArg => [1] + rest
      case TypeArg(Infer) => [1] + rest
      case TypeArg(_) => [2] + rest
      case _ => rest
  }

  function TypeArgClasses(t: TypeSyntax.Type): seq<nat> {
    match t
    case ResolvedPath(Path(_, Some(AngleBracketed(args, _)))) => ArgClasses(args)
    case _ => []
  }

  function SortKeyOf(selfType: TypeSyntax.Type): SortKey {
    SortKey(TypeArgClasses(selfType), TypeRender.RenderType(selfType, {}))
  }

  // ---------- Impls by how general their arguments are ----------

  predicate IsGenericArg(arg: TypeSyntax.GenericArg) {
    arg.TypeArg? && arg.type_.Generic?
  }

  predicate IsInferredArg(arg: TypeSyntax.GenericArg) {
    arg.InferArg? || (arg.TypeArg? && arg.type_.Infer?)
  }

  predicate IsConcreteArg(arg: TypeSyntax.GenericArg) {
    arg.TypeArg? && !arg.type_.Generic? && !arg.type_.Infer?
  }

  /** The type arguments among the arguments: lifetimes and constants are passed over. */
  function TypeArgs(args: seq<TypeSyntax.GenericArg>): (kept: seq<TypeSyntax.GenericArg>)
    ensures forall arg :: arg in kept <==> arg in args && (IsGenericArg(arg) || IsInferredArg(arg) || IsConcreteArg(arg))
  {
    if |args| == 0 then []
    else
      assert args == [args[0]] + args[1..];
      (if args[0].TypeArg? || args[0].InferArg? then [args[0]] else []) + TypeArgs(args[1..])
  }

  function ArgsOfType(t: TypeSyntax.Type): seq<TypeSyntax.GenericArg> {
    if t.ResolvedPath? && t.path.args.Some? && t.path.args.value.AngleBracketed? then TypeArgs(t.path.args.value.args) else []
  }

  /** As general: both generic, both inferred or both concrete. */
  predicate AsGeneral(a: TypeSyntax.GenericArg, b: TypeSyntax.GenericArg) {
    IsGenericArg(a) == IsGenericArg(b) && IsInferredArg(a) == IsInferredArg(b)
  }

  predicate MoreGeneral(a: TypeSyntax.GenericArg, b: TypeSyntax.GenericArg) {
    (IsGenericArg(a) && !IsGenericArg(b)) || (IsInferredArg(a) && IsConcreteArg(b))
  }

  predicate AsGeneralUpTo(a: seq<TypeSyntax.GenericArg>, b: seq<TypeSyntax.GenericArg>, k: nat) {
    k <= |a| && k <= |b| && forall i :: 0 <= i < k ==> AsGeneral(a[i], b[i])
  }

  predicate InClass(arg: TypeSyntax.GenericArg, class_: nat) {
    match class_
    case 0 => IsGenericArg(arg)
    case 1 => IsInferredArg(arg)
    case 2 => IsConcreteArg(arg)
    case _ => false
  }

  predicate InClasses(kept: seq<TypeSyntax.GenericArg>, classes: seq<nat>) {
    |kept| == |classes| && forall i :: 0 <= i < |kept| ==> InClass(kept[i], classes[i])
  }

  lemma InClassesCons(arg: TypeSyntax.GenericArg, class_: nat, kept: seq<TypeSyntax.GenericArg>, classes: seq<nat>)
    requires InClass(arg, class_) && InClasses(kept, classes)
    ensures InClasses([arg] + kept, [class_] + classes)
  {
    hide InClass;
  }

  lemma {:induction false} ClassesOfArgs(args: seq<TypeSyntax.GenericArg>)
    ensures InClasses(TypeArgs(args), ArgClasses(args))
  {
    if |args| == 0 {
    } else {
      hide InClasses;
      ClassesOfArgs(args[1..]);
      var kept, classes := TypeArgs(args[1..]), ArgClasses(args[1..]);
      if IsGenericArg(args[0]) {
        InClassesCons(args[0], 0, kept, classes);
      } else if IsInferredArg(args[0]) {
        InClassesCons(args[0], 1, kept, classes);
      } else if IsConcreteArg(args[0]) {
        InClassesCons(args[0], 2, kept, classes);
      } else {
        assert [] + kept == kept;
      }
    }
  }

  lemma ClassesOfType(t: TypeSyntax.Type)
    ensures InClasses(ArgsOfType(t), TypeArgClasses(t))
  {
    if t.ResolvedPath? && t.path.args.Some? && t.path.args.value.AngleBracketed? {
      ClassesOfArgs(t.path.args.value.args);
    }
  }

  lemma ClassesCompare(a: TypeSyntax.GenericArg, x: nat, b: TypeSyntax.GenericArg, y: nat)
    requires InClass(a, x) && InClass(b, y)
    ensures x == y <==> AsGeneral(a, b)
    ensures x <= y <==> !MoreGeneral(b, a)
  {
  }

  predicate IsImplFor(item: ApiItem, selfType: TypeSyntax.Type) {
    item.kind.InherentImpl? && item.sortKey == Some(SortKeyOf(selfType))
  }

  /**
    Of two impls of one owner the earlier has the more general argument at the first place where they differ in
    generality, or none there; and impls that are equally general stand in the order of their self types.
    */
  lemma ImplsByGenerality(sorted: seq<ApiItem>, i: nat, j: nat, first: TypeSyntax.Type, second: TypeSyntax.Type, k: nat)
    requires AllWellFormed(sorted) && Listed(sorted) && i < j < |sorted|
    requires ListedKind(sorted[i]) == ListedKind(sorted[j]) && sorted[i].name == sorted[j].name
    requires IsImplFor(sorted[i], first) && IsImplFor(sorted[j], second)
    requires AsGeneralUpTo(ArgsOfType(first), ArgsOfType(second), k)
    ensures var a, b := ArgsOfType(first), ArgsOfType(second);
            && (k < |a| ==> k < |b| && !MoreGeneral(b[k], a[k]))
            && (k == |a| == |b| ==> TextNotAfter(TypeRender.RenderType(first, {}), TypeRender.RenderType(second, {})))
  {
    var a, b := ArgsOfType(first), ArgsOfType(second);
    var x, y := TypeArgClasses(first), TypeArgClasses(second);
    ClassesOfType(first);
    ClassesOfType(second);
    hide ArgsOfType, TypeArgClasses, TypeRender.RenderType, InClass, AsGeneral, MoreGeneral;
    assert ListedBefore(sorted[i], sorted[j]);
    forall m | 0 <= m < |a| && m < |b|
      ensures x[m] == y[m] <==> AsGeneral(a[m], b[m])
      ensures x[m] <= y[m] <==> !MoreGeneral(b[m], a[m])
    {
      ClassesCompare(a[m], x[m], b[m], y[m]);
    }
    assert x != y ==> NotAfter(x, y);
    SameSoFar(x, y, k);
  }

  lemma SameSoFar(x: seq<nat>, y: seq<nat>, k: nat)
    requires k <= |x| && k <= |y| && (forall m :: 0 <= m < k ==> x[m] == y[m]) && (x == y || NotAfter(x, y))
    ensures k < |x| ==> k < |y| && x[k] <= y[k]
    ensures k == |x| == |y| ==> x == y
  {
    if !(x <= y) {
      var n :| 0 <= n < |x| && n < |y| && x[..n] == y[..n] && x[n] < y[n];
      if k < n {
        assert x[..n][k] == y[..n][k];
      }
    }
  }

  datatype Extracted = Plain(raw: RawEnum) | TraitImplFor(selfType: TypeSyntax.Type) | InherentImplOf(owner: RawEnum, selfType: TypeSyntax.Type)

  /** The sort-relevant fields that `extract_item`, `extract_trait_impl` and `extract_inherent_impl` fill in. */
  function Extract(e: Extracted, name: string, declaration: string): (item: ApiItem)
    ensures WellFormed(item)
    ensures item.kind.InherentImpl? <==> item.sortKey.Some?
  {
    match e
    case Plain(raw) => ApiItem(name, ItemKind(raw), None, None, None, [], [], declaration, [])
    case TraitImplFor(selfType) => ApiItem(TypeRender.RenderType(selfType, {}), TraitImpl, None, None, None, [], [], declaration, [])
    case InherentImplOf(owner, selfType) => ApiItem(name, InherentImpl, None, Some(ItemKind(owner)), Some(SortKeyOf(selfType)), [], [], declaration, [])
  }

  /** The sorter never panics on what the extractor built, and an owner and its impls are one group. */
  lemma ExtractedGroups(owner: RawEnum, selfType: TypeSyntax.Type, name: string, ownerDeclaration: string, implDeclaration: string)
    ensures SameGroup(Extract(Plain(owner), name, ownerDeclaration), Extract(InherentImplOf(owner, selfType), name, implDeclaration))
    ensures Compare(Extract(Plain(owner), name, ownerDeclaration), Extract(InherentImplOf(owner, selfType), name, implDeclaration)) == Less
  {
    var own, impl := Extract(Plain(owner), name, ownerDeclaration), Extract(InherentImplOf(owner, selfType), name, implDeclaration);
    assert SortRank(own.kind, own.ownerKind) == SortRank(ItemKind(owner), None) == SortRank(impl.kind, impl.ownerKind);
    LexEqualIff(Codes(name), Codes(name));
  }
}
