/**
  What the passes before the whitespace passes rewrite, said of the text as a whole: the four replacements are one
  pass that takes the angle brackets off every escaped `cfg` and `cfg_attr`, and the pin pass rewrites exactly
  the texts that are one pin wrapper.
  */
module AttributeRewrites {
  import opened Basics
  import opened AttributeText
  import opened AttributeWords
  import opened AttributeIdempotence

  // ---------- One pass for the four replacements ----------

  /** An attribute that opens with `name` in angle brackets. */
  function EscapedHead(head: string, name: string): string {
    head + "<" + name + ">("
  }

  function PlainHead(head: string, name: string): string {
    head + name + "("
  }

  /** The escape at the start of a text: its opening and its name. */
  function EscapeAt(s: string): Option<(string, string)> {
    if StartsWith(s, EscapedHead("#[", "cfg")) then Some(("#[", "cfg"))
    else if StartsWith(s, EscapedHead("#![", "cfg")) then Some(("#![", "cfg"))
    else if StartsWith(s, EscapedHead("#[", "cfg_attr")) then Some(("#[", "cfg_attr"))
    else if StartsWith(s, EscapedHead("#![", "cfg_attr")) then Some(("#![", "cfg_attr"))
    else None
  }

  /** Every escape, from left to right, without its angle brackets; everything else as it stands. */
  function OnePass(s: string): string
    decreases |s|
  {
    var escape := EscapeAt(s);
    if escape.Some? then
      var escaped := EscapedHead(escape.value.0, escape.value.1);
      PlainHead(escape.value.0, escape.value.1) + OnePass(s[|escaped|..])
    else if |s| == 0 then ""
    else [s[0]] + OnePass(s[1..])
  }

  lemma Heads()
    ensures EscapedHead("#[", "cfg") == CFG && EscapedHead("#![", "cfg") == INNER_CFG
    ensures EscapedHead("#[", "cfg_attr") == CFG_ATTR && EscapedHead("#![", "cfg_attr") == INNER_CFG_ATTR
    ensures PlainHead("#[", "cfg") == "#[cfg(" && PlainHead("#![", "cfg") == "#![cfg("
    ensures PlainHead("#[", "cfg_attr") == "#[cfg_attr(" && PlainHead("#![", "cfg_attr") == "#![cfg_attr("
  {
  }

  /** A marked word that is not the pattern is passed over. */
  lemma PastMarked(w: string, rest: string, pattern: string, substitute: string)
    requires Swap(pattern, substitute) && Marked(w) && !StartsWith(w + rest, pattern)
    ensures Replace(w + rest, pattern, substitute) == w + Replace(rest, pattern, substitute)
  {
    assert NoHash(w[1..]);
    ReplaceStartsMarked(w + rest, pattern, substitute, w);
    StartsOwn(w, rest);
    StartsSplit(Replace(w + rest, pattern, substitute), w);
  }

  lemma PastSubstitute(w: string, rest: string, pattern: string, substitute: string)
    requires Swap(pattern, substitute) && Marked(w) && OpensWith(w, 'c')
    ensures Replace(w + rest, pattern, substitute) == w + Replace(rest, pattern, substitute)
  {
    StartsOwn(w, rest);
    OpensApart(w + rest, w, 'c', pattern, '<');
    PastMarked(w, rest, pattern, substitute);
  }

  lemma PastOwn(rest: string, pattern: string, substitute: string)
    requires |pattern| > 0
    ensures Replace(pattern + rest, pattern, substitute) == substitute + Replace(rest, pattern, substitute)
  {
    StartsOwn(pattern, rest);
  }

  // ---------- Replacements one after the other ----------

  type Pair = (string, string)

  predicate AllSwaps(pairs: seq<Pair>) {
    forall i :: 0 <= i < |pairs| ==> Swap(pairs[i].0, pairs[i].1)
  }

  function ReplaceAll(s: string, pairs: seq<Pair>): string
    requires AllSwaps(pairs)
    decreases |pairs|
  {
    if |pairs| == 0 then s else ReplaceAll(Replace(s, pairs[0].0, pairs[0].1), pairs[1..])
  }

  lemma {:induction false} SubstitutePasses(w: string, rest: string, pairs: seq<Pair>)
    requires AllSwaps(pairs) && Marked(w) && OpensWith(w, 'c')
    ensures ReplaceAll(w + rest, pairs) == w + ReplaceAll(rest, pairs)
    decreases |pairs|
  {
    hide Replace;
    if |pairs| == 0 {
    } else {
      assert Swap(pairs[0].0, pairs[0].1);
      PastSubstitute(w, rest, pairs[0].0, pairs[0].1);
      SubstitutePasses(w, Replace(rest, pairs[0].0, pairs[0].1), pairs[1..]);
    }
  }

  /** Two words that differ somewhere start no common text. */
  predicate Apart(a: string, b: string) {
    exists i :: 0 <= i < |a| && i < |b| && a[i] != b[i]
  }

  lemma ApartStarts(a: string, b: string, s: string)
    requires Apart(a, b)
    ensures !(StartsWith(s, a) && StartsWith(s, b))
  {
    var i :| 0 <= i < |a| && i < |b| && a[i] != b[i];
    StartsAt(s, a, i);
    StartsAt(s, b, i);
  }

  predicate AllApart(pairs: seq<Pair>) {
    forall i, j :: 0 <= i < j < |pairs| ==> Apart(pairs[i].0, pairs[j].0)
  }

  /** A pattern is replaced by its own substitute, whatever comes before and after its turn. */
  lemma {:induction false} PatternPasses(k: nat, rest: string, pairs: seq<Pair>)
    requires k < |pairs| && AllSwaps(pairs) && AllApart(pairs)
    ensures ReplaceAll(pairs[k].0 + rest, pairs) == pairs[k].1 + ReplaceAll(rest, pairs)
    decreases |pairs|
  {
    hide Replace, Apart, StartsWith;
    var pattern, substitute := pairs[0].0, pairs[0].1;
    assert Swap(pattern, substitute) && Swap(pairs[k].0, pairs[k].1);
    var after := Replace(rest, pattern, substitute);
    if k == 0 {
      PastOwn(rest, pattern, substitute);
      SubstitutePasses(substitute, after, pairs[1..]);
    } else {
      assert Apart(pattern, pairs[k].0);
      StartsOwn(pairs[k].0, rest);
      ApartStarts(pattern, pairs[k].0, pairs[k].0 + rest);
      PastMarked(pairs[k].0, rest, pattern, substitute);
      PatternPasses(k - 1, after, pairs[1..]);
    }
  }

  predicate NoneStarts(s: string, pairs: seq<Pair>) {
    forall i :: 0 <= i < |pairs| ==> !StartsWith(s, pairs[i].0)
  }

  lemma {:induction false} PlainPasses(s: string, pairs: seq<Pair>)
    requires |s| > 0 && AllSwaps(pairs) && NoneStarts(s, pairs)
    ensures ReplaceAll(s, pairs) == [s[0]] + ReplaceAll(s[1..], pairs)
    decreases |pairs|
  {
    if |pairs| == 0 {
    } else {
      var pattern, substitute := pairs[0].0, pairs[0].1;
      assert Swap(pattern, substitute) && !StartsWith(s, pattern);
      var t := Replace(s, pattern, substitute);
      assert t == [s[0]] + Replace(s[1..], pattern, substitute);
      forall i | 0 <= i < |pairs[1..]|
        ensures !StartsWith(t, pairs[1..][i].0)
      {
        assert pairs[1..][i] == pairs[i + 1] && Swap(pairs[i + 1].0, pairs[i + 1].1);
        assert NoHash(pairs[i + 1].0[1..]);
        ReplaceStartsMarked(s, pattern, substitute, pairs[i + 1].0);
      }
      PlainPasses(t, pairs[1..]);
      assert t[1..] == Replace(s[1..], pattern, substitute);
    }
  }

  lemma {:induction false} NothingPasses(pairs: seq<Pair>)
    requires AllSwaps(pairs)
    ensures ReplaceAll("", pairs) == ""
    decreases |pairs|
  {
    if |pairs| == 0 {
    } else {
      assert Swap(pairs[0].0, pairs[0].1);
      NothingPasses(pairs[1..]);
    }
  }

  // ---------- The four replacements of the source ----------

  const ESCAPES: seq<Pair> :=
    [(CFG, "#[cfg("), (INNER_CFG, "#![cfg("), (CFG_ATTR, "#[cfg_attr("), (INNER_CFG_ATTR, "#![cfg_attr(")]

  lemma EscapesSwap()
    ensures AllSwaps(ESCAPES)
  {
    Swaps();
    hide Swap;
  }

  lemma EscapesApart()
    ensures AllApart(ESCAPES)
  {
    assert CFG[1] != INNER_CFG[1] && CFG[6] != CFG_ATTR[6] && CFG[1] != INNER_CFG_ATTR[1];
    assert INNER_CFG[1] != CFG_ATTR[1] && INNER_CFG[7] != INNER_CFG_ATTR[7] && CFG_ATTR[1] != INNER_CFG_ATTR[1];
    assert Apart(CFG, INNER_CFG) && Apart(CFG, CFG_ATTR) && Apart(CFG, INNER_CFG_ATTR);
    assert Apart(INNER_CFG, CFG_ATTR) && Apart(INNER_CFG, INNER_CFG_ATTR) && Apart(CFG_ATTR, INNER_CFG_ATTR);
    hide Apart;
  }

  lemma UnescapeIsReplaceAll(s: string)
    ensures AllSwaps(ESCAPES) && Unescape(s) == ReplaceAll(s, ESCAPES)
  {
    EscapesSwap();
    hide Replace, AllSwaps;
    assert ESCAPES[1..][1..] == ESCAPES[2..] && ESCAPES[2..][1..] == ESCAPES[3..] && ESCAPES[3..][1..] == ESCAPES[4..];
    AllSwapsRest(ESCAPES);
    AllSwapsRest(ESCAPES[1..]);
    AllSwapsRest(ESCAPES[2..]);
    AllSwapsRest(ESCAPES[3..]);
    var a := Replace(s, CFG, "#[cfg(");
    var b := Replace(a, INNER_CFG, "#![cfg(");
    var c := Replace(b, CFG_ATTR, "#[cfg_attr(");
    assert ReplaceAll(s, ESCAPES) == ReplaceAll(a, ESCAPES[1..]);
    assert ReplaceAll(a, ESCAPES[1..]) == ReplaceAll(b, ESCAPES[2..]);
    assert ReplaceAll(b, ESCAPES[2..]) == ReplaceAll(c, ESCAPES[3..]);
  }

  lemma AllSwapsRest(pairs: seq<Pair>)
    requires AllSwaps(pairs) && |pairs| > 0
    ensures AllSwaps(pairs[1..])
  {
    hide Swap;
  }

  /** The pair of the escape at the start. */
  lemma EscapeIsPair(s: string) returns (k: nat)
    ensures EscapeAt(s).None? ==> k == 0 && NoneStarts(s, ESCAPES)
    ensures EscapeAt(s).Some? ==>
              && k < |ESCAPES| && StartsWith(s, ESCAPES[k].0)
              && ESCAPES[k] == (EscapedHead(EscapeAt(s).value.0, EscapeAt(s).value.1), PlainHead(EscapeAt(s).value.0, EscapeAt(s).value.1))
  {
    Heads();
    hide StartsWith, EscapedHead, PlainHead;
    k := if StartsWith(s, CFG) then 0 else if StartsWith(s, INNER_CFG) then 1 else if StartsWith(s, CFG_ATTR) then 2 else if StartsWith(s, INNER_CFG_ATTR) then 3 else 0;
  }

  /** The four replacements in a row are one pass over the text. */
  lemma {:induction false} UnescapeIsOnePass(s: string)
    ensures Unescape(s) == OnePass(s)
    decreases |s|
  {
    UnescapeIsReplaceAll(s);
    EscapesApart();
    var k := EscapeIsPair(s);
    hide Unescape, ReplaceAll, EscapeAt, EscapedHead, PlainHead, AllSwaps, AllApart, NoneStarts;
    if EscapeAt(s).Some? {
      var rest := s[|ESCAPES[k].0|..];
      StartsSplit(s, ESCAPES[k].0);
      PatternPasses(k, rest, ESCAPES);
      UnescapeIsReplaceAll(rest);
      UnescapeIsOnePass(rest);
    } else if |s| == 0 {
      NothingPasses(ESCAPES);
    } else {
      PlainPasses(s, ESCAPES);
      UnescapeIsReplaceAll(s[1..]);
      UnescapeIsOnePass(s[1..]);
    }
  }

  // ---------- The pin pass ----------

  function Project(head: string, inner: string): string {
    if inner == "" then head + "pin_project]" else head + "pin_project(" + inner + ")]"
  }

  /** A text that is one wrapper becomes the attribute it stands for, with what it wraps; every other text is left alone. */
  lemma PinRewrites(s: string, inner: string)
    ensures s == "#[" + "pin(__private(" + inner + "))]" ==> NormalizePin(s) == Project("#[", inner)
    ensures s == "#![" + "pin(__private(" + inner + "))]" ==> NormalizePin(s) == Project("#![", inner)
    ensures NormalizePin(s) != s ==> PinInner(s, "#[").Some? || PinInner(s, "#![").Some?
    ensures PinInner(s, "#[").Some? ==> s == "#[" + "pin(__private(" + PinInner(s, "#[").value + "))]"
    ensures PinInner(s, "#![").Some? ==> s == "#![" + "pin(__private(" + PinInner(s, "#![").value + "))]"
  {
    PinIsWrapper(s, "#[");
    PinIsWrapper(s, "#![");
    WrapperIsPin("#[", inner);
    WrapperIsPin("#![", inner);
    InnerIsNotOuter(inner);
    hide PinInner;
  }

  lemma InnerIsNotOuter(inner: string)
    ensures PinInner(Wrapper("#![", inner), "#[").None?
  {
    var s := Wrapper("#![", inner);
    assert s[1] == '!';
    StartsAt(s, "#[", 1);
  }
}
