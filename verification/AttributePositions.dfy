/**
  The whitespace pass said of positions in the text: which characters are inside a string literal, which blanks may
  stand outside, and that nothing but whitespace outside literals is lost.
  */
module AttributePositions {
  import opened Basics
  import opened AttributeText
  import opened AttributeWords

  /** How many backslashes stand directly before a position. */
  function Slashes(s: string, i: nat): nat
    requires i <= |s|
  {
    if i == 0 || s[i - 1] != '\\' then 0 else 1 + Slashes(s, i - 1)
  }

  /** A literal starts after a quote and goes on to the next quote that is not escaped. */
  predicate Inside(s: string, i: nat)
    requires i <= |s|
  {
    if i == 0 then false
    else if Inside(s, i - 1) then s[i - 1] != '"' || Slashes(s, i - 1) % 2 == 1
    else s[i - 1] == '"'
  }

  /** Whitespace that is not part of a literal. */
  predicate IsLoose(s: string, i: nat)
    requires i < |s|
  {
    IsWhitespace(s[i]) && !Inside(s, i)
  }

  /** Loose whitespace is one blank between two other characters, the first of which opens no bracket. */
  predicate BlankFits(s: string, i: nat)
    requires i < |s|
  {
    IsLoose(s, i) ==> s[i] == ' ' && 0 < i < |s| - 1 && !IsLoose(s, i - 1) && s[i - 1] !in "([{" && !IsWhitespace(s[i + 1])
  }

  /** The scanner after the first `i` characters. */
  function StateAt(s: string, i: nat): Scan
    requires i <= |s|
  {
    if i == 0 then START else Step(StateAt(s, i - 1), s[i - 1])
  }

  lemma {:induction false} StateIs(s: string, i: nat)
    requires i <= |s|
    ensures StateAt(s, i).Literal? <==> Inside(s, i)
    ensures StateAt(s, i).Literal? ==> (StateAt(s, i).escaped <==> Slashes(s, i) % 2 == 1)
    ensures StateAt(s, i).Outside? ==> if i == 0 then StateAt(s, i).last == None else !IsLoose(s, i - 1) ==> StateAt(s, i).last == Some(s[i - 1])
  {
    if i == 0 {
    } else {
      StateIs(s, i - 1);
    }
  }

  /** From a position on; whitespace before it has already been judged. */
  lemma {:induction false} TidyFrom(s: string, i: nat)
    requires i <= |s| && (0 < i < |s| && IsLoose(s, i - 1) ==> !IsWhitespace(s[i]))
    ensures Tidy(s[i..], StateAt(s, i)) <==> forall k: nat :: i <= k < |s| ==> BlankFits(s, k)
    decreases |s| - i
  {
    if i < |s| {
      StateIs(s, i);
      assert s[i..][1..] == s[i + 1..];
      if !IsLoose(s, i) || BlankFits(s, i) {
        TidyFrom(s, i + 1);
      }
      Brackets(if i > 0 then s[i - 1] else ' ');
    }
  }

  lemma Brackets(c: char)
    ensures IsOpenBracket(c) <==> c in "([{"
  {
  }

  /** A text is tidy iff every piece of loose whitespace in it is a blank that fits. */
  lemma TidyIff(s: string)
    ensures Tidy(s, START) <==> forall k: nat :: k < |s| ==> BlankFits(s, k)
  {
    assert s[0..] == s;
    TidyFrom(s, 0);
  }

  // ---------- What is kept ----------

  /** The characters from a position on that are not loose whitespace. */
  function Solid(s: string, i: nat): string
    requires i <= |s|
    decreases |s| - i
  {
    if i == |s| then "" else (if IsLoose(s, i) then "" else [s[i]]) + Solid(s, i + 1)
  }

  function Characters(tokens: seq<(bool, char)>): string {
    if |tokens| == 0 then "" else [tokens[0].1] + Characters(tokens[1..])
  }

  lemma {:induction false} TokensAreSolid(s: string, i: nat, gap: bool)
    requires i <= |s|
    ensures Characters(Tokens(s[i..], StateAt(s, i), gap)) == Solid(s, i)
    decreases |s| - i
  {
    if i < |s| {
      StateIs(s, i);
      assert s[i..][1..] == s[i + 1..];
      if IsLoose(s, i) {
        TokensAreSolid(s, i + 1, true);
      } else {
        TokensAreSolid(s, i + 1, false);
        var tokens := Tokens(s[i..], StateAt(s, i), gap);
        assert tokens[1..] == Tokens(s[i + 1..], StateAt(s, i + 1), false);
      }
    }
  }

  lemma {:induction false} SqueezeKeepsCharacters(tokens: seq<(bool, char)>, last: Option<char>)
    ensures Characters(Squeeze(tokens, last)) == Characters(tokens)
    decreases |tokens|
  {
    if |tokens| == 0 {
    } else {
      SqueezeKeepsCharacters(tokens[1..], Some(tokens[0].1));
      assert Squeeze(tokens, last)[1..] == Squeeze(tokens[1..], Some(tokens[0].1));
    }
  }

  /** The pass leaves a text in which every blank fits, and drops nothing but loose whitespace. */
  lemma CollapseKeepsSolid(s: string)
    ensures var t := Collapse(s, START, false);
            && (forall k: nat :: k < |t| ==> BlankFits(t, k))
            && Solid(t, 0) == Solid(s, 0)
  {
    var t := Collapse(s, START, false);
    CollapseSpec(s, t);
    TidyIff(t);
    assert s[0..] == s && t[0..] == t;
    TokensAreSolid(s, 0, false);
    TokensAreSolid(t, 0, false);
    SqueezeKeepsCharacters(Tokens(s, START, false), None);
  }
}
