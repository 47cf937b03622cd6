/**
  Attribute normalization of `generate_api` (`normalize_attribute` and its passes).

  Each pass is a loop over a growing buffer; the method is proved equal to a recursive function of
  the text still to be read, and what the pass promises is proved about that function. `Tidy`,
  `Joined` and `Trimmed` describe the fixed points of the three whitespace passes.
  */
module AttributeText {
  import opened Basics

  /** `char::is_whitespace` (the Unicode White_Space property). */
  predicate IsWhitespace(c: char) {
    || '\t' <= c <= '\r' || c == ' ' || c == '\U{0085}' || c == '\U{00A0}' || c == '\U{1680}'
    || '\U{2000}' <= c <= '\U{200A}' || c == '\U{2028}' || c == '\U{2029}' || c == '\U{202F}'
    || c == '\U{205F}' || c == '\U{3000}'
  }

  lemma NotWhitespace()
    ensures IsWhitespace(' ') && !IsWhitespace(':') && !IsWhitespace('"') && !IsWhitespace('\\')
    ensures forall c :: IsWhitespace(c) ==> !IsOpenBracket(c) && c != 'c'
  {
  }

  predicate IsOpenBracket(c: char) {
    c == '(' || c == '[' || c == '{'
  }

  function TrimStart(s: string): (t: string)
    ensures |t| <= |s|
    ensures |t| > 0 ==> !IsWhitespace(t[0])
  {
    if |s| > 0 && IsWhitespace(s[0]) then TrimStart(s[1..]) else s
  }

  method SkipWhitespace(s: string, i: nat) returns (j: nat)
    requires i <= |s|
    ensures i <= j <= |s| && s[j..] == TrimStart(s[i..])
  {
    j := i;
    while j < |s| && IsWhitespace(s[j])
      invariant i <= j <= |s| && TrimStart(s[j..]) == TrimStart(s[i..])
    {
      assert s[j..][1..] == s[j + 1..];
      j := j + 1;
    }
  }

  // ---------- collapse_attribute_whitespace ----------

  /** Where the scanner stands: outside literals, with the last character kept, or inside one. */
  datatype Scan = Outside(last: Option<char>) | Literal(escaped: bool)

  /** Keep one character. */
  function Next(st: Scan, c: char): Scan {
    match st
    case Outside(_) => if c == '"' then Literal(false) else Outside(Some(c))
    case Literal(true) => Literal(false)
    case Literal(false) => if c == '\\' then Literal(true) else if c == '"' then Outside(Some(c)) else Literal(false)
  }

  predicate WantsSpace(st: Scan) {
    st.Outside? && st.last.Some? && !IsOpenBracket(st.last.value)
  }

  function Collapse(s: string, st: Scan, pending: bool): string
    decreases |s|
  {
    if |s| == 0 then ""
    else if st.Outside? && IsWhitespace(s[0]) then Collapse(s[1..], st, st.last.Some?)
    else (if pending && WantsSpace(st) then " " else "") + [s[0]] + Collapse(s[1..], Next(st, s[0]), false)
  }

  const START := Outside(None)

  function Last(s: string): Option<char> {
    if |s| == 0 then None else Some(s[|s| - 1])
  }

  /** After one whitespace character the rest of its run changes nothing. */
  lemma {:induction false} CollapseSkips(s: string, st: Scan)
    requires st.Outside?
    ensures Collapse(s, st, st.last.Some?) == Collapse(TrimStart(s), st, st.last.Some?)
    decreases |s|
  {
    if |s| > 0 && IsWhitespace(s[0]) {
      CollapseSkips(s[1..], st);
    }
  }

  function ScanOf(normalized: string, inString: bool, previousWasEscape: bool): Scan {
    if inString then Literal(previousWasEscape) else Outside(Last(normalized))
  }

  lemma CollapseAtKept(base: string, s: string, st: Scan, pending: bool)
    requires |s| > 0 && !(st.Outside? && IsWhitespace(s[0]))
    ensures base + Collapse(s, st, pending) ==
            (if pending && WantsSpace(st) then base + " " else base) + [s[0]] + Collapse(s[1..], Next(st, s[0]), false)
  {
    var rest := Collapse(s[1..], Next(st, s[0]), false);
    assert base + ("" + [s[0]] + rest) == base + [s[0]] + rest;
    assert base + (" " + [s[0]] + rest) == base + " " + [s[0]] + rest;
  }

  /** One turn of the loop: the next character, or a whole run of whitespace. */
  method CollapseNext(attribute: string, i: nat, normalized: string, inString: bool, previousWasEscape: bool, pendingSpace: bool)
    returns (j: nat, out: string, inString': bool, previousWasEscape': bool, pendingSpace': bool)
    requires i < |attribute| && (inString ==> !pendingSpace) && (!inString ==> !previousWasEscape)
    ensures i < j <= |attribute| && (inString' ==> !pendingSpace') && (!inString' ==> !previousWasEscape')
    ensures normalized + Collapse(attribute[i..], ScanOf(normalized, inString, previousWasEscape), pendingSpace) ==
            out + Collapse(attribute[j..], ScanOf(out, inString', previousWasEscape'), pendingSpace')
  {
    out, inString', previousWasEscape', pendingSpace' := normalized, inString, previousWasEscape, pendingSpace;
    var ch := attribute[i];
    j := i + 1;
    assert attribute[i..][1..] == attribute[j..];
    ghost var st := ScanOf(normalized, inString, previousWasEscape);
    if inString || !IsWhitespace(ch) {
      CollapseAtKept(normalized, attribute[i..], st, pendingSpace);
    }
    if inString {
      out := out + [ch];
      if previousWasEscape {
        previousWasEscape' := false;
      } else if ch == '\\' {
        previousWasEscape' := true;
      } else if ch == '"' {
        inString' := false;
      }
      return;
    }
    if ch == '"' {
      if pendingSpace && |out| > 0 && !IsOpenBracket(out[|out| - 1]) {
        out := out + " ";
      }
      pendingSpace' := false;
      inString' := true;
      out := out + [ch];
      return;
    }
    if IsWhitespace(ch) {
      pendingSpace' := |out| > 0;
      CollapseSkips(attribute[j..], st);
      j := SkipWhitespace(attribute, j);
      return;
    }
    if pendingSpace && |out| > 0 && !IsOpenBracket(out[|out| - 1]) {
      out := out + " ";
    }
    pendingSpace' := false;
    out := out + [ch];
  }

  method CollapseAttributeWhitespace(attribute: string) returns (normalized: string)
    ensures normalized == Collapse(attribute, START, false)
  {
    normalized := "";
    var inString, previousWasEscape, pendingSpace := false, false, false;
    var i := 0;
    assert attribute[0..] == attribute;
    while i < |attribute|
      invariant 0 <= i <= |attribute|
      invariant (inString ==> !pendingSpace) && (!inString ==> !previousWasEscape)
      invariant Collapse(attribute, START, false) ==
                normalized + Collapse(attribute[i..], ScanOf(normalized, inString, previousWasEscape), pendingSpace)
    {
      i, normalized, inString, previousWasEscape, pendingSpace := CollapseNext(attribute, i, normalized, inString, previousWasEscape, pendingSpace);
    }
  }

  /** Outside literals: no leading, trailing, doubled or non-blank whitespace, and none after an opening bracket. */
  predicate Tidy(s: string, st: Scan)
    decreases |s|
  {
    if |s| == 0 then true
    else if st.Outside? && IsWhitespace(s[0]) then
      s[0] == ' ' && WantsSpace(st) && |s| > 1 && !IsWhitespace(s[1]) && Tidy(s[1..], st)
    else Tidy(s[1..], Next(st, s[0]))
  }

  lemma {:induction false} CollapseIsTidy(s: string, st: Scan, pending: bool)
    requires st.Literal? ==> !pending
    ensures Tidy(Collapse(s, st, pending), st)
    decreases |s|
  {
    if |s| == 0 {
    } else {
      if st.Outside? && IsWhitespace(s[0]) {
        CollapseIsTidy(s[1..], st, st.last.Some?);
      } else {
        var rest := Collapse(s[1..], Next(st, s[0]), false);
        CollapseIsTidy(s[1..], Next(st, s[0]), false);
        assert ([s[0]] + rest)[1..] == rest;
        assert Tidy([s[0]] + rest, st);
        assert "" + [s[0]] + rest == [s[0]] + rest;
        assert (" " + [s[0]] + rest)[1..] == [s[0]] + rest;
      }
    }
  }

  lemma {:induction false} TidyIsCollapsed(s: string, st: Scan)
    requires Tidy(s, st)
    ensures Collapse(s, st, false) == s
    decreases |s|
  {
    if |s| == 0 {
    } else {
      if st.Outside? && IsWhitespace(s[0]) {
        TidyIsCollapsed(s[1..], st);
        var rest := Collapse(s[1..][1..], Next(st, s[1]), false);
        assert Collapse(s[1..], st, false) == "" + [s[1]] + rest == [s[1]] + rest;
        assert Collapse(s, st, false) == Collapse(s[1..], st, true) == " " + [s[1]] + rest == " " + ([s[1]] + rest);
      } else {
        TidyIsCollapsed(s[1..], Next(st, s[0]));
        assert "" + [s[0]] + s[1..] == s;
      }
    }
  }

  lemma {:induction false} CollapseShrinks(s: string, st: Scan, pending: bool)
    ensures |Collapse(s, st, pending)| <= |s| + if pending then 1 else 0
    ensures |s| == 0 ==> Collapse(s, st, pending) == ""
    decreases |s|
  {
    if |s| == 0 {
    } else {
      if st.Outside? && IsWhitespace(s[0]) {
        CollapseShrinks(s[1..], st, st.last.Some?);
      } else {
        CollapseShrinks(s[1..], Next(st, s[0]), false);
      }
    }
  }

  /** The kept characters, each with whether whitespace stands before it; literal contents are kept whole. */
  function Tokens(s: string, st: Scan, gap: bool): seq<(bool, char)>
    decreases |s|
  {
    if |s| == 0 then []
    else if st.Outside? && IsWhitespace(s[0]) then Tokens(s[1..], st, true)
    else [(gap && st.Outside?, s[0])] + Tokens(s[1..], Next(st, s[0]), false)
  }

  /** The gaps that survive: not before the first character and not after an opening bracket. */
  function Squeeze(tokens: seq<(bool, char)>, last: Option<char>): seq<(bool, char)>
    decreases |tokens|
  {
    if |tokens| == 0 then []
    else [(tokens[0].0 && last.Some? && !IsOpenBracket(last.value), tokens[0].1)] + Squeeze(tokens[1..], Some(tokens[0].1))
  }

  function Print(tokens: seq<(bool, char)>): string {
    if |tokens| == 0 then ""
    else (if tokens[0].0 then " " else "") + [tokens[0].1] + Print(tokens[1..])
  }

  /** The pass prints the squeezed tokens. In a literal the last kept character does not matter. */
  lemma {:induction false} CollapsePrints(s: string, st: Scan, pending: bool, gap: bool, last: Option<char>)
    requires st.Outside? ==> last == st.last && pending == (gap && last.Some?)
    requires st.Literal? ==> !pending && !gap
    ensures Collapse(s, st, pending) == Print(Squeeze(Tokens(s, st, gap), last))
    decreases |s|
  {
    if |s| == 0 {
    } else {
      if st.Outside? && IsWhitespace(s[0]) {
        CollapsePrints(s[1..], st, st.last.Some?, true, last);
      } else {
        CollapsePrints(s[1..], Next(st, s[0]), false, false, Some(s[0]));
        var tokens := Tokens(s, st, gap);
        assert tokens[1..] == Tokens(s[1..], Next(st, s[0]), false);
        var squeezed := Squeeze(tokens, last);
        assert squeezed[1..] == Squeeze(tokens[1..], Some(s[0]));
      }
    }
  }

  lemma {:induction false} CollapseKeepsTokens(s: string, st: Scan, pending: bool, gap: bool, last: Option<char>)
    requires st.Outside? ==> last == st.last && pending == (gap && last.Some?)
    requires st.Literal? ==> !pending && !gap
    ensures Tokens(Collapse(s, st, pending), st, false) == Squeeze(Tokens(s, st, gap), last)
    decreases |s|
  {
    if |s| == 0 {
    } else {
      if st.Outside? && IsWhitespace(s[0]) {
        CollapseKeepsTokens(s[1..], st, st.last.Some?, true, last);
      } else {
        CollapseKeepsTokens(s[1..], Next(st, s[0]), false, false, Some(s[0]));
        var rest := Collapse(s[1..], Next(st, s[0]), false);
        var tokens := Tokens(s, st, gap);
        assert tokens[1..] == Tokens(s[1..], Next(st, s[0]), false);
        assert ([s[0]] + rest)[1..] == rest;
        assert forall g :: Tokens([s[0]] + rest, st, g) == [(g && st.Outside?, s[0])] + Tokens(rest, Next(st, s[0]), false);
        assert "" + [s[0]] + rest == [s[0]] + rest;
        assert (" " + [s[0]] + rest)[1..] == [s[0]] + rest;
      }
    }
  }

  /** The collapsed text is the only tidy text whose tokens are the squeezed tokens of the input. */
  lemma CollapseSpec(s: string, t: string)
    ensures t == Collapse(s, START, false) <==> Tidy(t, START) && Tokens(t, START, false) == Squeeze(Tokens(s, START, false), None)
  {
    CollapseIsTidy(s, START, false);
    CollapseKeepsTokens(s, START, false, false, None);
    if Tidy(t, START) && Tokens(t, START, false) == Squeeze(Tokens(s, START, false), None) {
      TidyIsCollapsed(t, START);
      CollapsePrints(t, START, false, false, None);
      CollapseKeepsTokens(t, START, false, false, None);
      CollapsePrints(s, START, false, false, None);
    }
  }

  // ---------- collapse_path_separator_whitespace ----------

  function Spaces(n: nat): (s: string)
    ensures |s| == n && forall i :: 0 <= i < n ==> s[i] == ' '
  {
    seq(n, _ => ' ')
  }

  /** `held` blanks have been written and may still be taken back by a colon. */
  function Squash(s: string, held: nat): string
    decreases |s|
  {
    if |s| == 0 then Spaces(held)
    else if s[0] == ' ' then Squash(s[1..], held + 1)
    else if s[0] == ':' then
      var rest := TrimStart(s[1..]);
      if |rest| > 0 && rest[0] == ':' then "::" + Squash(rest[1..], 0) else ":" + Squash(rest, 0)
    else Spaces(held) + [s[0]] + Squash(s[1..], 0)
  }

  method PopBlanks(s: string, ghost base: string, ghost held: nat) returns (popped: string)
    requires s == base + Spaces(held) && (|base| > 0 ==> base[|base| - 1] != ' ')
    ensures popped == base
  {
    popped := s;
    while |popped| > 0 && popped[|popped| - 1] == ' '
      invariant |base| <= |popped| && popped == base + Spaces(|popped| - |base|)
    {
      popped := popped[..|popped| - 1];
    }
  }

  ghost predicate EndsIn(s: string, base: string, held: nat) {
    s == base + Spaces(held) && (|base| > 0 ==> base[|base| - 1] != ' ')
  }

  lemma SquashAtColon(base: string, s: string, held: nat)
    requires |s| > 0 && s[0] == ':'
    ensures var rest := TrimStart(s[1..]);
            base + Squash(s, held) ==
            if |rest| > 0 && rest[0] == ':' then base + ":" + ":" + Squash(rest[1..], 0) else base + ":" + Squash(rest, 0)
  {
    var rest := TrimStart(s[1..]);
    if |rest| > 0 && rest[0] == ':' {
      assert base + ("::" + Squash(rest[1..], 0)) == base + ":" + ":" + Squash(rest[1..], 0);
    }
  }

  lemma SquashAtOther(base: string, s: string, held: nat)
    requires |s| > 0 && s[0] != ':'
    ensures base + Squash(s, held) ==
            if s[0] == ' ' then base + Squash(s[1..], held + 1) else base + Spaces(held) + [s[0]] + Squash(s[1..], 0)
  {
    assert base + (Spaces(held) + [s[0]] + Squash(s[1..], 0)) == base + Spaces(held) + [s[0]] + Squash(s[1..], 0);
  }

  /** A turn on a colon: the whole separator with the whitespace around it. */
  method SquashColon(attribute: string, i: nat, normalized: string, ghost base: string, ghost held: nat) returns (j: nat, out: string)
    requires i < |attribute| && attribute[i] == ':' && EndsIn(normalized, base, held)
    ensures i < j <= |attribute| && |out| > 0 && out[|out| - 1] == ':'
    ensures base + Squash(attribute[i..], held) == out + Squash(attribute[j..], 0)
  {
    hide IsWhitespace, TrimStart, Squash;
    assert attribute[i..][1..] == attribute[i + 1..];
    SquashAtColon(base, attribute[i..], held);
    out := PopBlanks(normalized, base, held);
    out := out + ":";
    j := SkipWhitespace(attribute, i + 1);
    if j < |attribute| && attribute[j] == ':' {
      assert attribute[j..][1..] == attribute[j + 1..];
      j := j + 1;
      out := out + ":";
    }
  }

  /** What any other character does to the blanks held back. */
  lemma SquashOther(attribute: string, i: nat, base: string, held: nat)
    requires i < |attribute| && attribute[i] != ':'
    ensures base + Squash(attribute[i..], held) ==
            if attribute[i] == ' ' then base + Squash(attribute[i + 1..], held + 1)
            else base + Spaces(held) + [attribute[i]] + Squash(attribute[i + 1..], 0)
    ensures Spaces(held) + " " == Spaces(held + 1)
  {
    hide Squash;
    assert attribute[i..][1..] == attribute[i + 1..];
    SquashAtOther(base, attribute[i..], held);
  }

  lemma EndsInItself(s: string)
    requires |s| > 0 ==> s[|s| - 1] != ' '
    ensures EndsIn(s, s, 0)
  {
    assert s + Spaces(0) == s;
  }

  method CollapsePathSeparatorWhitespace(attribute: string) returns (normalized: string)
    ensures normalized == Squash(attribute, 0)
  {
    normalized := "";
    ghost var base, held: nat := "", 0;
    var i := 0;
    while i < |attribute|
      invariant 0 <= i <= |attribute|
      invariant EndsIn(normalized, base, held)
      invariant Squash(attribute, 0) == base + Squash(attribute[i..], held)
    {
      if attribute[i] == ':' {
        i, normalized := SquashColon(attribute, i, normalized, base, held);
        base, held := normalized, 0;
      } else {
        SquashOther(attribute, i, base, held);
        normalized := normalized + [attribute[i]];
        if attribute[i] == ' ' {
          held := held + 1;
        } else {
          base, held := normalized, 0;
        }
        i := i + 1;
      }
      if held == 0 {
        EndsInItself(base);
      }
    }
  }

  /** No blank before a colon, and no whitespace after a colon that is not the second of a pair. */
  predicate Joined(s: string)
    decreases |s|
  {
    if |s| == 0 then true
    else if s[0] == ':' then
      if |s| > 1 && s[1] == ':' then Joined(s[2..]) else (|s| > 1 ==> !IsWhitespace(s[1])) && Joined(s[1..])
    else (s[0] == ' ' && |s| > 1 ==> s[1] != ':') && Joined(s[1..])
  }

  lemma {:induction false} SpacesJoined(n: nat, s: string)
    requires Joined(s) && (|s| > 0 ==> s[0] != ':')
    ensures Joined(Spaces(n) + s)
  {
    if n == 0 {
      assert Spaces(0) + s == s;
    } else {
      SpacesJoined(n - 1, s);
      assert (Spaces(n) + s)[1..] == Spaces(n - 1) + s;
    }
  }

  /** Text that starts with neither whitespace nor a colon keeps its first character. */
  lemma SquashHead(s: string)
    requires |s| > 0 && !IsWhitespace(s[0]) && s[0] != ':'
    ensures |Squash(s, 0)| > 0 && Squash(s, 0)[0] == s[0]
  {
    assert Squash(s, 0) == Spaces(0) + [s[0]] + Squash(s[1..], 0);
  }

  lemma {:induction false} SquashIsJoined(s: string, held: nat)
    ensures Joined(Squash(s, held))
    decreases |s|
  {
    if |s| == 0 {
      SpacesJoined(held, "");
      assert Spaces(held) + "" == Spaces(held);
    } else if s[0] == ' ' {
      SquashIsJoined(s[1..], held + 1);
    } else if s[0] == ':' {
      var rest := TrimStart(s[1..]);
      if |rest| > 0 && rest[0] == ':' {
        SquashIsJoined(rest[1..], 0);
        assert ("::" + Squash(rest[1..], 0))[2..] == Squash(rest[1..], 0);
      } else {
        SquashIsJoined(rest, 0);
        assert (":" + Squash(rest, 0))[1..] == Squash(rest, 0);
        if |rest| > 0 {
          SquashHead(rest);
        } else {
          assert Squash(rest, 0) == Spaces(0) == "";
        }
      }
    } else {
      SquashIsJoined(s[1..], 0);
      var tail := [s[0]] + Squash(s[1..], 0);
      assert tail[1..] == Squash(s[1..], 0);
      SquashFirst(s[1..], s[0]);
      SpacesJoined(held, tail);
      assert Spaces(held) + [s[0]] + Squash(s[1..], 0) == Spaces(held) + tail;
    }
  }

  /** A kept character that is no colon stays joined in front of squashed text. */
  lemma SquashFirst(s: string, c: char)
    requires c != ':' && c != ' ' && Joined(Squash(s, 0))
    ensures Joined([c] + Squash(s, 0))
  {
    assert ([c] + Squash(s, 0))[1..] == Squash(s, 0);
  }

  lemma {:induction false} JoinedIsSquashed(s: string, held: nat)
    requires Joined(s) && (held > 0 && |s| > 0 ==> s[0] != ':')
    ensures Squash(s, held) == Spaces(held) + s
    decreases |s|
  {
    if |s| == 0 {
    } else if s[0] == ' ' {
      JoinedIsSquashed(s[1..], held + 1);
      assert Spaces(held + 1) + s[1..] == Spaces(held) + s;
    } else if s[0] == ':' {
      assert Spaces(held) + s == s;
      if |s| > 1 && s[1] == ':' {
        assert TrimStart(s[1..]) == s[1..];
        JoinedIsSquashed(s[2..], 0);
        assert s[1..][1..] == s[2..];
        assert "::" + (Spaces(0) + s[2..]) == s;
      } else {
        assert TrimStart(s[1..]) == s[1..];
        JoinedIsSquashed(s[1..], 0);
        assert ":" + (Spaces(0) + s[1..]) == s;
      }
    } else {
      JoinedIsSquashed(s[1..], 0);
      assert Spaces(held) + [s[0]] + (Spaces(0) + s[1..]) == Spaces(held) + s;
    }
  }

  lemma {:induction false} SquashShrinks(s: string, held: nat)
    ensures |Squash(s, held)| <= |s| + held
    decreases |s|
  {
    if |s| == 0 {
    } else if s[0] == ' ' {
      SquashShrinks(s[1..], held + 1);
    } else if s[0] == ':' {
      var rest := TrimStart(s[1..]);
      if |rest| > 0 {
        SquashShrinks(rest[1..], 0);
      }
      SquashShrinks(rest, 0);
    } else {
      SquashShrinks(s[1..], 0);
    }
  }

  // ---------- The separator pass keeps text tidy, literals included ----------

  function AfterColon(st: Scan): Scan {
    if st.Outside? then Outside(Some(':')) else Literal(false)
  }

  function AfterBlanks(st: Scan, held: nat): Scan {
    if st.Outside? || held == 0 then st else Literal(false)
  }

  lemma SpacesFirst(held: nat, s: string)
    requires held > 0
    ensures (Spaces(held) + s)[0] == ' ' && (Spaces(held) + s)[1..] == Spaces(held - 1) + s
  {
  }

  /** Inside a literal any blanks just end an escape. */
  lemma {:induction false} TidyBlanksInside(held: nat, s: string, escaped: bool)
    ensures Tidy(Spaces(held) + s, Literal(escaped)) <==> Tidy(s, AfterBlanks(Literal(escaped), held))
    decreases held
  {
    if held == 0 {
      assert Spaces(0) + s == s;
    } else {
      SpacesFirst(held, s);
      TidyBlanksInside(held - 1, s, false);
    }
  }

  /** Outside literals tidy text has at most one blank in a row. */
  lemma TidyBlanks(held: nat, s: string, st: Scan)
    ensures Tidy(Spaces(held) + s, st) <==>
            && (held > 0 && st.Outside? ==> held == 1 && WantsSpace(st) && |s| > 0 && !IsWhitespace(s[0]))
            && Tidy(s, AfterBlanks(st, held))
  {
    NotWhitespace();
    hide IsWhitespace;
    if held == 0 {
      assert Spaces(0) + s == s;
    } else if st.Literal? {
      TidyBlanksInside(held, s, st.escaped);
    } else {
      SpacesFirst(held, s);
      if held == 1 {
        assert Spaces(0) + s == s;
      } else {
        SpacesFirst(held - 1, s);
      }
    }
  }

  lemma {:induction false} TidyTrimmed(s: string, st: Scan)
    requires st == Outside(Some(':')) || st == Literal(false)
    requires Tidy(s, st)
    ensures Tidy(TrimStart(s), st)
  {
    if |s| > 0 && IsWhitespace(s[0]) {
      TidyTrimmed(s[1..], st);
    }
  }

  lemma TidyColon(s: string, st: Scan)
    requires Tidy(s, AfterColon(st))
    ensures Tidy(":" + s, st)
  {
    assert (":" + s)[1..] == s;
  }

  /** A colon ends any escape, so taking whitespace back around it moves no literal boundary. */
  lemma {:induction false} SquashKeepsTidy(s: string, held: nat, st: Scan)
    requires Tidy(Spaces(held) + s, st)
    ensures Tidy(Squash(s, held), st)
    decreases |s|
  {
    NotWhitespace();
    hide IsWhitespace;
    TidyBlanks(held, s, st);
    if |s| == 0 {
      assert Spaces(held) + s == Spaces(held);
    } else if s[0] == ' ' {
      assert Spaces(held) + s == Spaces(held + 1) + s[1..];
      SquashKeepsTidy(s[1..], held + 1, st);
    } else if s[0] == ':' {
      var rest := TrimStart(s[1..]);
      TidyTrimmed(s[1..], AfterColon(st));
      if |rest| > 0 && rest[0] == ':' {
        assert Spaces(0) + rest[1..] == rest[1..];
        SquashKeepsTidy(rest[1..], 0, AfterColon(st));
        TidyColon(Squash(rest[1..], 0), AfterColon(st));
        TidyColon(":" + Squash(rest[1..], 0), st);
        assert ":" + (":" + Squash(rest[1..], 0)) == "::" + Squash(rest[1..], 0);
      } else {
        assert Spaces(0) + rest == rest;
        SquashKeepsTidy(rest, 0, AfterColon(st));
        TidyColon(Squash(rest, 0), st);
      }
    } else {
      var st' := AfterBlanks(st, held);
      assert Spaces(0) + s[1..] == s[1..];
      SquashKeepsTidy(s[1..], 0, Next(st', s[0]));
      var kept := [s[0]] + Squash(s[1..], 0);
      assert kept[1..] == Squash(s[1..], 0);
      TidyBlanks(held, kept, st);
      assert Spaces(held) + kept == Spaces(held) + [s[0]] + Squash(s[1..], 0);
    }
  }

  // ---------- collapse_clippy_lint_whitespace ----------

  const CLIPPY := "clippy::"

  predicate StartsWith(s: string, prefix: string) {
    |prefix| <= |s| && s[..|prefix|] == prefix
  }

  /** Drop the whitespace after every occurrence of `lint`. */
  function Trim(s: string, lint: string := CLIPPY): string
    requires |lint| > 0
    decreases |s|
  {
    if StartsWith(s, lint) then lint + Trim(TrimStart(s[|lint|..]), lint)
    else if |s| == 0 then ""
    else [s[0]] + Trim(s[1..], lint)
  }

  /** `str::find`. */
  function Find(s: string, pattern: string): (index: Option<nat>)
    ensures index.Some? ==> index.value + |pattern| <= |s|
    decreases |s|
  {
    if StartsWith(s, pattern) then Some(0)
    else if |s| == 0 then None
    else
      var rest := Find(s[1..], pattern);
      if rest.None? then None else Some(rest.value + 1)
  }

  /** It is the first index at which the pattern occurs. */
  lemma {:induction false} FindIsFirst(s: string, pattern: string, i: nat)
    requires i <= |s|
    ensures Find(s, pattern) == Some(i) ==> StartsWith(s[i..], pattern)
    ensures StartsWith(s[i..], pattern) ==> Find(s, pattern).Some? && Find(s, pattern).value <= i
    decreases |s|
  {
    if i == 0 {
      assert s[0..] == s;
    } else {
      assert s[1..][i - 1..] == s[i..];
      FindIsFirst(s[1..], pattern, i - 1);
    }
  }

  lemma SliceShift(s: string, n: nat, after: string)
    requires n < |s|
    ensures s[1..][n..] == s[n + 1..]
    ensures [s[0]] + (s[1..][..n] + after) == s[..n + 1] + after
  {
  }

  lemma {:induction false} TrimWithout(s: string, lint: string)
    requires |lint| > 0 && Find(s, lint).None?
    ensures Trim(s, lint) == s
    decreases |s|
  {
    if |s| == 0 {
    } else {
      TrimWithout(s[1..], lint);
      assert [s[0]] + s[1..] == s;
    }
  }

  /** Up to and including its first lint prefix a text is copied. */
  lemma {:induction false} TrimAtFirst(s: string, lint: string, i: nat)
    requires |lint| > 0 && Find(s, lint) == Some(i)
    ensures Trim(s, lint) == s[..i + |lint|] + Trim(TrimStart(s[i + |lint|..]), lint)
    decreases |s|
  {
    if i == 0 {
      assert StartsWith(s, lint);
    } else {
      assert !StartsWith(s, lint);
      hide StartsWith, TrimStart;
      TrimAtFirst(s[1..], lint, i - 1);
      SliceShift(s, i - 1 + |lint|, Trim(TrimStart(s[1..][i - 1 + |lint|..]), lint));
    }
  }

  lemma TrimNext(base: string, s: string, lint: string)
    requires |lint| > 0
    ensures var index := Find(s, lint);
            base + Trim(s, lint) ==
            if index.None? then base + s else base + s[..index.value + |lint|] + Trim(TrimStart(s[index.value + |lint|..]), lint)
  {
    if Find(s, lint).None? {
      TrimWithout(s, lint);
    } else {
      TrimAtFirst(s, lint, Find(s, lint).value);
    }
    hide Trim, TrimStart, Find;
  }

  method CollapseClippyLintWhitespace(attribute: string) returns (normalized: string)
    ensures normalized == Trim(attribute)
  {
    var remaining := attribute;
    normalized := "";
    var index := Find(remaining, CLIPPY);
    while index.Some?
      invariant index == Find(remaining, CLIPPY)
      invariant Trim(attribute) == normalized + Trim(remaining)
      decreases |remaining|
    {
      TrimNext(normalized, remaining, CLIPPY);
      normalized := normalized + remaining[..index.value + |CLIPPY|];
      remaining := TrimStart(remaining[index.value + |CLIPPY|..]);
      index := Find(remaining, CLIPPY);
    }
    TrimNext(normalized, remaining, CLIPPY);
    normalized := normalized + remaining;
  }

  /** No lint prefix is followed by whitespace. */
  predicate Trimmed(s: string)
    decreases |s|
  {
    if StartsWith(s, CLIPPY) then (|s| > |CLIPPY| ==> !IsWhitespace(s[|CLIPPY|])) && Trimmed(s[|CLIPPY|..])
    else if |s| == 0 then true
    else Trimmed(s[1..])
  }

  lemma TrimHead(s: string)
    ensures |s| == 0 ==> Trim(s) == ""
    ensures |s| > 0 ==> |Trim(s)| > 0 && Trim(s)[0] == s[0]
  {
    assert CLIPPY[0] == 'c';
  }

  /** Trimming makes no new occurrence of text without a 'c', so none of the lint prefix past its first letter. */
  lemma {:induction false} TrimMakesNone(s: string, w: string)
    requires 'c' !in w && StartsWith(Trim(s), w)
    ensures StartsWith(s, w)
    decreases |w|
  {
    if |w| == 0 {
    } else {
      TrimHead(s);
      assert Trim(s)[0] == w[0];
      assert CLIPPY[0] == 'c';
      if |s| > 0 && !StartsWith(s, CLIPPY) {
        assert Trim(s)[1..] == Trim(s[1..]);
        assert Trim(s[1..])[..|w| - 1] == Trim(s)[..|w|][1..];
        TrimMakesNone(s[1..], w[1..]);
        assert s[..|w|] == [s[0]] + s[1..][..|w| - 1];
      }
    }
  }

  lemma {:induction false} TrimIsTrimmed(s: string)
    ensures Trimmed(Trim(s))
    decreases |s|
  {
    if StartsWith(s, CLIPPY) {
      var rest := TrimStart(s[|CLIPPY|..]);
      TrimIsTrimmed(rest);
      TrimHead(rest);
      assert Trim(s)[|CLIPPY|..] == Trim(rest);
    } else if |s| > 0 {
      TrimIsTrimmed(s[1..]);
      assert Trim(s)[1..] == Trim(s[1..]);
      if StartsWith(Trim(s[1..]), "lippy::") {
        TrimMakesNone(s[1..], "lippy::");
        assert s[..8] == [s[0]] + s[1..][..7];
      } else if |Trim(s)| >= 8 {
        assert Trim(s)[..8][1..] == Trim(s[1..])[..7];
      }
    }
  }

  lemma {:induction false} TrimmedIsTrim(s: string)
    requires Trimmed(s)
    ensures Trim(s) == s
    decreases |s|
  {
    if StartsWith(s, CLIPPY) {
      assert TrimStart(s[|CLIPPY|..]) == s[|CLIPPY|..];
      TrimmedIsTrim(s[|CLIPPY|..]);
      assert CLIPPY + s[|CLIPPY|..] == s;
    } else if |s| > 0 {
      TrimmedIsTrim(s[1..]);
      assert [s[0]] + s[1..] == s;
    }
  }

  lemma {:induction false} TrimShrinks(s: string)
    ensures |Trim(s)| <= |s|
    decreases |s|
  {
    if StartsWith(s, CLIPPY) {
      TrimShrinks(TrimStart(s[|CLIPPY|..]));
    } else if |s| > 0 {
      TrimShrinks(s[1..]);
    }
  }

  // ---------- The lint pass keeps text joined and tidy ----------

  lemma {:induction false} JoinedTrimmed(s: string)
    requires Joined(s)
    ensures Joined(TrimStart(s))
  {
    if |s| > 0 && IsWhitespace(s[0]) {
      JoinedTrimmed(s[1..]);
    }
  }

  /** The lint prefix ends in a complete separator, so what follows it is judged on its own. */
  lemma JoinedPastClippy(s: string)
    ensures Joined(CLIPPY + s) <==> Joined(s)
  {
    var text := CLIPPY + s;
    assert text[6..] == "::" + s && text[6..][2..] == s;
    assert text[5..][1..] == text[6..] && text[4..][1..] == text[5..] && text[3..][1..] == text[4..];
    assert text[2..][1..] == text[3..] && text[1..][1..] == text[2..];
    assert text[1] != ':' && text[2] != ':' && text[3] != ':' && text[4] != ':' && text[5] != ':';
    assert Joined(text[6..]) == Joined(s);
    assert Joined(text[4..]) == Joined(text[5..]) == Joined(text[6..]);
    assert Joined(text[2..]) == Joined(text[3..]) == Joined(text[4..]);
    assert Joined(text) == Joined(text[1..]) == Joined(text[2..]);
  }

  lemma {:induction false} TrimKeepsJoined(s: string)
    requires Joined(s)
    ensures Joined(Trim(s))
    decreases |s|
  {
    if StartsWith(s, CLIPPY) {
      var rest := s[|CLIPPY|..];
      assert s == CLIPPY + rest;
      JoinedPastClippy(rest);
      JoinedTrimmed(rest);
      TrimKeepsJoined(TrimStart(rest));
      JoinedPastClippy(Trim(TrimStart(rest)));
    } else if |s| > 0 {
      TrimHead(s[1..]);
      assert Trim(s)[1..] == Trim(s[1..]);
      if s[0] == ':' && |s| > 1 && s[1] == ':' {
        assert s[1..][1..] == s[2..];
        assert Trim(s[1..])[1..] == Trim(s[2..]);
        assert Trim(s)[2..] == Trim(s[2..]);
        TrimKeepsJoined(s[2..]);
      } else {
        TrimKeepsJoined(s[1..]);
      }
    }
  }

  lemma TidyPastClippy(s: string, st: Scan)
    ensures Tidy(CLIPPY + s, st) <==> Tidy(s, AfterColon(st))
  {
    var text := CLIPPY + s;
    var plain := if st.Outside? then Outside(Some('c')) else Literal(false);
    assert text[8..] == s;
    assert forall i :: 0 <= i < 8 ==> text[i..][1..] == text[i + 1..];
    assert text[0..] == text;
    assert forall i :: 0 <= i < 8 ==> text[i] == CLIPPY[i];
    assert Tidy(text, st) == Tidy(text[1..], plain);
    TidyLetters(text[1..], plain, "lippy::");
    assert text[1..][7..] == s;
  }

  /** Letters and colons are read one by one and leave the scanner outside, or inside without an escape. */
  lemma {:induction false} TidyLetters(text: string, st: Scan, w: string)
    requires |w| > 0 && StartsWith(text, w)
    requires forall i :: 0 <= i < |w| ==> !IsWhitespace(w[i]) && w[i] != '"' && w[i] != '\\'
    ensures Tidy(text, st) <==> Tidy(text[|w|..], if st.Outside? then Outside(Some(w[|w| - 1])) else Literal(false))
    decreases |w|
  {
    assert text[0] == w[0];
    if |w| > 1 {
      assert text[1..][..|w| - 1] == text[..|w|][1..];
      TidyLetters(text[1..], Next(st, w[0]), w[1..]);
      assert text[1..][|w[1..]|..] == text[|w|..];
    }
  }

  lemma {:induction false} TrimKeepsTidy(s: string, st: Scan)
    requires Tidy(s, st)
    ensures Tidy(Trim(s), st)
    decreases |s|
  {
    if StartsWith(s, CLIPPY) {
      var rest := s[|CLIPPY|..];
      assert s == CLIPPY + rest;
      TidyPastClippy(rest, st);
      TidyTrimmed(rest, AfterColon(st));
      TrimKeepsTidy(TrimStart(rest), AfterColon(st));
      TidyPastClippy(Trim(TrimStart(rest)), st);
    } else if |s| > 0 {
      TrimHead(s[1..]);
      assert Trim(s)[1..] == Trim(s[1..]);
      TrimKeepsTidy(s[1..], if st.Outside? && IsWhitespace(s[0]) then st else Next(st, s[0]));
    }
  }

  // ---------- The three passes together ----------

  function Tail(s: string): string {
    Trim(Squash(Collapse(s, START, false), 0))
  }

  predicate Canonical(s: string) {
    Tidy(s, START) && Joined(s) && Trimmed(s)
  }

  lemma TailIsCanonical(s: string)
    ensures Canonical(Tail(s))
    ensures |Tail(s)| <= |s|
  {
    var a := Collapse(s, START, false);
    var b := Squash(a, 0);
    CollapseIsTidy(s, START, false);
    assert Spaces(0) + a == a;
    SquashKeepsTidy(a, 0, START);
    SquashIsJoined(a, 0);
    TrimKeepsTidy(b, START);
    TrimKeepsJoined(b);
    TrimIsTrimmed(b);
    CollapseShrinks(s, START, false);
    SquashShrinks(a, 0);
    TrimShrinks(b);
  }

  /** The fixed points of the composed passes are exactly the canonical texts. */
  lemma TailFixedIff(s: string)
    ensures Tail(s) == s <==> Canonical(s)
  {
    TailIsCanonical(s);
    if Canonical(s) {
      TidyIsCollapsed(s, START);
      JoinedIsSquashed(s, 0);
      assert Spaces(0) + s == s;
      TrimmedIsTrim(s);
    }
  }

  /** The last three passes are idempotent on every string. */
  lemma TailIdempotent(s: string)
    ensures Tail(Tail(s)) == Tail(s)
  {
    TailIsCanonical(s);
    TailFixedIff(Tail(s));
  }

  // ---------- The whole of normalize_attribute ----------

  /** `str::replace`. */
  function Replace(s: string, pattern: string, substitute: string): string
    requires |pattern| > 0
    decreases |s|
  {
    if StartsWith(s, pattern) then substitute + Replace(s[|pattern|..], pattern, substitute)
    else if |s| == 0 then ""
    else [s[0]] + Replace(s[1..], pattern, substitute)
  }

  predicate Contains(s: string, pattern: string) {
    StartsWith(s, pattern) || (|s| > 0 && Contains(s[1..], pattern))
  }

  lemma {:induction false} ReplaceShrinks(s: string, pattern: string, substitute: string)
    requires |substitute| < |pattern|
    ensures !Contains(s, pattern) ==> Replace(s, pattern, substitute) == s
    ensures Contains(s, pattern) ==> |Replace(s, pattern, substitute)| < |s|
    decreases |s|
  {
    if StartsWith(s, pattern) {
      ReplaceShrinks(s[|pattern|..], pattern, substitute);
    } else if |s| > 0 {
      ReplaceShrinks(s[1..], pattern, substitute);
    }
  }

  const CFG := "#[<cfg>("
  const INNER_CFG := "#![<cfg>("
  const CFG_ATTR := "#[<cfg_attr>("
  const INNER_CFG_ATTR := "#![<cfg_attr>("

  function Unescape(s: string): string {
    Replace(Replace(Replace(Replace(s, CFG, "#[cfg("), INNER_CFG, "#![cfg("), CFG_ATTR, "#[cfg_attr("), INNER_CFG_ATTR, "#![cfg_attr(")
  }

  predicate EndsWith(s: string, suffix: string) {
    |suffix| <= |s| && s[|s| - |suffix|..] == suffix
  }

  const PIN := "pin(__private("

  /** What stands between `<prefix>pin(__private(` and `))]`. */
  function PinInner(s: string, prefix: string): Option<string> {
    if !StartsWith(s, prefix) || !EndsWith(s[|prefix|..], "]") then None
    else
      var body := s[|prefix|..|s| - 1];
      if !StartsWith(body, PIN) || !EndsWith(body[|PIN|..], "))") then None
      else Some(body[|PIN|..|body| - 2])
  }

  function PinWith(s: string, prefix: string): Option<string> {
    var inner := PinInner(s, prefix);
    if inner.None? then None
    else if inner.value == "" then Some(prefix + "pin_project]")
    else Some(prefix + "pin_project(" + inner.value + ")]")
  }

  function NormalizePin(s: string): string {
    var outer := PinWith(s, "#[");
    if outer.Some? then outer.value
    else
      var inner := PinWith(s, "#![");
      if inner.Some? then inner.value else s
  }

  function NormalizeAttribute(s: string): string {
    Tail(NormalizePin(Unescape(s)))
  }

  /** One of the passes before the whitespace passes still has something to rewrite. */
  predicate HeadFires(s: string) {
    || Contains(s, CFG) || Contains(s, INNER_CFG) || Contains(s, CFG_ATTR) || Contains(s, INNER_CFG_ATTR)
    || PinInner(s, "#[").Some? || PinInner(s, "#![").Some?
  }

  lemma HeadShrinks(s: string)
    ensures !HeadFires(s) ==> NormalizePin(Unescape(s)) == s
    ensures HeadFires(s) ==> |NormalizePin(Unescape(s))| < |s|
  {
    var a := Replace(s, CFG, "#[cfg(");
    var b := Replace(a, INNER_CFG, "#![cfg(");
    var c := Replace(b, CFG_ATTR, "#[cfg_attr(");
    ReplaceShrinks(s, CFG, "#[cfg(");
    ReplaceShrinks(a, INNER_CFG, "#![cfg(");
    ReplaceShrinks(b, CFG_ATTR, "#[cfg_attr(");
    ReplaceShrinks(c, INNER_CFG_ATTR, "#![cfg_attr(");
    PinShrinks(Unescape(s));
  }

  lemma PinShrinks(s: string)
    ensures PinInner(s, "#[").None? && PinInner(s, "#![").None? ==> NormalizePin(s) == s
    ensures PinInner(s, "#[").Some? || PinInner(s, "#![").Some? ==> |NormalizePin(s)| < |s|
  {
  }

  /** A text is a fixed point iff it is canonical and no earlier pass fires on it. */
  lemma NormalizeFixedIff(s: string)
    ensures NormalizeAttribute(s) == s <==> Canonical(s) && !HeadFires(s)
  {
    HeadShrinks(s);
    TailIsCanonical(NormalizePin(Unescape(s)));
    TailFixedIff(s);
  }

  /** Normalizing a second time changes nothing exactly when no earlier pass fires on the first result. */
  lemma NormalizeTwiceIff(s: string)
    ensures NormalizeAttribute(NormalizeAttribute(s)) == NormalizeAttribute(s) <==> !HeadFires(NormalizeAttribute(s))
  {
    TailIsCanonical(NormalizePin(Unescape(s)));
    NormalizeFixedIff(NormalizeAttribute(s));
  }

  method Normalize(text: string) returns (normalized: string)
    ensures normalized == NormalizeAttribute(text)
  {
    normalized := Unescape(text);
    normalized := NormalizePin(normalized);
    normalized := CollapseAttributeWhitespace(normalized);
    normalized := CollapsePathSeparatorWhitespace(normalized);
    normalized := CollapseClippyLintWhitespace(normalized);
  }
}
