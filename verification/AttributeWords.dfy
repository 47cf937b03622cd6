/**
  What the three whitespace passes do to words: which words the normalized text starts with, contains and ends in,
  said of the text before the passes with the scanner of the first one.
  */
module AttributeWords {
  import opened Basics
  import opened AttributeText

  // ---------- Plain words ----------

  /** Characters that no whitespace pass treats specially, except that an opening bracket ends a word. */
  predicate PlainChar(c: char) {
    !IsWhitespace(c) && c != ':' && c != '"' && c != '\\'
  }

  predicate AllPlain(w: string) {
    forall i :: 0 <= i < |w| ==> PlainChar(w[i])
  }

  predicate Word(w: string) {
    |w| > 0 && AllPlain(w) && forall i :: 0 <= i < |w| - 1 ==> !IsOpenBracket(w[i])
  }

  /** The scanner after one character of the text. */
  function Step(st: Scan, c: char): Scan {
    if st.Outside? && IsWhitespace(c) then st else Next(st, c)
  }

  // ---------- What the whitespace pass makes a text start with ----------

  /** The collapsed text starts with `w`. */
  predicate Loose(s: string, st: Scan, w: string)
    decreases |s|
  {
    |w| == 0 ||
    (|s| > 0 &&
     if st.Outside? && IsWhitespace(s[0]) then !WantsSpace(st) && Loose(s[1..], st, w)
     else s[0] == w[0] && Loose(s[1..], Next(st, s[0]), w[1..]))
  }

  lemma StartsAt(s: string, w: string, i: nat)
    requires i < |w|
    ensures StartsWith(s, w) ==> i < |s| && s[i] == w[i]
  {
    assert |w| <= |s| ==> s[..|w|][i] == s[i];
  }

  lemma StartsCons(c: char, t: string, w: string)
    requires |w| > 0
    ensures StartsWith([c] + t, w) <==> c == w[0] && StartsWith(t, w[1..])
  {
    if StartsWith([c] + t, w) {
      assert ([c] + t)[..|w|][0] == w[0];
      assert ([c] + t)[..|w|][1..] == t[..|w| - 1];
    }
    if c == w[0] && StartsWith(t, w[1..]) {
      assert ([c] + t)[..|w|] == [c] + t[..|w| - 1] == w;
    }
  }

  lemma {:induction false} PendingHead(s: string, st: Scan)
    requires WantsSpace(st)
    ensures |Collapse(s, st, true)| > 0 ==> Collapse(s, st, true)[0] == ' '
    decreases |s|
  {
    if |s| > 0 && IsWhitespace(s[0]) {
      PendingHead(s[1..], st);
    }
  }

  lemma {:induction false} CollapseStarts(s: string, st: Scan, pending: bool, w: string)
    requires AllPlain(w) && (pending ==> !WantsSpace(st))
    ensures StartsWith(Collapse(s, st, pending), w) <==> Loose(s, st, w)
    decreases |s|
  {
    if |w| == 0 {
      assert Collapse(s, st, pending)[..0] == "";
    } else if |s| == 0 {
    } else if st.Outside? && IsWhitespace(s[0]) {
      if WantsSpace(st) {
        PendingHead(s[1..], st);
        assert PlainChar(w[0]);
      } else {
        CollapseStarts(s[1..], st, st.last.Some?, w);
      }
    } else {
      var rest := Collapse(s[1..], Next(st, s[0]), false);
      assert "" + [s[0]] + rest == [s[0]] + rest;
      StartsCons(s[0], rest, w);
      CollapseStarts(s[1..], Next(st, s[0]), false, w[1..]);
    }
  }

  /** Inside a literal nothing is dropped. */
  lemma {:induction false} LooseInside(s: string, st: Scan, w: string)
    requires st.Literal? && AllPlain(w)
    ensures Loose(s, st, w) <==> StartsWith(s, w)
    decreases |s|
  {
    if |w| == 0 {
      assert s[..0] == "";
    } else if |s| > 0 {
      assert s == [s[0]] + s[1..];
      StartsCons(s[0], s[1..], w);
      if s[0] == w[0] {
        assert PlainChar(w[0]);
        LooseInside(s[1..], Next(st, s[0]), w[1..]);
      }
    }
  }

  /** After an opening bracket, and at the start, whitespace is dropped. */
  lemma {:induction false} LooseDrops(s: string, st: Scan, w: string)
    requires st.Outside? && !WantsSpace(st)
    ensures Loose(s, st, w) <==> Loose(TrimStart(s), st, w)
    decreases |s|
  {
    if |s| > 0 && IsWhitespace(s[0]) {
      LooseDrops(s[1..], st, w);
    }
  }

  /** Within a word no whitespace is dropped. */
  lemma {:induction false} LooseWord(s: string, st: Scan, w: string, rest: string)
    requires st.Outside? && Word(w) && (|s| > 0 ==> !IsWhitespace(s[0]))
    ensures Loose(s, st, w + rest) <==> StartsWith(s, w) && Loose(s[|w|..], Outside(Some(w[|w| - 1])), rest)
    decreases |w|
  {
    if |s| == 0 {
    } else {
      var all := w + rest;
      assert s == [s[0]] + s[1..];
      StartsCons(s[0], s[1..], w);
      if s[0] == w[0] {
        assert PlainChar(w[0]);
        assert all[1..] == w[1..] + rest;
        if |w| == 1 {
          assert w[1..] + rest == rest && s[1..][..0] == "";
        } else if |s| > 1 && IsWhitespace(s[1]) {
          assert PlainChar(w[1]) && s[1..] == [s[1]] + s[2..];
          StartsCons(s[1], s[2..], w[1..]);
        } else {
          LooseWord(s[1..], Next(st, s[0]), w[1..], rest);
          assert StartsWith(s, w) ==> s[1..][|w| - 1..] == s[|w|..];
        }
      }
    }
  }

  /** The collapsed text starts with a word: leading whitespace is dropped, nothing else. */
  lemma LooseFirst(s: string, st: Scan, w: string, rest: string)
    requires st.Outside? && !WantsSpace(st) && Word(w)
    ensures Loose(s, st, w + rest) <==>
            StartsWith(TrimStart(s), w) && Loose(TrimStart(s)[|w|..], Outside(Some(w[|w| - 1])), rest)
  {
    LooseDrops(s, st, w + rest);
    LooseWord(TrimStart(s), st, w, rest);
  }

  // ---------- Escaped cfgs ----------

  /** How an attribute opens: "#[" or "#![". */
  predicate Opening(head: string) {
    Word(head) && head[0] == '#' && head[|head| - 1] == '[' && (|head| == 2 || (|head| == 3 && head[1] == '!'))
  }

  /** A name with its opening bracket. */
  predicate Argument(body: string) {
    Word(body) && |body| >= 2 && body[|body| - 1] == '(' && forall i :: 0 <= i < |body| ==> body[i] !in "#)]"
  }

  /** How an escaped cfg goes on: "<cfg>(" or "<cfg_attr>(". */
  predicate Escaped(body: string) {
    Argument(body) && body[0] == '<'
  }

  /** The text starts with an opening and an escaped cfg, with whitespace between them. */
  predicate HiddenHere(s: string, head: string, body: string) {
    && StartsWith(s, head) && |s| > |head| && IsWhitespace(s[|head|])
    && StartsWith(TrimStart(s[|head|..]), body)
  }

  /** Somewhere outside literals whitespace stands between an opening and an escaped cfg. */
  predicate Hidden(s: string, st: Scan, head: string, body: string)
    decreases |s|
  {
    |s| > 0 && ((st.Outside? && HiddenHere(s, head, body)) || Hidden(s[1..], Step(st, s[0]), head, body))
  }

  lemma StartsConcat(s: string, a: string, b: string)
    ensures StartsWith(s, a + b) <==> StartsWith(s, a) && StartsWith(s[|a|..], b)
  {
    if StartsWith(s, a + b) {
      assert s[..|a|] == s[..|a + b|][..|a|] == a;
      assert s[|a|..][..|b|] == s[..|a + b|][|a|..] == b;
    }
    if StartsWith(s, a) && StartsWith(s[|a|..], b) {
      assert s[..|a| + |b|] == s[..|a|] + s[|a|..][..|b|];
    }
  }

  /** The collapsed text starts with an escaped cfg iff the text does or hides one here. */
  lemma LooseEscape(s: string, st: Scan, head: string, body: string)
    requires Opening(head) && Escaped(body) && |s| > 0 && !(st.Outside? && IsWhitespace(s[0]))
    ensures Loose(s, st, head + body) <==> StartsWith(s, head + body) || (st.Outside? && HiddenHere(s, head, body))
  {
    if st.Literal? {
      LooseInside(s, st, head + body);
    } else {
      StartsConcat(s, head, body);
      LooseWord(s, st, head, body);
      if StartsWith(s, head) {
        var rest, inside := s[|head|..], Outside(Some('['));
        LooseFirst(rest, inside, body, "");
        assert body + "" == body;
      }
    }
  }

  lemma HiddenFirst(s: string, head: string, body: string)
    requires |head| > 0
    ensures HiddenHere(s, head, body) ==> |s| > 0 && s[0] == head[0]
  {
    StartsAt(s, head, 0);
  }

  lemma ContainsCons(c: char, t: string, w: string)
    requires |w| > 0
    ensures Contains([c] + t, w) <==> StartsWith([c] + t, w) || Contains(t, w)
    ensures c != w[0] ==> (Contains([c] + t, w) <==> Contains(t, w))
  {
    assert ([c] + t)[1..] == t;
    StartsCons(c, t, w);
  }

  /** After the whitespace pass there is an escaped cfg iff there was one or whitespace hid one. */
  lemma {:induction false} CollapseContains(s: string, st: Scan, pending: bool, head: string, body: string)
    requires Opening(head) && Escaped(body)
    ensures Contains(Collapse(s, st, pending), head + body) <==> Contains(s, head + body) || Hidden(s, st, head, body)
    decreases |s|
  {
    NotWhitespace();
    assert AllPlain(head + body);
    hide IsWhitespace, HiddenHere, Loose, StartsWith, Contains, Escaped;
    var w := head + body;
    assert PlainChar(head[0]) && w[0] == head[0];
    if |s| == 0 {
      ContainsNone(w);
    } else {
      assert s == [s[0]] + s[1..];
      ContainsCons(s[0], s[1..], w);
      if st.Outside? && IsWhitespace(s[0]) {
        CollapseContains(s[1..], st, st.last.Some?, head, body);
        HiddenFirst(s, head, body);
      } else {
        var rest := Collapse(s[1..], Next(st, s[0]), false);
        CollapseContains(s[1..], Next(st, s[0]), false, head, body);
        ContainsKept(pending && WantsSpace(st), s[0], rest, w);
        assert Collapse(s, st, false) == [s[0]] + rest;
        CollapseStarts(s, st, false, w);
        LooseEscape(s, st, head, body);
      }
    }
  }

  lemma ContainsNone(w: string)
    requires |w| > 0
    ensures !Contains("", w)
  {
  }

  lemma ContainsKept(gap: bool, c: char, rest: string, w: string)
    requires |w| > 0 && w[0] != ' '
    ensures Contains((if gap then " " else "") + [c] + rest, w) <==> StartsWith([c] + rest, w) || Contains(rest, w)
  {
    hide Contains, StartsWith;
    ContainsCons(c, rest, w);
    ContainsCons(' ', [c] + rest, w);
    assert "" + [c] + rest == [c] + rest && " " + [c] + rest == [' '] + ([c] + rest);
  }

  // ---------- The passes after the whitespace pass ----------

  lemma {:induction false} SquashHeld(s: string, held: nat)
    requires held > 0
    ensures |Squash(s, held)| > 0 && (Squash(s, held)[0] == ' ' || Squash(s, held)[0] == ':')
    decreases |s|
  {
    if |s| > 0 && s[0] == ' ' {
      SquashHeld(s[1..], held + 1);
    }
  }

  /** The separator pass changes no start that is plain. */
  lemma {:induction false} SquashStarts(s: string, w: string)
    requires AllPlain(w)
    ensures StartsWith(Squash(s, 0), w) <==> StartsWith(s, w)
    decreases |s|
  {
    if |w| == 0 {
      assert s[..0] == "" && Squash(s, 0)[..0] == "";
    } else if |s| > 0 {
      assert PlainChar(w[0]) && w[0] != ' ';
      assert s == [s[0]] + s[1..];
      StartsCons(s[0], s[1..], w);
      if s[0] == ' ' {
        SquashHeld(s[1..], 1);
      } else if s[0] != ':' {
        assert Squash(s, 0) == [s[0]] + Squash(s[1..], 0);
        StartsCons(s[0], Squash(s[1..], 0), w);
        SquashStarts(s[1..], w[1..]);
      }
    }
  }

  lemma {:induction false} TrimStartContains(s: string, w: string)
    requires |w| > 0 && PlainChar(w[0])
    ensures Contains(s, w) <==> Contains(TrimStart(s), w)
    decreases |s|
  {
    if |s| > 0 && IsWhitespace(s[0]) {
      assert s == [s[0]] + s[1..];
      ContainsCons(s[0], s[1..], w);
      TrimStartContains(s[1..], w);
    }
  }

  lemma {:induction false} SpacesContain(n: nat, s: string, w: string)
    requires |w| > 0 && w[0] != ' '
    ensures Contains(Spaces(n) + s, w) <==> Contains(s, w)
  {
    if n == 0 {
      assert Spaces(0) + s == s;
    } else {
      SpacesFirst(n, s);
      assert Spaces(n) + s == [' '] + (Spaces(n - 1) + s);
      ContainsCons(' ', Spaces(n - 1) + s, w);
      SpacesContain(n - 1, s, w);
    }
  }

  lemma {:induction false} SquashContains(s: string, held: nat, w: string)
    requires |w| > 0 && AllPlain(w)
    ensures Contains(Squash(s, held), w) <==> Contains(s, w)
    decreases |s|
  {
    assert PlainChar(w[0]) && w[0] != ' ';
    if |s| == 0 {
      SpacesContain(held, "", w);
      assert Spaces(held) + "" == Spaces(held);
    } else {
      assert s == [s[0]] + s[1..];
      ContainsCons(s[0], s[1..], w);
      if s[0] == ' ' {
        SquashContains(s[1..], held + 1, w);
      } else if s[0] == ':' {
        var rest := TrimStart(s[1..]);
        TrimStartContains(s[1..], w);
        if |rest| > 0 && rest[0] == ':' {
          SquashContains(rest[1..], 0, w);
          assert rest == [':'] + rest[1..];
          ContainsCons(':', rest[1..], w);
          assert "::" + Squash(rest[1..], 0) == [':'] + ([':'] + Squash(rest[1..], 0));
          ContainsCons(':', Squash(rest[1..], 0), w);
          ContainsCons(':', [':'] + Squash(rest[1..], 0), w);
        } else {
          SquashContains(rest, 0, w);
          ContainsCons(':', Squash(rest, 0), w);
        }
      } else {
        var tail := [s[0]] + Squash(s[1..], 0);
        assert Spaces(held) + [s[0]] + Squash(s[1..], 0) == Spaces(held) + tail;
        SpacesContain(held, tail, w);
        SquashContains(s[1..], 0, w);
        ContainsCons(s[0], Squash(s[1..], 0), w);
        assert Squash(s, 0) == tail;
        SquashStarts(s, w);
      }
    }
  }

  /** Text without a colon is not the lint prefix, nor reaches past it. */
  predicate NoColon(w: string) {
    forall i :: 0 <= i < |w| ==> w[i] != ':'
  }

  lemma {:induction false} TrimStarts(s: string, w: string)
    requires NoColon(w)
    ensures StartsWith(Trim(s), w) <==> StartsWith(s, w)
    decreases |s|
  {
    if |w| == 0 {
      assert s[..0] == "" && Trim(s)[..0] == "";
    } else if StartsWith(s, CLIPPY) {
      var rest := Trim(TrimStart(s[|CLIPPY|..]));
      assert s == CLIPPY + s[|CLIPPY|..];
      ClippyStarts(s[|CLIPPY|..], rest, w);
    } else if |s| > 0 {
      assert s == [s[0]] + s[1..];
      StartsCons(s[0], s[1..], w);
      StartsCons(s[0], Trim(s[1..]), w);
      TrimStarts(s[1..], w[1..]);
    }
  }

  lemma ClippyStarts(a: string, b: string, w: string)
    requires NoColon(w)
    ensures StartsWith(CLIPPY + a, w) <==> StartsWith(CLIPPY + b, w)
  {
    assert CLIPPY[6] == ':';
    if |w| <= 8 {
      assert (CLIPPY + a)[..|w|] == CLIPPY[..|w|] == (CLIPPY + b)[..|w|];
    } else {
      StartsAt(CLIPPY + a, w, 6);
      StartsAt(CLIPPY + b, w, 6);
    }
  }

  lemma {:induction false} PastContains(a: string, s: string, w: string)
    requires |w| > 0 && w[0] !in a
    ensures Contains(a + s, w) <==> Contains(s, w)
  {
    if |a| == 0 {
      assert a + s == s;
    } else {
      assert a + s == [a[0]] + (a[1..] + s);
      ContainsCons(a[0], a[1..] + s, w);
      PastContains(a[1..], s, w);
    }
  }

  lemma {:induction false} TrimContains(s: string, w: string)
    requires |w| > 0 && AllPlain(w) && w[0] !in CLIPPY
    ensures Contains(Trim(s), w) <==> Contains(s, w)
    decreases |s|
  {
    assert NoColon(w) by {
      assert forall i :: 0 <= i < |w| ==> PlainChar(w[i]);
    }
    if StartsWith(s, CLIPPY) {
      var rest := s[|CLIPPY|..];
      assert s == CLIPPY + rest && PlainChar(w[0]);
      TrimStartContains(rest, w);
      TrimContains(TrimStart(rest), w);
      PastContains(CLIPPY, rest, w);
      PastContains(CLIPPY, Trim(TrimStart(rest)), w);
    } else if |s| > 0 {
      assert s == [s[0]] + s[1..];
      ContainsCons(s[0], s[1..], w);
      ContainsCons(s[0], Trim(s[1..]), w);
      TrimContains(s[1..], w);
      TrimStarts(s, w);
    }
  }

  /** An escaped cfg is in the normalized text iff it is in the text before the whitespace pass or hidden there. */
  lemma TailContains(s: string, head: string, body: string)
    requires Opening(head) && Escaped(body)
    ensures Contains(Tail(s), head + body) <==> Contains(s, head + body) || Hidden(s, START, head, body)
  {
    var w := head + body;
    assert w[0] == '#' && '#' !in CLIPPY;
    CollapseContains(s, START, false, head, body);
    SquashContains(Collapse(s, START, false), 0, w);
    TrimContains(Squash(Collapse(s, START, false), 0), w);
  }

  /** What the normalized text starts with. */
  lemma TailStarts(s: string, w: string)
    requires AllPlain(w)
    ensures StartsWith(Tail(s), w) <==> Loose(s, START, w)
  {
    CollapseStarts(s, START, false, w);
    SquashStarts(Collapse(s, START, false), w);
    assert forall i :: 0 <= i < |w| ==> PlainChar(w[i]);
    TrimStarts(Squash(Collapse(s, START, false), 0), w);
  }

  // ---------- What the passes make a text end in ----------

  lemma EqualCons(c: char, t: string, e: string)
    requires |e| > 0
    ensures [c] + t == e <==> c == e[0] && t == e[1..]
  {
    assert ([c] + t)[1..] == t;
    assert [e[0]] + e[1..] == e;
  }

  lemma EndsNone(e: string)
    requires |e| > 0
    ensures !EndsWith("", e)
  {
  }

  lemma EndsCons(c: char, t: string, e: string)
    requires |e| > 0
    ensures EndsWith([c] + t, e) <==> (c == e[0] && t == e[1..]) || EndsWith(t, e)
  {
    var all := [c] + t;
    EqualCons(c, t, e);
    if |e| <= |t| {
      assert all[|all| - |e|..] == t[|t| - |e|..];
    } else if |e| == |all| {
      assert all[0..] == all;
    }
  }

  /** The rest of the text is `e`, followed only by whitespace outside literals. */
  predicate LastWord(s: string, st: Scan, e: string)
    decreases |s|
  {
    if |e| > 0 then |s| > 0 && s[0] == e[0] && LastWord(s[1..], Next(st, s[0]), e[1..])
    else |s| == 0 || (st.Outside? && IsWhitespace(s[0]) && LastWord(s[1..], st, e))
  }

  /** The text ends in `e` when whitespace at its end and outside literals is not counted. */
  predicate Ends(s: string, st: Scan, e: string)
    decreases |s|
  {
    LastWord(s, st, e) || (|s| > 0 && Ends(s[1..], Step(st, s[0]), e))
  }

  /** Letters of a word that hold no opening bracket, so that whitespace between them is kept. */
  predicate Closing(e: string) {
    AllPlain(e) && forall i :: 0 <= i < |e| ==> !IsOpenBracket(e[i])
  }

  lemma {:induction false} CollapseIs(s: string, st: Scan, pending: bool, e: string)
    requires Closing(e) && (st.Outside? ==> WantsSpace(st)) && (st.Literal? ==> !pending)
    ensures !pending ==> (Collapse(s, st, pending) == e <==> LastWord(s, st, e))
    ensures pending ==> (Collapse(s, st, pending) == "" <==> LastWord(s, st, ""))
    decreases |s|
  {
    if |s| == 0 {
    } else {
      if st.Outside? && IsWhitespace(s[0]) {
        CollapseIs(s[1..], st, true, "");
        PendingHead(s[1..], st);
        assert |e| > 0 ==> PlainChar(e[0]);
      } else {
        var rest := Collapse(s[1..], Next(st, s[0]), false);
        assert "" + [s[0]] + rest == [s[0]] + rest;
        if |e| > 0 {
          EqualCons(s[0], rest, e);
        }
        if |e| > 0 && s[0] == e[0] {
          assert PlainChar(e[0]) && !IsOpenBracket(e[0]);
          CollapseIs(s[1..], Next(st, s[0]), false, e[1..]);
        }
      }
    }
  }

  lemma {:induction false} CollapseEnds(s: string, st: Scan, pending: bool, e: string)
    requires Closing(e) && |e| > 0 && (st.Literal? ==> !pending)
    ensures EndsWith(Collapse(s, st, pending), e) <==> Ends(s, st, e)
    decreases |s|
  {
    NotWhitespace();
    EndsNone(e);
    hide IsWhitespace, EndsWith;
    if |s| == 0 {
    } else {
      assert PlainChar(e[0]) && !IsOpenBracket(e[0]);
      if st.Outside? && IsWhitespace(s[0]) {
        CollapseEnds(s[1..], st, st.last.Some?, e);
      } else {
        var rest := Collapse(s[1..], Next(st, s[0]), false);
        CollapseEnds(s[1..], Next(st, s[0]), false, e);
        EndsCons(s[0], rest, e);
        EndsCons(' ', [s[0]] + rest, e);
        assert "" + [s[0]] + rest == [s[0]] + rest && " " + [s[0]] + rest == [' '] + ([s[0]] + rest);
        if s[0] == e[0] {
          CollapseIs(s[1..], Next(st, s[0]), false, e[1..]);
        }
      }
    }
  }

  lemma {:induction false} SquashIs(s: string, e: string)
    requires AllPlain(e)
    ensures Squash(s, 0) == e <==> s == e
    decreases |s|
  {
    if |s| == 0 {
      assert Squash(s, 0) == "";
    } else {
      assert |e| > 0 ==> PlainChar(e[0]) && e[0] != ' ';
      assert s == [s[0]] + s[1..];
      if s[0] == ' ' {
        SquashHeld(s[1..], 1);
      } else if s[0] != ':' {
        assert Squash(s, 0) == [s[0]] + Squash(s[1..], 0);
        if |e| > 0 {
          EqualCons(s[0], Squash(s[1..], 0), e);
          EqualCons(s[0], s[1..], e);
          SquashIs(s[1..], e[1..]);
        }
      }
    }
  }

  lemma {:induction false} PastEnds(a: string, s: string, e: string)
    requires |e| > 0 && e[0] !in a
    ensures EndsWith(a + s, e) <==> EndsWith(s, e)
  {
    if |a| == 0 {
      assert a + s == s;
    } else {
      assert a + s == [a[0]] + (a[1..] + s);
      EndsCons(a[0], a[1..] + s, e);
      PastEnds(a[1..], s, e);
    }
  }

  lemma {:induction false} TrimStartEnds(s: string, e: string)
    requires |e| > 0 && PlainChar(e[0])
    ensures EndsWith(s, e) <==> EndsWith(TrimStart(s), e)
    decreases |s|
  {
    if |s| > 0 && IsWhitespace(s[0]) {
      assert s == [s[0]] + s[1..];
      EndsCons(s[0], s[1..], e);
      TrimStartEnds(s[1..], e);
    }
  }

  lemma {:induction false} SquashEnds(s: string, held: nat, e: string)
    requires |e| > 0 && AllPlain(e)
    ensures EndsWith(Squash(s, held), e) <==> EndsWith(s, e)
    decreases |s|
  {
    assert PlainChar(e[0]) && e[0] != ' ';
    hide EndsWith, IsWhitespace;
    EndsNone(e);
    if |s| == 0 {
      PastEnds(Spaces(held), "", e);
      assert Spaces(held) + "" == Spaces(held);
    } else {
      assert s == [s[0]] + s[1..];
      EndsCons(s[0], s[1..], e);
      if s[0] == ' ' {
        SquashEnds(s[1..], held + 1, e);
      } else if s[0] == ':' {
        var rest := TrimStart(s[1..]);
        TrimStartEnds(s[1..], e);
        if |rest| > 0 && rest[0] == ':' {
          SquashEnds(rest[1..], 0, e);
          assert rest == [':'] + rest[1..];
          EndsCons(':', rest[1..], e);
          PastEnds("::", Squash(rest[1..], 0), e);
        } else {
          SquashEnds(rest, 0, e);
          PastEnds(":", Squash(rest, 0), e);
        }
      } else {
        var tail := [s[0]] + Squash(s[1..], 0);
        assert Spaces(held) + [s[0]] + Squash(s[1..], 0) == Spaces(held) + tail;
        PastEnds(Spaces(held), tail, e);
        SquashEnds(s[1..], 0, e);
        EndsCons(s[0], Squash(s[1..], 0), e);
        SquashIs(s[1..], e[1..]);
      }
    }
  }

  lemma {:induction false} TrimIs(s: string, e: string)
    requires NoColon(e)
    ensures Trim(s) == e <==> s == e
    decreases |s|
  {
    if StartsWith(s, CLIPPY) {
      assert CLIPPY[6] == ':' && s[..8][6] == s[6];
      assert Trim(s)[6] == ':';
    } else if |s| > 0 {
      assert s == [s[0]] + s[1..];
      if |e| > 0 {
        EqualCons(s[0], s[1..], e);
        EqualCons(s[0], Trim(s[1..]), e);
        TrimIs(s[1..], e[1..]);
      }
    }
  }

  lemma {:induction false} TrimEnds(s: string, e: string)
    requires |e| > 0 && AllPlain(e) && e[0] !in CLIPPY
    ensures EndsWith(Trim(s), e) <==> EndsWith(s, e)
    decreases |s|
  {
    assert NoColon(e) by {
      assert forall i :: 0 <= i < |e| ==> PlainChar(e[i]);
    }
    if StartsWith(s, CLIPPY) {
      var rest := s[|CLIPPY|..];
      assert s == CLIPPY + rest && PlainChar(e[0]);
      TrimStartEnds(rest, e);
      TrimEnds(TrimStart(rest), e);
      PastEnds(CLIPPY, rest, e);
      PastEnds(CLIPPY, Trim(TrimStart(rest)), e);
    } else if |s| > 0 {
      assert s == [s[0]] + s[1..];
      EndsCons(s[0], s[1..], e);
      EndsCons(s[0], Trim(s[1..]), e);
      TrimEnds(s[1..], e);
      TrimIs(s[1..], e[1..]);
    }
  }

  /** What the normalized text ends in. */
  lemma TailEnds(s: string, e: string)
    requires |e| > 0 && Closing(e) && e[0] !in CLIPPY
    ensures EndsWith(Tail(s), e) <==> Ends(s, START, e)
  {
    CollapseEnds(s, START, false, e);
    SquashEnds(Collapse(s, START, false), 0, e);
    TrimEnds(Squash(Collapse(s, START, false), 0), e);
  }
}
