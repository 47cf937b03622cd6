/**
  When `normalize_attribute` is idempotent, said of the text before the call.

  The passes that rewrite escaped `cfg`s and pin wrappers run before whitespace is collapsed, so they miss what
  whitespace hides from them. What is hidden is described on the given text, with the scanner of the
  whitespace pass: after an opening bracket outside literals, and around the whole attribute.
  */
module AttributeIdempotence {
  import opened Basics
  import opened AttributeText
  import opened AttributeWords

  const LEFT_PAREN := '('
  const RIGHT_PAREN := ')'

  // ---------- Replacing the visible escapes ----------

  /** A word that starts with '#', holds no other, ends in '(' and closes nothing: escapes and what replaces them. */
  predicate Marked(w: string) {
    && |w| >= 4 && w[0] == '#' && AllPlain(w) && w[|w| - 1] == '('
    && (forall i :: 1 <= i < |w| ==> w[i] !in "#)]")
  }

  /** The first character after the opening bracket. */
  predicate OpensWith(w: string, c: char)
    requires |w| >= 4
  {
    (w[1] == '[' && w[2] == c) || (w[1] == '!' && w[2] == '[' && w[3] == c)
  }

  predicate Swap(pattern: string, substitute: string) {
    Marked(pattern) && Marked(substitute) && OpensWith(pattern, '<') && OpensWith(substitute, 'c')
  }

  lemma ReplaceFirst(s: string, pattern: string, substitute: string)
    requires Swap(pattern, substitute)
    ensures |Replace(s, pattern, substitute)| > 0 <==> |s| > 0
    ensures |s| > 0 ==> Replace(s, pattern, substitute)[0] == s[0]
  {
    StartsAt(s, pattern, 0);
  }

  lemma {:induction false} ReplaceTrims(s: string, pattern: string, substitute: string)
    requires Swap(pattern, substitute)
    ensures TrimStart(Replace(s, pattern, substitute)) == Replace(TrimStart(s), pattern, substitute)
    decreases |s|
  {
    ReplaceFirst(s, pattern, substitute);
    if |s| > 0 && IsWhitespace(s[0]) {
      assert PlainChar(pattern[0]);
      StartsAt(s, pattern, 0);
      ReplaceTrims(s[1..], pattern, substitute);
      assert Replace(s, pattern, substitute)[1..] == Replace(s[1..], pattern, substitute);
    }
  }

  predicate NoHash(w: string) {
    forall i :: 0 <= i < |w| ==> w[i] != '#'
  }

  /** Text without '#' is copied. */
  lemma {:induction false} ReplaceStarts(s: string, pattern: string, substitute: string, w: string)
    requires Swap(pattern, substitute) && NoHash(w)
    ensures StartsWith(Replace(s, pattern, substitute), w) <==> StartsWith(s, w)
    ensures StartsWith(s, w) ==> Replace(s, pattern, substitute)[|w|..] == Replace(s[|w|..], pattern, substitute)
    decreases |s|
  {
    if |w| == 0 {
      assert s[..0] == "" && s[0..] == s && Replace(s, pattern, substitute)[..0] == "";
    } else if |s| == 0 {
    } else {
      ReplaceFirst(s, pattern, substitute);
      StartsAt(s, pattern, 0);
      StartsAt(s, w, 0);
      StartsAt(Replace(s, pattern, substitute), w, 0);
      if !StartsWith(s, pattern) {
        assert s == [s[0]] + s[1..];
        StartsCons(s[0], s[1..], w);
        StartsCons(s[0], Replace(s[1..], pattern, substitute), w);
        ReplaceStarts(s[1..], pattern, substitute, w[1..]);
        assert StartsWith(s, w) ==> s[1..][|w| - 1..] == s[|w|..];
      }
    }
  }

  /** Where no pattern stands, a start that holds '#' only in front is copied too. */
  lemma ReplaceStartsMarked(s: string, pattern: string, substitute: string, w: string)
    requires Swap(pattern, substitute) && |w| > 0 && NoHash(w[1..]) && !StartsWith(s, pattern)
    ensures StartsWith(Replace(s, pattern, substitute), w) <==> StartsWith(s, w)
    ensures StartsWith(s, w) ==> Replace(s, pattern, substitute)[|w|..] == Replace(s[|w|..], pattern, substitute)
  {
    if |s| > 0 {
      assert s == [s[0]] + s[1..];
      StartsCons(s[0], s[1..], w);
      StartsCons(s[0], Replace(s[1..], pattern, substitute), w);
      ReplaceStarts(s[1..], pattern, substitute, w[1..]);
      assert StartsWith(s, w) ==> s[1..][|w| - 1..] == s[|w|..];
    }
  }

  /** Two marked words that open differently start no common text. */
  lemma OpensApart(s: string, a: string, c: char, b: string, d: char)
    requires |a| >= 4 && OpensWith(a, c) && |b| >= 4 && OpensWith(b, d) && c != d
    requires c !in "[!" && d !in "[!"
    ensures !(StartsWith(s, a) && StartsWith(s, b))
  {
    StartsAt(s, a, 1);
    StartsAt(s, a, 2);
    StartsAt(s, a, 3);
    StartsAt(s, b, 1);
    StartsAt(s, b, 2);
    StartsAt(s, b, 3);
  }

  lemma StartsOwn(w: string, s: string)
    ensures StartsWith(w + s, w) && (w + s)[|w|..] == s
  {
  }

  /** Past a word with '#' only in front. */
  lemma ContainsPastMarked(w: string, s: string, q: string)
    requires |w| > 0 && NoHash(w[1..]) && |q| > 0 && q[0] == '#' && !StartsWith(w + s, q)
    ensures Contains(w + s, q) <==> Contains(s, q)
  {
    hide Contains, StartsWith;
    assert w + s == [w[0]] + (w[1..] + s);
    ContainsCons(w[0], w[1..] + s, q);
    PastContains(w[1..], s, q);
  }

  lemma {:induction false} ContainsSuffix(s: string, n: nat, q: string)
    requires n <= |s| && !Contains(s, q)
    ensures !Contains(s[n..], q)
    decreases |s|
  {
    if n == 0 {
      assert s[0..] == s;
    } else {
      ContainsSuffix(s[1..], n - 1, q);
      assert s[1..][n - 1..] == s[n..];
    }
  }

  /** Replacing removes its own pattern and makes no other. */
  lemma {:induction false} ReplaceContains(s: string, pattern: string, substitute: string, q: string)
    requires Swap(pattern, substitute) && Marked(q) && OpensWith(q, '<') && (q == pattern || !Contains(s, q))
    ensures !Contains(Replace(s, pattern, substitute), q)
    decreases |s|
  {
    if StartsWith(s, pattern) {
      var rest := Replace(s[|pattern|..], pattern, substitute);
      if q != pattern {
        ContainsSuffix(s, |pattern|, q);
      }
      ReplaceContains(s[|pattern|..], pattern, substitute, q);
      StartsOwn(substitute, rest);
      OpensApart(substitute + rest, substitute, 'c', q, '<');
      ContainsPastMarked(substitute, rest, q);
    } else if |s| > 0 {
      if q != pattern {
        ContainsSuffix(s, 1, q);
      }
      ReplaceContains(s[1..], pattern, substitute, q);
      ReplaceStartsMarked(s, pattern, substitute, q);
      ContainsCons(s[0], Replace(s[1..], pattern, substitute), q);
    }
  }

  /** The scanner after a plain word. */
  function AfterWord(st: Scan, w: string): Scan
    requires |w| > 0
  {
    if st.Outside? then Outside(Some(w[|w| - 1])) else Literal(false)
  }

  lemma {:induction false} HiddenPastPlain(w: string, s: string, st: Scan, head: string, body: string)
    requires |w| > 0 && AllPlain(w) && NoHash(w) && Opening(head)
    ensures Hidden(w + s, st, head, body) <==> Hidden(s, AfterWord(st, w), head, body)
    decreases |w|
  {
    var all := w + s;
    HiddenFirst(all, head, body);
    assert PlainChar(w[0]) && all[1..] == w[1..] + s;
    if |w| == 1 {
      assert w[1..] + s == s;
    } else {
      HiddenPastPlain(w[1..], s, Next(st, w[0]), head, body);
    }
  }

  /** Past a word with '#' only in front, which is not the start of a hidden escape. */
  lemma HiddenPastMarked(w: string, s: string, st: Scan, head: string, body: string)
    requires |w| > 1 && AllPlain(w) && NoHash(w[1..]) && Opening(head) && !HiddenHere(w + s, head, body)
    ensures Hidden(w + s, st, head, body) <==> Hidden(s, AfterWord(st, w), head, body)
  {
    assert PlainChar(w[0]) && (w + s)[1..] == w[1..] + s;
    HiddenPastPlain(w[1..], s, Next(st, w[0]), head, body);
  }

  /** A word in which the opening bracket is followed by a plain character hides nothing. */
  lemma OpensPlainly(w: string, s: string, c: char, head: string, body: string)
    requires |w| >= 4 && OpensWith(w, c) && c !in "[!" && PlainChar(c) && Opening(head)
    ensures !HiddenHere(w + s, head, body)
  {
    StartsAt(w + s, head, 1);
    assert |head| == 3 ==> head[2] == '[' && head[1] == '!';
    assert |head| == 2 ==> head[1] == '[';
    if |head| == 3 {
      StartsAt(w + s, head, 2);
    }
  }

  lemma HiddenReplaced(s: string, pattern: string, substitute: string, head: string, body: string)
    requires Swap(pattern, substitute) && Opening(head) && Escaped(body) && !StartsWith(s, pattern)
    ensures HiddenHere(Replace(s, pattern, substitute), head, body) <==> HiddenHere(s, head, body)
  {
    ReplaceStartsMarked(s, pattern, substitute, head);
    if StartsWith(s, head) {
      var rest := s[|head|..];
      ReplaceFirst(rest, pattern, substitute);
      ReplaceTrims(rest, pattern, substitute);
      ReplaceStarts(TrimStart(rest), pattern, substitute, body);
      var out := Replace(s, pattern, substitute);
      assert out[|head|..] == Replace(rest, pattern, substitute);
      assert |out| > |head| ==> out[|head|] == out[|head|..][0];
      assert |s| > |head| ==> s[|head|] == rest[0];
    }
  }

  /** Replacing visible escapes neither hides nor shows one. */
  lemma {:induction false} ReplaceHidden(s: string, st: Scan, pattern: string, substitute: string, head: string, body: string)
    requires Swap(pattern, substitute) && Opening(head) && Escaped(body)
    ensures Hidden(Replace(s, pattern, substitute), st, head, body) <==> Hidden(s, st, head, body)
    decreases |s|
  {
    if StartsWith(s, pattern) {
      var rest := s[|pattern|..];
      var out := Replace(rest, pattern, substitute);
      assert s == pattern + rest;
      OpensPlainly(pattern, rest, '<', head, body);
      OpensPlainly(substitute, out, 'c', head, body);
      HiddenPastMarked(pattern, rest, st, head, body);
      HiddenPastMarked(substitute, out, st, head, body);
      ReplaceHidden(rest, AfterWord(st, pattern), pattern, substitute, head, body);
    } else if |s| > 0 {
      var out := Replace(s, pattern, substitute);
      assert out[0] == s[0] && out[1..] == Replace(s[1..], pattern, substitute);
      HiddenReplaced(s, pattern, substitute, head, body);
      ReplaceHidden(s[1..], Step(st, s[0]), pattern, substitute, head, body);
    }
  }

  // ---------- Ends and replacement ----------

  lemma {:induction false} ReplaceLastWord(s: string, st: Scan, pattern: string, substitute: string, e: string)
    requires Swap(pattern, substitute) && NoHash(e)
    ensures LastWord(Replace(s, pattern, substitute), st, e) <==> LastWord(s, st, e)
    decreases |s|
  {
    ReplaceFirst(s, pattern, substitute);
    StartsAt(s, pattern, 0);
    if |s| == 0 {
    } else {
      assert PlainChar(pattern[0]);
      if !StartsWith(s, pattern) {
        var out := Replace(s, pattern, substitute);
        assert out[1..] == Replace(s[1..], pattern, substitute);
        if |e| > 0 {
          ReplaceLastWord(s[1..], Next(st, s[0]), pattern, substitute, e[1..]);
        } else {
          ReplaceLastWord(s[1..], st, pattern, substitute, e);
        }
      }
    }
  }

  lemma {:induction false} EndsPast(w: string, s: string, st: Scan, e: string)
    requires |w| > 0 && AllPlain(w) && |e| > 0 && e[0] !in w
    ensures Ends(w + s, st, e) <==> Ends(s, AfterWord(st, w), e)
    decreases |w|
  {
    var all := w + s;
    assert PlainChar(w[0]) && all[0] == w[0] && all[1..] == w[1..] + s;
    if |w| == 1 {
      assert w[1..] + s == s;
    } else {
      EndsPast(w[1..], s, Next(st, w[0]), e);
    }
  }

  lemma {:induction false} ReplaceEnds(s: string, st: Scan, pattern: string, substitute: string, e: string)
    requires Swap(pattern, substitute) && NoHash(e) && |e| > 0 && e[0] == RIGHT_PAREN
    ensures Ends(Replace(s, pattern, substitute), st, e) <==> Ends(s, st, e)
    decreases |s|
  {
    if StartsWith(s, pattern) {
      var rest := s[|pattern|..];
      assert s == pattern + rest;
      EndsPast(pattern, rest, st, e);
      EndsPast(substitute, Replace(rest, pattern, substitute), st, e);
      ReplaceEnds(rest, AfterWord(st, pattern), pattern, substitute, e);
    } else if |s| > 0 {
      var out := Replace(s, pattern, substitute);
      assert out[0] == s[0] && out[1..] == Replace(s[1..], pattern, substitute);
      ReplaceLastWord(s, st, pattern, substitute, e);
      ReplaceEnds(s[1..], Step(st, s[0]), pattern, substitute, e);
    }
  }

  lemma {:induction false} ReplaceIs(s: string, pattern: string, substitute: string, e: string)
    requires Swap(pattern, substitute) && NoHash(e)
    ensures Replace(s, pattern, substitute) == e <==> s == e
    decreases |s|
  {
    ReplaceFirst(s, pattern, substitute);
    StartsAt(s, pattern, 0);
    if |s| > 0 && !StartsWith(s, pattern) && |e| > 0 {
      assert s == [s[0]] + s[1..];
      EqualCons(s[0], s[1..], e);
      EqualCons(s[0], Replace(s[1..], pattern, substitute), e);
      ReplaceIs(s[1..], pattern, substitute, e[1..]);
    }
  }

  lemma {:induction false} ReplaceEndsWith(s: string, pattern: string, substitute: string, e: string)
    requires Swap(pattern, substitute) && NoHash(e) && |e| > 0 && e[0] == RIGHT_PAREN
    ensures EndsWith(Replace(s, pattern, substitute), e) <==> EndsWith(s, e)
    decreases |s|
  {
    if StartsWith(s, pattern) {
      var rest := s[|pattern|..];
      assert s == pattern + rest;
      PastEnds(pattern, rest, e);
      PastEnds(substitute, Replace(rest, pattern, substitute), e);
      ReplaceEndsWith(rest, pattern, substitute, e);
    } else if |s| > 0 {
      assert s == [s[0]] + s[1..];
      EndsCons(s[0], s[1..], e);
      EndsCons(s[0], Replace(s[1..], pattern, substitute), e);
      ReplaceIs(s[1..], pattern, substitute, e[1..]);
      ReplaceEndsWith(s[1..], pattern, substitute, e);
    }
  }

  // ---------- Pin wrappers ----------

  const CLOSE := "))]"

  /** An opening, "pin(" and "__private(", up to whitespace in front and after opening brackets. */
  predicate PinStart(s: string, head: string) {
    var a := TrimStart(s);
    && StartsWith(a, head)
    && var b := TrimStart(a[|head|..]);
       StartsWith(b, "pin(") && StartsWith(TrimStart(b[4..]), "__private(")
  }

  lemma PinWords()
    ensures Word("pin(") && Word("__private(")
    ensures PIN == "pin(" + "__private(" && AllPlain(PIN) && NoHash(PIN)
  {
    assert Word("pin(");
    PrivateWord();
  }

  lemma PrivateWord()
    ensures Word("__private(")
  {
  }

  lemma Openings()
    ensures Opening("#[") && Opening("#![")
  {
  }

  lemma Closes()
    ensures Closing(CLOSE) && NoHash(CLOSE) && CLOSE[0] == RIGHT_PAREN && CLOSE[0] !in CLIPPY
  {
  }

  lemma LoosePin(s: string, head: string)
    requires Opening(head)
    ensures Loose(s, START, head + PIN) <==> PinStart(s, head)
  {
    PinWords();
    var a := TrimStart(s);
    LooseFirst(s, START, head, PIN);
    if StartsWith(a, head) {
      var rest, inside := a[|head|..], Outside(Some('['));
      LooseFirst(rest, inside, "pin(", "__private(");
      var b := TrimStart(rest);
      if StartsWith(b, "pin(") {
        assert "pin("[3] == '(';
        LooseFirst(b[4..], Outside(Some('(')), "__private(", "");
        assert "__private(" + "" == "__private(";
      }
    }
  }

  lemma ReplacePinStart(s: string, pattern: string, substitute: string, head: string)
    requires Swap(pattern, substitute) && Opening(head)
    ensures PinStart(Replace(s, pattern, substitute), head) <==> PinStart(s, head)
  {
    var a := TrimStart(s);
    ReplaceTrims(s, pattern, substitute);
    if StartsWith(a, pattern) {
      var rest := a[|pattern|..];
      assert a == pattern + rest;
      NoPinStart(pattern, '<', rest, head);
      NoPinStart(substitute, 'c', Replace(rest, pattern, substitute), head);
    } else {
      ReplaceStartsMarked(a, pattern, substitute, head);
      if StartsWith(a, head) {
        PinRest(a[|head|..], pattern, substitute);
      }
    }
  }

  lemma PinRest(s: string, pattern: string, substitute: string)
    requires Swap(pattern, substitute)
    ensures var b, c := TrimStart(s), TrimStart(Replace(s, pattern, substitute));
            (StartsWith(c, "pin(") && StartsWith(TrimStart(c[4..]), "__private("))
            <==> (StartsWith(b, "pin(") && StartsWith(TrimStart(b[4..]), "__private("))
  {
    assert NoHash("pin(") && NoHash("__private(");
    hide StartsWith, TrimStart, Replace, Swap, NoHash;
    var b := TrimStart(s);
    ReplaceTrims(s, pattern, substitute);
    ReplaceStarts(b, pattern, substitute, "pin(");
    if StartsWith(b, "pin(") {
      ReplaceTrims(b[4..], pattern, substitute);
      ReplaceStarts(TrimStart(b[4..]), pattern, substitute, "__private(");
    }
  }

  lemma NoPinStart(w: string, c: char, s: string, head: string)
    requires |w| >= 4 && AllPlain(w) && OpensWith(w, c) && c !in "[!p" && Opening(head)
    ensures TrimStart(w + s) == w + s
    ensures StartsWith(w + s, head) ==> !StartsWith(TrimStart((w + s)[|head|..]), "pin(")
  {
    var all := w + s;
    assert PlainChar(w[0]) && PlainChar(w[2]) && PlainChar(w[3]);
    StartsAt(all, head, 1);
    if |head| == 3 {
      StartsAt(all, head, 2);
    }
    if StartsWith(all, head) {
      var rest := all[|head|..];
      assert rest[0] == all[|head|] == c;
      StartsAt(rest, "pin(", 0);
    }
  }

  lemma StartsSplit(s: string, w: string)
    ensures StartsWith(s, w) ==> s == w + s[|w|..]
  {
    assert |w| <= |s| ==> s == s[..|w|] + s[|w|..];
  }

  lemma EndsSplit(s: string, e: string)
    ensures EndsWith(s, e) ==> s == s[..|s| - |e|] + e
  {
    assert |e| <= |s| ==> s == s[..|s| - |e|] + s[|s| - |e|..];
  }

  lemma EndsOwn(s: string, e: string)
    ensures EndsWith(s + e, e) && (s + e)[..|s|] == s
  {
  }

  function Wrapper(head: string, inner: string): string {
    head + PIN + inner + CLOSE
  }

  lemma WrapperParts(head: string, inner: string)
    ensures Wrapper(head, inner) == head + (PIN + (inner + "))") + "]")
    ensures Wrapper(head, inner) == (head + PIN) + (inner + CLOSE) == (head + PIN + inner) + CLOSE
  {
    assert CLOSE == "))" + "]";
  }

  lemma WrapperIsPin(head: string, inner: string)
    ensures PinInner(Wrapper(head, inner), head) == Some(inner)
  {
    var z := inner + "))";
    var y := PIN + z;
    WrapperParts(head, inner);
    StartsOwn(head, y + "]");
    EndsOwn(y, "]");
    StartsOwn(PIN, z);
    EndsOwn(inner, "))");
    hide StartsWith, EndsWith;
    var s := Wrapper(head, inner);
    assert s[|head|..|s| - 1] == s[|head|..][..|y|] == y;
    assert y[|PIN|..|y| - 2] == y[|PIN|..][..|inner|] == inner;
  }

  lemma PinIsWrapper(s: string, head: string)
    ensures PinInner(s, head).Some? ==> s == Wrapper(head, PinInner(s, head).value)
  {
    if PinInner(s, head).Some? {
      var x := s[|head|..];
      var y := s[|head|..|s| - 1];
      var z := y[|PIN|..];
      StartsSplit(s, head);
      EndsSplit(x, "]");
      StartsSplit(y, PIN);
      EndsSplit(z, "))");
      assert x[..|x| - 1] == y && z[..|z| - 2] == y[|PIN|..|y| - 2];
      WrapperParts(head, PinInner(s, head).value);
    }
  }

  /** A text is a wrapper iff it starts and ends like one; the two parts cannot overlap. */
  lemma PinInnerIff(s: string, head: string)
    requires Opening(head)
    ensures PinInner(s, head).Some? <==> StartsWith(s, head + PIN) && EndsWith(s, CLOSE)
  {
    var w := head + PIN;
    PinIsWrapper(s, head);
    assert ')' !in w;
    hide PinInner, StartsWith, EndsWith, Wrapper;
    if PinInner(s, head).Some? {
      var inner := PinInner(s, head).value;
      WrapperParts(head, inner);
      StartsOwn(w, inner + CLOSE);
      EndsOwn(w + inner, CLOSE);
    }
    if StartsWith(s, w) && EndsWith(s, CLOSE) {
      var n := |s| - 3;
      EndsSplit(s, CLOSE);
      assert s[n] == CLOSE[0];
      NoClose(s, w, n);
      StartsSplit(s, w);
      var inner := s[|w|..n];
      assert s == w + inner + CLOSE;
      WrapperParts(head, inner);
      assert s == Wrapper(head, inner);
      WrapperIsPin(head, inner);
    }
  }

  lemma NoClose(s: string, w: string, i: nat)
    requires i < |s| && StartsWith(s, w) && s[i] == RIGHT_PAREN && RIGHT_PAREN !in w
    ensures i >= |w|
  {
    if i < |w| {
      StartsAt(s, w, i);
    }
  }

  // ---------- The pin pass ----------

  lemma StartsTail(s: string, z: string, w: string)
    requires |z| > 0 && z[0] !in w
    ensures StartsWith(s + z, w) <==> StartsWith(s, w)
  {
    if |w| > |s| {
      StartsAt(s + z, w, |s|);
    } else {
      assert (s + z)[..|w|] == s[..|w|];
    }
  }

  lemma {:induction false} TrimTail(s: string, z: string)
    requires |z| > 0 && !IsWhitespace(z[0])
    ensures TrimStart(s + z) == TrimStart(s) + z
    decreases |s|
  {
    if |s| == 0 {
      assert s + z == z;
    } else {
      assert (s + z)[1..] == s[1..] + z;
      if IsWhitespace(s[0]) {
        TrimTail(s[1..], z);
      }
    }
  }

  /** Closing brackets at the end. */
  predicate Closers(z: string) {
    |z| > 0 && forall i :: 0 <= i < |z| ==> z[i] in ")]"
  }

  lemma HiddenHereTail(s: string, z: string, head: string, body: string)
    requires Closers(z) && Opening(head) && Escaped(body)
    ensures HiddenHere(s + z, head, body) <==> HiddenHere(s, head, body)
  {
    StartsTail(s, z, head);
    if StartsWith(s, head) {
      var rest := s[|head|..];
      assert (s + z)[|head|..] == rest + z;
      TrimTail(rest, z);
      StartsTail(TrimStart(rest), z, body);
      assert |s| > |head| ==> (s + z)[|head|] == s[|head|];
    }
  }

  lemma {:induction false} HiddenTail(s: string, z: string, st: Scan, head: string, body: string)
    requires Closers(z) && Opening(head) && Escaped(body)
    ensures Hidden(s + z, st, head, body) <==> Hidden(s, st, head, body)
    decreases |s|
  {
    if |s| == 0 {
      assert s + z == z + "";
      HiddenPastPlain(z, "", st, head, body);
    } else {
      assert (s + z)[0] == s[0] && (s + z)[1..] == s[1..] + z;
      HiddenHereTail(s, z, head, body);
      HiddenTail(s[1..], z, Step(st, s[0]), head, body);
    }
  }

  lemma {:induction false} ContainsTail(s: string, z: string, q: string)
    requires Closers(z) && Marked(q)
    ensures Contains(s + z, q) <==> Contains(s, q)
    decreases |s|
  {
    if |s| == 0 {
      assert s + z == z + "";
      PastContains(z, "", q);
    } else {
      assert s + z == [s[0]] + (s[1..] + z) && s == [s[0]] + s[1..];
      ContainsCons(s[0], s[1..] + z, q);
      ContainsCons(s[0], s[1..], q);
      StartsTail(s, z, q);
      ContainsTail(s[1..], z, q);
    }
  }

  const PROJECT := "pin_project"

  predicate Name(name: string) {
    |name| >= 2 && name[0] == 'p' && AllPlain(name) && NoHash(name)
  }

  /** An opening followed by a name, in front of anything. */
  predicate Attribute(w: string, head: string, name: string) {
    Opening(head) && w == head + name && Name(name)
  }

  lemma AttributeHides(w: string, head: string, name: string, s: string, st: Scan, outer: string, body: string)
    requires Attribute(w, head, name) && Opening(outer)
    ensures Hidden(w + s, st, outer, body) <==> Hidden(s, AfterWord(st, name), outer, body)
  {
    assert OpensWith(w, 'p');
    OpensPlainly(w, s, 'p', outer, body);
    HiddenPastMarked(w, s, st, outer, body);
  }

  lemma AttributeContains(w: string, head: string, name: string, s: string, q: string)
    requires Attribute(w, head, name) && Marked(q) && OpensWith(q, '<')
    ensures Contains(w + s, q) <==> Contains(s, q)
  {
    assert OpensWith(w, 'p');
    StartsOwn(w, s);
    OpensApart(w + s, w, 'p', q, '<');
    ContainsPastMarked(w, s, q);
  }

  /** An attribute holds and hides the escapes of what stands between its name and its closing brackets. */
  lemma FramedKeeps(prefix: string, name: string, inner: string, z: string, head: string, body: string)
    requires Opening(prefix) && Name(name) && Closers(z) && Opening(head) && Escaped(body) && Marked(head + body)
    ensures var s := (prefix + name) + (inner + z);
            && (Hidden(s, START, head, body) <==> Hidden(inner, Outside(Some(name[|name| - 1])), head, body))
            && (Contains(s, head + body) <==> Contains(inner, head + body))
  {
    assert OpensWith(head + body, '<');
    assert Attribute(prefix + name, prefix, name);
    hide Hidden, Contains, Opening, Escaped, Marked, Closers, Name, AllPlain, NoHash;
    AttributeHides(prefix + name, prefix, name, inner + z, START, head, body);
    AttributeContains(prefix + name, prefix, name, inner + z, head + body);
    HiddenTail(inner, z, Outside(Some(name[|name| - 1])), head, body);
    ContainsTail(inner, z, head + body);
  }

  lemma PinNames()
    ensures Name(PIN) && PIN[|PIN| - 1] == LEFT_PAREN && Closers(CLOSE) && Closers(")]") && Closers("]")
    ensures Name("pin_project(") && "pin_project("[11] == LEFT_PAREN && |"pin_project("| == 12
    ensures Name(PROJECT)
  {
    PinWords();
    ProjectName();
  }

  lemma ProjectName()
    ensures Name(PROJECT)
    ensures "pin_project(" == PROJECT + "(" && Name("pin_project(")
  {
  }

  /** What the pin pass writes neither hides nor shows an escape, and makes no visible one. */
  lemma PinWithKeeps(s: string, prefix: string, head: string, body: string)
    requires Opening(prefix) && Opening(head) && Escaped(body) && Marked(head + body) && PinWith(s, prefix).Some?
    ensures Hidden(PinWith(s, prefix).value, START, head, body) <==> Hidden(s, START, head, body)
    ensures Contains(PinWith(s, prefix).value, head + body) <==> Contains(s, head + body)
  {
    PinNames();
    PinIsWrapper(s, prefix);
    assert |head| > 0;
    hide Hidden, Contains, PinInner, Opening, Escaped, Marked, Closers, Name;
    var inner := PinInner(s, prefix).value;
    WrapperParts(prefix, inner);
    FramedKeeps(prefix, PIN, inner, CLOSE, head, body);
    if inner == "" {
      FramedKeeps(prefix, PROJECT, "", "]", head, body);
      assert PinWith(s, prefix).value == (prefix + PROJECT) + ("" + "]");
      NothingThere(head, body);
    } else {
      FramedKeeps(prefix, "pin_project(", inner, ")]", head, body);
      assert PinWith(s, prefix).value == (prefix + "pin_project(") + (inner + ")]");
    }
  }

  lemma NothingThere(head: string, body: string)
    requires |head + body| > 0
    ensures forall st :: !Hidden("", st, head, body)
    ensures !Contains("", head + body)
  {
  }

  /** What the pin pass writes is no wrapper. */
  lemma ProjectIsNoPin(prefix: string, rest: string, head: string)
    requires Opening(prefix) && Opening(head)
    ensures !PinStart(prefix + PROJECT + rest, head)
  {
    var s := prefix + PROJECT + rest;
    assert PlainChar('#') && s[0] == '#' && TrimStart(s) == s;
    StartsAt(s, head, 1);
    if |head| == 3 {
      StartsAt(s, head, 2);
    }
    if StartsWith(s, head) {
      assert |head| == |prefix|;
      var after := s[|head|..];
      assert after == PROJECT + rest && PlainChar('p') && TrimStart(after) == after;
      StartsAt(after, "pin(", 3);
    }
  }

  // ---------- All escapes ----------

  const OPEN := "#["
  const INNER_OPEN := "#!["
  const ESCAPED_CFG := "<cfg>("
  const ESCAPED_CFG_ATTR := "<cfg_attr>("

  lemma CfgWords()
    ensures Escaped(ESCAPED_CFG) && Argument("cfg(")
  {
  }

  lemma EscapedCfgAttr()
    ensures Escaped(ESCAPED_CFG_ATTR)
  {
  }

  lemma PlainCfgAttr()
    ensures Argument("cfg_attr(")
  {
  }

  lemma EscapedWords()
    ensures Escaped(ESCAPED_CFG) && Escaped(ESCAPED_CFG_ATTR)
    ensures CFG == OPEN + ESCAPED_CFG && INNER_CFG == INNER_OPEN + ESCAPED_CFG
    ensures CFG_ATTR == OPEN + ESCAPED_CFG_ATTR && INNER_CFG_ATTR == INNER_OPEN + ESCAPED_CFG_ATTR
  {
    CfgWords();
    EscapedCfgAttr();
    hide Escaped;
  }

  lemma MarkedFrom(head: string, body: string)
    requires Opening(head) && Argument(body)
    ensures Marked(head + body) && OpensWith(head + body, body[0])
  {
    var w := head + body;
    assert w[0] == head[0] && w[|w| - 1] == body[|body| - 1];
    assert forall i :: 0 <= i < |head| ==> PlainChar(head[i]);
    assert forall i :: 0 <= i < |body| ==> PlainChar(body[i]);
    hide PlainChar;
    assert forall i :: 0 <= i < |w| ==> w[i] == if i < |head| then head[i] else body[i - |head|];
  }

  lemma Swaps()
    ensures Swap(CFG, "#[cfg(") && Swap(INNER_CFG, "#![cfg(")
    ensures Swap(CFG_ATTR, "#[cfg_attr(") && Swap(INNER_CFG_ATTR, "#![cfg_attr(")
  {
    Openings();
    EscapedWords();
    CfgWords();
    PlainCfgAttr();
    MarkedFrom(OPEN, ESCAPED_CFG);
    MarkedFrom(OPEN, "cfg(");
    MarkedFrom(INNER_OPEN, ESCAPED_CFG);
    MarkedFrom(INNER_OPEN, "cfg(");
    MarkedFrom(OPEN, ESCAPED_CFG_ATTR);
    MarkedFrom(OPEN, "cfg_attr(");
    MarkedFrom(INNER_OPEN, ESCAPED_CFG_ATTR);
    MarkedFrom(INNER_OPEN, "cfg_attr(");
    hide Marked, Opening, Escaped, Argument;
    assert "#[cfg(" == OPEN + "cfg(" && "#![cfg(" == INNER_OPEN + "cfg(";
    assert "#[cfg_attr(" == OPEN + "cfg_attr(" && "#![cfg_attr(" == INNER_OPEN + "cfg_attr(";
  }

  /** After the four replacements no visible escape is left. */
  lemma UnescapeShowsNone(s: string)
    ensures var u := Unescape(s); !Contains(u, CFG) && !Contains(u, INNER_CFG) && !Contains(u, CFG_ATTR) && !Contains(u, INNER_CFG_ATTR)
  {
    Swaps();
    var a := Replace(s, CFG, "#[cfg(");
    var b := Replace(a, INNER_CFG, "#![cfg(");
    var c := Replace(b, CFG_ATTR, "#[cfg_attr(");
    hide Replace, Contains, Swap, Marked;
    assert Marked(CFG) && Marked(INNER_CFG) && Marked(CFG_ATTR) && Marked(INNER_CFG_ATTR) by {
      MarkedEscapes();
    }
    ReplaceContains(s, CFG, "#[cfg(", CFG);
    ReplaceContains(a, INNER_CFG, "#![cfg(", CFG);
    ReplaceContains(a, INNER_CFG, "#![cfg(", INNER_CFG);
    ReplaceContains(b, CFG_ATTR, "#[cfg_attr(", CFG);
    ReplaceContains(b, CFG_ATTR, "#[cfg_attr(", INNER_CFG);
    ReplaceContains(b, CFG_ATTR, "#[cfg_attr(", CFG_ATTR);
    ReplaceContains(c, INNER_CFG_ATTR, "#![cfg_attr(", CFG);
    ReplaceContains(c, INNER_CFG_ATTR, "#![cfg_attr(", INNER_CFG);
    ReplaceContains(c, INNER_CFG_ATTR, "#![cfg_attr(", CFG_ATTR);
    ReplaceContains(c, INNER_CFG_ATTR, "#![cfg_attr(", INNER_CFG_ATTR);
  }

  lemma MarkedEscapes()
    ensures Marked(CFG) && Marked(INNER_CFG) && Marked(CFG_ATTR) && Marked(INNER_CFG_ATTR)
  {
    Swaps();
  }

  lemma ReplaceKeeps(s: string, pattern: string, substitute: string, head: string, body: string)
    requires Swap(pattern, substitute) && Opening(head) && Escaped(body)
    ensures var t := Replace(s, pattern, substitute);
            && (Hidden(t, START, head, body) <==> Hidden(s, START, head, body))
            && (PinStart(t, head) <==> PinStart(s, head))
            && (Ends(t, START, CLOSE) <==> Ends(s, START, CLOSE))
            && (PinInner(t, head).Some? <==> PinInner(s, head).Some?)
  {
    Closes();
    ReplaceHidden(s, START, pattern, substitute, head, body);
    ReplacePinStart(s, pattern, substitute, head);
    ReplaceEnds(s, START, pattern, substitute, CLOSE);
    ReplacePinInner(s, pattern, substitute, head);
  }

  lemma ReplacePinInner(s: string, pattern: string, substitute: string, head: string)
    requires Swap(pattern, substitute) && Opening(head)
    ensures PinInner(Replace(s, pattern, substitute), head).Some? <==> PinInner(s, head).Some?
  {
    Closes();
    PinWords();
    var t, w := Replace(s, pattern, substitute), head + PIN;
    PinInnerIff(s, head);
    PinInnerIff(t, head);
    ReplaceEndsWith(s, pattern, substitute, CLOSE);
    assert OpensWith(w, 'p') && NoHash(w[1..]);
    if StartsWith(s, pattern) {
      OpensApart(s, pattern, '<', w, 'p');
      StartsOwn(substitute, Replace(s[|pattern|..], pattern, substitute));
      OpensApart(t, substitute, 'c', w, 'p');
    } else {
      ReplaceStartsMarked(s, pattern, substitute, w);
    }
  }

  lemma UnescapeKeeps(s: string, head: string, body: string)
    requires Opening(head) && Escaped(body)
    ensures var t := Unescape(s);
            && (Hidden(t, START, head, body) <==> Hidden(s, START, head, body))
            && (PinStart(t, head) <==> PinStart(s, head))
            && (Ends(t, START, CLOSE) <==> Ends(s, START, CLOSE))
            && (PinInner(t, head).Some? <==> PinInner(s, head).Some?)
  {
    Swaps();
    hide Replace, Swap, Hidden, PinStart, Ends, PinInner, Opening, Escaped;
    var a := Replace(s, CFG, "#[cfg(");
    var b := Replace(a, INNER_CFG, "#![cfg(");
    var c := Replace(b, CFG_ATTR, "#[cfg_attr(");
    ReplaceKeeps(s, CFG, "#[cfg(", head, body);
    ReplaceKeeps(a, INNER_CFG, "#![cfg(", head, body);
    ReplaceKeeps(b, CFG_ATTR, "#[cfg_attr(", head, body);
    ReplaceKeeps(c, INNER_CFG_ATTR, "#![cfg_attr(", head, body);
  }

  // ---------- The condition ----------

  /** Outside literals, whitespace stands between an opening and an escaped cfg. */
  predicate HiddenCfg(s: string) {
    || Hidden(s, START, OPEN, ESCAPED_CFG) || Hidden(s, START, INNER_OPEN, ESCAPED_CFG)
    || Hidden(s, START, OPEN, ESCAPED_CFG_ATTR) || Hidden(s, START, INNER_OPEN, ESCAPED_CFG_ATTR)
  }

  predicate VisiblePin(s: string) {
    PinInner(s, OPEN).Some? || PinInner(s, INNER_OPEN).Some?
  }

  /** A pin wrapper when whitespace in front, at the end and after opening brackets is not counted, but not as it stands. */
  predicate HiddenPin(s: string) {
    (PinStart(s, OPEN) || PinStart(s, INNER_OPEN)) && Ends(s, START, CLOSE) && !VisiblePin(s)
  }

  /** What one normalization leaves of an escape. */
  lemma LeftEscape(s: string, head: string, body: string)
    requires Opening(head) && Escaped(body) && Marked(head + body) && !Contains(Unescape(s), head + body)
    ensures Contains(NormalizeAttribute(s), head + body) <==> Hidden(s, START, head, body)
  {
    Openings();
    hide Unescape, Hidden, Contains, PinInner, Opening, Escaped, Marked, Tail;
    var v := Unescape(s);
    UnescapeKeeps(s, head, body);
    if PinWith(v, "#[").Some? {
      PinWithKeeps(v, "#[", head, body);
    } else if PinWith(v, "#![").Some? {
      PinWithKeeps(v, "#![", head, body);
    }
    TailContains(NormalizePin(v), head, body);
  }

  /** What one normalization leaves of a wrapper. */
  lemma LeftPin(s: string, head: string)
    requires Opening(head)
    ensures PinInner(NormalizeAttribute(s), head).Some? <==> PinStart(s, head) && Ends(s, START, CLOSE) && !VisiblePin(s)
  {
    Openings();
    Closes();
    PinWords();
    EscapedWords();
    var v := Unescape(s);
    var u := NormalizePin(v);
    assert AllPlain(head + PIN);
    UnescapeKeeps(s, head, ESCAPED_CFG);
    UnescapeKeeps(s, OPEN, ESCAPED_CFG);
    UnescapeKeeps(s, INNER_OPEN, ESCAPED_CFG);
    hide Unescape, PinStart, Ends, PinInner, Opening, Escaped, Tail, AllPlain, Closing;
    PinInnerIff(Tail(u), head);
    TailStarts(u, head + PIN);
    LoosePin(u, head);
    TailEnds(u, CLOSE);
    assert VisiblePin(v) <==> VisiblePin(s);
    if VisiblePin(v) {
      var prefix := if PinInner(v, OPEN).Some? then OPEN else INNER_OPEN;
      ProjectWritten(v, prefix, head);
    }
  }

  lemma ProjectWritten(s: string, prefix: string, head: string)
    requires Opening(prefix) && Opening(head) && PinInner(s, prefix).Some?
    ensures PinWith(s, prefix).Some? && !PinStart(PinWith(s, prefix).value, head)
  {
    hide PinInner, PinStart;
    var inner := PinInner(s, prefix).value;
    if inner == "" {
      assert prefix + "pin_project]" == prefix + PROJECT + "]";
      ProjectIsNoPin(prefix, "]", head);
    } else {
      assert prefix + "pin_project(" + inner + ")]" == prefix + PROJECT + ("(" + inner + ")]");
      ProjectIsNoPin(prefix, "(" + inner + ")]", head);
    }
  }

  /**
    Normalizing is idempotent at a text iff no escaped cfg of it is hidden by whitespace after the opening bracket,
    outside literals, and it is no pin wrapper hidden by whitespace.
    */
  lemma NormalizeIdempotentIff(s: string)
    ensures NormalizeAttribute(NormalizeAttribute(s)) == NormalizeAttribute(s) <==> !HiddenCfg(s) && !HiddenPin(s)
  {
    Openings();
    EscapedWords();
    MarkedEscapes();
    UnescapeShowsNone(s);
    hide NormalizeAttribute, Unescape, Hidden, Contains, PinInner, PinStart, Ends, Opening, Escaped, Marked;
    LeftEscape(s, OPEN, ESCAPED_CFG);
    LeftEscape(s, INNER_OPEN, ESCAPED_CFG);
    LeftEscape(s, OPEN, ESCAPED_CFG_ATTR);
    LeftEscape(s, INNER_OPEN, ESCAPED_CFG_ATTR);
    LeftPin(s, OPEN);
    LeftPin(s, INNER_OPEN);
    NormalizeTwiceIff(s);
  }

  lemma TrimBlank(s: string)
    requires |s| > 0 && !IsWhitespace(s[0])
    ensures TrimStart(" " + s) == s && TrimStart(s) == s
  {
    assert (" " + s)[1..] == s;
  }

  /** A blank after the opening bracket hides an escaped cfg from the first call, whatever follows. */
  lemma BlankHidesCfg(rest: string)
    ensures var s := OPEN + (" " + (ESCAPED_CFG + rest)); NormalizeAttribute(NormalizeAttribute(s)) != NormalizeAttribute(s)
  {
    var t := ESCAPED_CFG + rest;
    var s := OPEN + (" " + t);
    StartsOwn(OPEN, " " + t);
    StartsOwn(ESCAPED_CFG, rest);
    TrimBlank(t);
    hide StartsWith, TrimStart;
    assert s[|OPEN|] == ' ' && HiddenHere(s, OPEN, ESCAPED_CFG);
    NormalizeIdempotentIff(s);
  }

  lemma BlankIsNoPin(b: string)
    ensures !VisiblePin(OPEN + (" " + b))
  {
    var s := OPEN + (" " + b);
    Openings();
    PinInnerIff(s, OPEN);
    PinInnerIff(s, INNER_OPEN);
    assert s[1] == '[' && s[2] == ' ' && PIN[0] == 'p' && INNER_OPEN[1] == '!';
    StartsAt(s, OPEN + PIN, 2);
    StartsAt(s, INNER_OPEN + PIN, 1);
    hide PinInner, StartsWith, Opening;
  }

  lemma BlankPinStarts(rest: string)
    ensures PinStart(OPEN + (" " + ("pin(" + ("__private(" + rest))), OPEN)
  {
    var c := "__private(" + rest;
    var b := "pin(" + c;
    var s := OPEN + (" " + b);
    StartsOwn(OPEN, " " + b);
    StartsOwn("pin(", c);
    StartsOwn("__private(", rest);
    TrimBlank(b);
    TrimBlank(c);
    TrimBlank(s);
    hide StartsWith, TrimStart;
  }

  lemma BlankPinParts(inner: string)
    ensures var s := OPEN + (" " + (PIN + inner + CLOSE));
            s == OPEN + (" " + ("pin(" + ("__private(" + (inner + CLOSE)))) == OPEN + (" " + (PIN + inner)) + CLOSE
  {
    PinWords();
    hide Word, AllPlain, NoHash;
    assert PIN + inner + CLOSE == "pin(" + ("__private(" + (inner + CLOSE));
  }

  /** And a pin wrapper. */
  lemma BlankHidesPin(inner: string)
    ensures var s := OPEN + (" " + (PIN + inner + CLOSE)); NormalizeAttribute(NormalizeAttribute(s)) != NormalizeAttribute(s)
  {
    hide NormalizeAttribute, PinStart, Ends, VisiblePin, HiddenCfg;
    var s := OPEN + (" " + (PIN + inner + CLOSE));
    BlankPinParts(inner);
    BlankPinStarts(inner + CLOSE);
    BlankIsNoPin(PIN + inner + CLOSE);
    EndsAt(OPEN + (" " + (PIN + inner)), START);
    NormalizeIdempotentIff(s);
  }

  lemma NormalizeNotIdempotent()
    ensures var s := "#[ <cfg>(test)]"; NormalizeAttribute(NormalizeAttribute(s)) != NormalizeAttribute(s)
    ensures var s := "#[ pin(__private(x))]"; NormalizeAttribute(NormalizeAttribute(s)) != NormalizeAttribute(s)
  {
    BlankHidesCfg("test)]");
    BlankHidesPin("x");
    hide NormalizeAttribute;
    assert "#[ <cfg>(test)]" == OPEN + (" " + (ESCAPED_CFG + "test)]"));
    assert "#[ pin(__private(x))]" == OPEN + (" " + (PIN + "x" + CLOSE));
  }

  lemma {:induction false} EndsAt(s: string, st: Scan)
    ensures Ends(s + CLOSE, st, CLOSE)
    decreases |s|
  {
    if |s| == 0 {
      assert s + CLOSE == CLOSE && CLOSE[1..][1..][1..] == "";
      assert LastWord(CLOSE, st, CLOSE);
    } else {
      assert (s + CLOSE)[1..] == s[1..] + CLOSE;
      EndsAt(s[1..], Step(st, s[0]));
    }
  }
}
