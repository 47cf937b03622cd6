/**
  The printed text is the spelling of the tokens: printing a tree gives the text of its plain tree as written.
  */
module TypeText {
  import opened Basics
  import opened TypeSyntax
  import opened TypeRender
  import opened TypeTokens

  // ---------- Strings ----------

  lemma Assoc(a: string, b: string, c: string)
    ensures (a + b) + c == a + (b + c)
  {
  }

  lemma Regroup(a: string, b: string, c: string, rest: string)
    ensures a + b + c + rest == a + (b + (c + rest))
  {
    Assoc(a + b, c, rest);
    Assoc(a, b, c + rest);
  }

  lemma {:induction false} JoinAppend(a: seq<string>, b: seq<string>, separator: string)
    requires |a| > 0 && |b| > 0
    ensures Join(a + b, separator) == Join(a, separator) + (separator + Join(b, separator))
  {
    assert (a + b)[1..] == a[1..] + b;
    if |a| == 1 {
      assert a[1..] + b == b;
      Assoc(a[0], separator, Join(b, separator));
    } else {
      JoinAppend(a[1..], b, separator);
      Assoc(a[0] + separator, Join(a[1..], separator), separator + Join(b, separator));
    }
  }

  /** A joined list in front of a text: the first part, then the separator and the others. */
  lemma JoinFirst(first: string, others: seq<string>, separator: string, rest: string)
    ensures Join([first] + others, separator) + rest == if |others| == 0 then first + rest else first + (separator + (Join(others, separator) + rest))
  {
    assert ([first] + others)[1..] == others;
    if |others| > 0 {
      Regroup(first, separator, Join(others, separator), rest);
    }
  }

  lemma {:induction false} NothingWithout(lifetimes: seq<string>)
    ensures Without(lifetimes, {}) == lifetimes
  {
    if |lifetimes| == 0 {
    } else {
      NothingWithout(lifetimes[1..]);
      assert lifetimes == [lifetimes[0]] + lifetimes[1..];
    }
  }

  lemma WordsAreNotEmpty(word: string)
    ensures IsName(word) || IsLifetime(word) || IsExpr(word) ==> |word| > 0
  {
  }

  lemma TextCons(token: Token, rest: Tokens)
    ensures Text(Cons(token, rest)) == Spelling(token) + Text(rest)
  {
  }

  // ---------- Headers ----------

  lemma AbiText(abi: Abi, rest: Tokens)
    requires !abi.Rust?
    ensures RenderAbi(abi) == ["extern " + QuotedAbi(abi)]
    ensures Text(Cons(Extern(QuotedAbi(AbiOf(QuotedAbi(abi)))), rest)) == "extern " + QuotedAbi(abi) + " " + Text(rest)
    ensures !AbiOf(QuotedAbi(abi)).Rust?
  {
    QuotedOfAbi(QuotedAbi(abi));
    if abi.Named? {
      var ending := if abi.unwind then "-unwind\"" else "\"";
      assert "extern \"" == "extern " + "\"";
      Assoc("extern ", "\"", abi.name);
      Assoc("extern ", "\"" + abi.name, ending);
    }
  }

  /** The words of a header, each followed by a blank. */
  function Padded(words: seq<string>): string {
    Enclose("", words, " ", " ")
  }

  lemma PaddedCons(first: string, others: seq<string>, rest: string)
    ensures Padded([first] + others) + rest == first + " " + (Padded(others) + rest)
  {
    var words := [first] + others;
    assert words[1..] == others;
    assert "" + Join(words, " ") == Join(words, " ");
    assert "" + Join(others, " ") == Join(others, " ");
    if |others| == 0 {
      assert "" + rest == rest;
    } else {
      Assoc(first + " ", Join(others, " "), " ");
      Assoc(first + " ", Join(others, " ") + " ", rest);
    }
  }

  lemma HeaderParts(header: FunctionHeader)
    ensures RenderHeader(header) ==
            Padded((if header.isConst then ["const"] else []) + ((if header.isAsync then ["async"] else []) + ((if header.isUnsafe then ["unsafe"] else []) + RenderAbi(header.abi))))
  {
    var a, b, c, d := (if header.isConst then ["const"] else []), (if header.isAsync then ["async"] else []), (if header.isUnsafe then ["unsafe"] else []), RenderAbi(header.abi);
    assert a + b + c + d == a + (b + (c + d));
  }

  lemma AbiPadded(abi: Abi, rest: Tokens)
    ensures Padded(RenderAbi(abi)) + Text(rest) == Text(if abi.Rust? then rest else Cons(Extern(QuotedAbi(AbiOf(QuotedAbi(abi)))), rest))
  {
    if abi.Rust? {
      assert "" + Text(rest) == Text(rest);
    } else {
      AbiText(abi, rest);
      var words := ["extern " + QuotedAbi(abi)];
      assert words == [words[0]] + [];
      PaddedCons(words[0], [], Text(rest));
      assert Padded([]) + Text(rest) == Text(rest);
    }
  }

  lemma OptionalWord(present: bool, word: string, token: Token, others: seq<string>, rest: Tokens, text: string)
    requires Spelling(token) == word + " " && Padded(others) + text == Text(rest)
    ensures Padded((if present then [word] else []) + others) + text == Text(if present then Cons(token, rest) else rest)
  {
    if present {
      PaddedCons(word, others, text);
    } else {
      assert [] + others == others;
    }
  }

  lemma HeaderText(header: FunctionHeader, rest: Tokens)
    ensures RenderHeader(header) + Text(rest) == Text(WriteHeader(PlainHeader(header), rest))
  {
    HeaderParts(header);
    AbiPadded(header.abi, rest);
    if !header.abi.Rust? {
      AbiText(header.abi, rest);
    }
    var plain := PlainHeader(header);
    var abi := if plain.abi.Rust? then rest else Cons(Extern(QuotedAbi(plain.abi)), rest);
    var unsafe_ := if header.isUnsafe then Cons(Unsafe, abi) else abi;
    var async_ := if header.isAsync then Cons(Async, unsafe_) else unsafe_;
    assert "unsafe" + " " == "unsafe " && "async" + " " == "async " && "const" + " " == "const ";
    hide Padded, RenderAbi, QuotedAbi, AbiOf, RenderHeader;
    var c := (if header.isUnsafe then ["unsafe"] else []) + RenderAbi(header.abi);
    var b := (if header.isAsync then ["async"] else []) + c;
    OptionalWord(header.isUnsafe, "unsafe", Unsafe, RenderAbi(header.abi), abi, Text(rest));
    OptionalWord(header.isAsync, "async", Async, c, unsafe_, Text(rest));
    OptionalWord(header.isConst, "const", Const, b, async_, Text(rest));
  }

  lemma VariadicText(isVariadic: bool, anyInputs: bool, rest: Tokens)
    ensures Variadic(isVariadic, anyInputs) + Text(rest) == Text(WriteVariadic(isVariadic, anyInputs, rest))
  {
    assert "" + Text(rest) == Text(rest);
  }

  // ---------- Types ----------

  /** The text of a type, one level deep. */
  lemma Renders(t: Type)
    ensures t.ResolvedPath? ==> RenderType(t, {}) == RenderPath(t.path, {})
    ensures t.DynTrait? ==> RenderType(t, {}) == "dyn " + Join(RenderPolys(t.traits, {}), " + ") + (if t.bound.Some? then " + " + t.bound.value else "")
    ensures t.Generic? || t.Primitive? ==> RenderType(t, {}) == t.name
    ensures t.FunctionPointer? ==>
              RenderType(t, {}) == RenderHeader(t.header) + "fn" + Enclose("<", RenderParams(t.params, {}), ", ", ">") +
                                   "(" + Join(RenderTypes(t.inputs, {}), ", ") + Variadic(t.isVariadic, |t.inputs| > 0) + ")" + RenderOutput(t.output, {})
    ensures t.Tuple? ==> RenderType(t, {}) == "(" + Join(RenderTypes(t.types, {}), ", ") + ")"
    ensures t.Slice? ==> RenderType(t, {}) == "[" + RenderType(t.elem, {}) + "]"
    ensures t.Array? ==> RenderType(t, {}) == "[" + RenderType(t.elem, {}) + "; " + t.len + "]"
    ensures t.Pat? ==> RenderType(t, {}) == RenderType(t.elem, {})
    ensures t.ImplTrait? ==> RenderType(t, {}) == "impl " + Join(RenderBounds(t.bounds, {}), " + ")
    ensures t.Infer? ==> RenderType(t, {}) == "_"
    ensures t.RawPointer? ==> RenderType(t, {}) == "*" + (if t.isMutable then "mut" else "const") + " " + RenderType(t.elem, {})
    ensures t.BorrowedRef? ==>
              RenderType(t, {}) == "&" + (if t.lifetime.Some? then t.lifetime.value + " " else "") + (if t.isMutable then "mut " else "") + RenderType(t.elem, {})
    ensures t.QualifiedPath? ==>
              RenderType(t, {}) == "<" + RenderType(t.selfType, {}) + (if t.trait_.Some? then " as " + RenderPath(t.trait_.value, {}) else "") +
                                   ">::" + t.name + RenderArgs(t.args, {})
  {
    hide RenderPath, RenderPolys, RenderHeader, RenderParams, RenderTypes, RenderOutput, RenderBounds, RenderArgs, Enclose, Variadic;
  }

  lemma Plains(t: Type)
    ensures t.ResolvedPath? ==> PlainType(t) == ResolvedPath(PlainPath(t.path))
    ensures t.DynTrait? ==> PlainType(t) == DynTrait(PlainPolys(t.traits), t.bound)
    ensures t.Generic? || t.Primitive? ==> PlainType(t) == NamePath(t.name)
    ensures t.FunctionPointer? ==>
              PlainType(t) == FunctionPointer(PlainHeader(t.header), PlainParams(t.params), PlainTypes(t.inputs), t.isVariadic, PlainOutput(t.output))
    ensures t.Tuple? ==> PlainType(t) == Tuple(PlainTypes(t.types))
    ensures t.Slice? ==> PlainType(t) == Slice(PlainType(t.elem))
    ensures t.Array? ==> PlainType(t) == Array(PlainType(t.elem), t.len)
    ensures t.Pat? ==> PlainType(t) == PlainType(t.elem)
    ensures t.ImplTrait? ==> PlainType(t) == ImplTrait(PlainBounds(t.bounds))
    ensures t.Infer? ==> PlainType(t) == Infer
    ensures t.RawPointer? ==> PlainType(t) == RawPointer(t.isMutable, PlainType(t.elem))
    ensures t.BorrowedRef? ==> PlainType(t) == BorrowedRef(t.lifetime, t.isMutable, PlainType(t.elem))
    ensures t.QualifiedPath? ==>
              PlainType(t) == QualifiedPath(t.name, PlainArgs(t.args), PlainType(t.selfType), if t.trait_.Some? then Some(PlainPath(t.trait_.value)) else None)
  {
    hide PlainPath, PlainPolys, PlainHeader, PlainParams, PlainTypes, PlainOutput, PlainBounds, PlainArgs;
  }

  lemma {:induction false} TypeIsText(t: Type, many: bool, rest: Tokens)
    requires LegibleType(PlainType(t), many)
    ensures RenderType(t, {}) + Text(rest) == Text(WriteType(PlainType(t), rest))
    decreases t
  {
    hide RenderType, WriteType, PlainType, LegibleType, Text, RenderPath, WritePath, PlainPath, LegiblePath, Spelling;
    Renders(t);
    Plains(t);
    Writes(PlainType(t), rest);
    LegibleIs(PlainType(t), many);
    match t
    case ResolvedPath(path) => PathIsText(path, rest);
    case DynTrait(_, _) => DynIsText(t, many, rest);
    case Generic(name) => NameIsText(name, rest);
    case Primitive(name) => NameIsText(name, rest);
    case FunctionPointer(_, _, _, _, _) => FunctionPointerIsText(t, many, rest);
    case Tuple(_) => TupleIsText(t, many, rest);
    case Slice(_) => SliceIsText(t, many, rest);
    case Array(_, _) => ArrayIsText(t, many, rest);
    case Pat(elem) => TypeIsText(elem, many, rest);
    case ImplTrait(_) => ImplIsText(t, many, rest);
    case Infer => InferIsText(rest);
    case RawPointer(_, _) => RawPointerIsText(t, many, rest);
    case BorrowedRef(_, _, _) => BorrowedRefIsText(t, many, rest);
    case QualifiedPath(_, _, _, _) => QualifiedIsText(t, many, rest);
  }

  lemma InferIsText(rest: Tokens)
    ensures "_" + Text(rest) == Text(Cons(Underscore, rest))
  {
  }

  lemma {:induction false} TupleIsText(t: Type, many: bool, rest: Tokens)
    requires t.Tuple? && LegibleType(PlainType(t), many)
    ensures RenderType(t, {}) + Text(rest) == Text(WriteType(PlainType(t), rest))
    decreases t, 0
  {
    hide RenderType, WriteType, PlainType, LegibleType, Text, Join;
    Renders(t);
    Plains(t);
    Writes(PlainType(t), rest);
    LegibleIs(PlainType(t), many);
    hide RenderTypes, WriteTypes, PlainTypes, LegibleTypes;
    TypesAreText(t.types, Cons(RParen, rest));
    Regroup("(", Join(RenderTypes(t.types, {}), ", "), ")", Text(rest));
    TextCons(RParen, rest);
    TextCons(LParen, WriteTypes(PlainTypes(t.types), Cons(RParen, rest)));
  }

  lemma {:induction false} SliceIsText(t: Type, many: bool, rest: Tokens)
    requires t.Slice? && LegibleType(PlainType(t), many)
    ensures RenderType(t, {}) + Text(rest) == Text(WriteType(PlainType(t), rest))
    decreases t, 0
  {
    hide RenderType, WriteType, PlainType, LegibleType, Text, Join;
    Renders(t);
    Plains(t);
    Writes(PlainType(t), rest);
    LegibleIs(PlainType(t), many);
    TypeIsText(t.elem, true, Cons(RBracket, rest));
    Regroup("[", RenderType(t.elem, {}), "]", Text(rest));
    TextCons(RBracket, rest);
    TextCons(LBracket, WriteType(PlainType(t.elem), Cons(RBracket, rest)));
  }

  lemma {:induction false} ImplIsText(t: Type, many: bool, rest: Tokens)
    requires t.ImplTrait? && LegibleType(PlainType(t), many)
    ensures RenderType(t, {}) + Text(rest) == Text(WriteType(PlainType(t), rest))
    decreases t, 0
  {
    hide RenderType, WriteType, PlainType, LegibleType, Text, Join;
    Renders(t);
    Plains(t);
    Writes(PlainType(t), rest);
    LegibleIs(PlainType(t), many);
    hide RenderBounds, WriteBounds, PlainBounds, LegibleBounds;
    BoundsAreText(t.bounds, rest);
    Assoc("impl ", Join(RenderBounds(t.bounds, {}), " + "), Text(rest));
    TextCons(Impl, WriteBounds(PlainBounds(t.bounds), rest));
  }

  lemma NameIsText(name: string, rest: Tokens)
    ensures name + Text(rest) == Text(WriteType(NamePath(name), rest))
  {
  }

  lemma {:induction false} ArrayIsText(t: Type, many: bool, rest: Tokens)
    requires t.Array? && LegibleType(PlainType(t), many)
    ensures RenderType(t, {}) + Text(rest) == Text(WriteType(PlainType(t), rest))
    decreases t, 0
  {
    hide RenderType, WriteType, PlainType, LegibleType, Text;
    Renders(t);
    Plains(t);
    Writes(PlainType(t), rest);
    LegibleIs(PlainType(t), many);
    var after := Cons(SemiSpace, Cons(Word(t.len), Cons(RBracket, rest)));
    TypeIsText(t.elem, true, after);
    TextCons(SemiSpace, Cons(Word(t.len), Cons(RBracket, rest)));
    TextCons(Word(t.len), Cons(RBracket, rest));
    TextCons(RBracket, rest);
    TextCons(LBracket, WriteType(PlainType(t.elem), after));
    Regroup("[" + RenderType(t.elem, {}) + "; ", t.len, "]", Text(rest));
    Regroup("[", RenderType(t.elem, {}), "; ", t.len + ("]" + Text(rest)));
  }

  lemma {:induction false} RawPointerIsText(t: Type, many: bool, rest: Tokens)
    requires t.RawPointer? && LegibleType(PlainType(t), many)
    ensures RenderType(t, {}) + Text(rest) == Text(WriteType(PlainType(t), rest))
    decreases t, 0
  {
    hide RenderType, WriteType, PlainType, LegibleType, Text;
    Renders(t);
    Plains(t);
    Writes(PlainType(t), rest);
    LegibleIs(PlainType(t), many);
    TypeIsText(t.elem, false, rest);
    var word := if t.isMutable then "mut" else "const";
    var token := if t.isMutable then Mut else Const;
    var target := WriteType(PlainType(t.elem), rest);
    assert word + " " == Spelling(token);
    Assoc("*", word, " ");
    Assoc("*" + word + " ", RenderType(t.elem, {}), Text(rest));
    Assoc("*", word + " ", RenderType(t.elem, {}) + Text(rest));
    TextCons(token, target);
    TextCons(Star, Cons(token, target));
  }

  lemma {:induction false} BorrowedRefIsText(t: Type, many: bool, rest: Tokens)
    requires t.BorrowedRef? && LegibleType(PlainType(t), many)
    ensures RenderType(t, {}) + Text(rest) == Text(WriteType(PlainType(t), rest))
    decreases t, 0
  {
    hide RenderType, WriteType, PlainType, LegibleType, Text;
    Renders(t);
    Plains(t);
    Writes(PlainType(t), rest);
    LegibleIs(PlainType(t), many);
    TypeIsText(t.elem, false, rest);
    var target := WriteType(PlainType(t.elem), rest);
    var lifetime := if t.lifetime.Some? then t.lifetime.value + " " else "";
    var mutable := if t.isMutable then "mut " else "";
    var a := if t.isMutable then Cons(Mut, target) else target;
    var b := if t.lifetime.Some? then Cons(RefLifetime(t.lifetime.value), a) else a;
    assert "" + Text(target) == Text(target);
    assert "" + Text(a) == Text(a);
    TextCons(Mut, target);
    TextCons(RefLifetime(if t.lifetime.Some? then t.lifetime.value else ""), a);
    assert Text(a) == mutable + Text(target) && Text(b) == lifetime + Text(a);
    Assoc("&" + lifetime + mutable, RenderType(t.elem, {}), Text(rest));
    Regroup("&", lifetime, mutable, Text(target));
    TextCons(Amp, b);
  }

  lemma {:induction false} DynIsText(t: Type, many: bool, rest: Tokens)
    requires t.DynTrait? && LegibleType(PlainType(t), many)
    ensures RenderType(t, {}) + Text(rest) == Text(WriteType(PlainType(t), rest))
    decreases t, 0
  {
    hide RenderType, WriteType, PlainType, LegibleType, Text, RenderPolys, WritePolys, PlainPolys, LegiblePolys, Join, ClassOf;
    Renders(t);
    Plains(t);
    Writes(PlainType(t), rest);
    LegibleIs(PlainType(t), many);
    var end := if t.bound.Some? then Cons(Plus, Cons(Word(t.bound.value), rest)) else rest;
    var bound := if t.bound.Some? then " + " + t.bound.value else "";
    PolysAreText(t.traits, end);
    if t.bound.Some? {
      Assoc(" + ", t.bound.value, Text(rest));
      TextCons(Word(t.bound.value), rest);
      TextCons(Plus, Cons(Word(t.bound.value), rest));
    } else {
      assert "" + Text(rest) == Text(rest);
    }
    TextCons(Dyn, WritePolys(PlainPolys(t.traits), end));
    Regroup("dyn ", Join(RenderPolys(t.traits, {}), " + "), bound, Text(rest));
  }

  lemma {:induction false} QualifiedIsText(t: Type, many: bool, rest: Tokens)
    requires t.QualifiedPath? && LegibleType(PlainType(t), many)
    ensures RenderType(t, {}) + Text(rest) == Text(WriteType(PlainType(t), rest))
    decreases t, 0
  {
    hide RenderType, WriteType, PlainType, LegibleType, Text, RenderArgs, WriteArgs, PlainArgs, LegibleArgs, RenderPath, WritePath, PlainPath, LegiblePath, ClassOf;
    Renders(t);
    Plains(t);
    QualifiedWrites(PlainType(t), rest);
    LegibleIs(PlainType(t), many);
    var args := WriteArgs(PlainArgs(t.args), rest);
    var item := Cons(GtPath, Cons(Word(t.name), args));
    ArgsAreText(t.args, rest);
    TextCons(Word(t.name), args);
    TextCons(GtPath, Cons(Word(t.name), args));
    var trait_ := if t.trait_.Some? then " as " + RenderPath(t.trait_.value, {}) else "";
    var after := if t.trait_.Some? then Cons(As, WritePath(PlainPath(t.trait_.value), item)) else item;
    TypeIsText(t.selfType, true, after);
    if t.trait_.Some? {
      PathIsText(t.trait_.value, item);
      Assoc(" as ", RenderPath(t.trait_.value, {}), Text(item));
      TextCons(As, WritePath(PlainPath(t.trait_.value), item));
    } else {
      assert "" + Text(item) == Text(item);
    }
    QualifiedParts(RenderType(t.selfType, {}), trait_, t.name, RenderArgs(t.args, {}), Text(rest));
    TextCons(Lt, WriteType(PlainType(t.selfType), after));
  }

  lemma QualifiedParts(selfType: string, trait_: string, name: string, args: string, rest: string)
    ensures "<" + selfType + trait_ + ">::" + name + args + rest == "<" + (selfType + (trait_ + (">::" + (name + (args + rest)))))
  {
    Regroup("<" + selfType + trait_, ">::", name, args + rest);
    Assoc("<" + selfType + trait_ + ">::" + name, args, rest);
    Regroup("<", selfType, trait_, ">::" + (name + (args + rest)));
  }

  lemma {:induction false} FunctionPointerIsText(t: Type, many: bool, rest: Tokens)
    requires t.FunctionPointer? && LegibleType(PlainType(t), many)
    ensures RenderType(t, {}) + Text(rest) == Text(WriteType(PlainType(t), rest))
    decreases t, 0
  {
    hide RenderType, WriteType, PlainType, LegibleType, Text, Join;
    hide RenderHeader, WriteHeader, PlainHeader, RenderParams, PlainParams, RenderTypes, WriteTypes, PlainTypes, Enclose, Variadic, WriteVariadic, RenderOutput, WriteOutput, PlainOutput;
    hide LegibleHeader, LegibleParams, LegibleTypes, LegibleOutput, WriteParams;
    Renders(t);
    Plains(t);
    FunctionPointerWrites(PlainType(t), rest);
    LegibleIs(PlainType(t), many);
    var end := WriteOutput(PlainOutput(t.output), rest);
    var close := Cons(RParen, end);
    var dots := WriteVariadic(t.isVariadic, |t.inputs| > 0, close);
    var inputs := WriteTypes(PlainTypes(t.inputs), dots);
    var signature := Cons(LParen, inputs);
    var generics := WriteGenerics(PlainParams(t.params), signature);
    OutputIsText(t.output, false, rest);
    TypesAreText(t.inputs, dots);
    GenericsAreText(t.params, signature);
    HeaderText(t.header, Cons(Fn, generics));
    VariadicText(t.isVariadic, |t.inputs| > 0, close);
    TextCons(RParen, end);
    TextCons(LParen, inputs);
    TextCons(Fn, generics);
    PointerParts(RenderHeader(t.header), Enclose("<", RenderParams(t.params, {}), ", ", ">"), Join(RenderTypes(t.inputs, {}), ", "),
                 Variadic(t.isVariadic, |t.inputs| > 0), RenderOutput(t.output, {}), Text(rest));
  }

  lemma PointerParts(header: string, generics: string, inputs: string, dots: string, output: string, rest: string)
    ensures header + "fn" + generics + "(" + inputs + dots + ")" + output + rest ==
            header + ("fn" + (generics + ("(" + (inputs + (dots + (")" + (output + rest)))))))
  {
    var tail := dots + (")" + (output + rest));
    Regroup(header + "fn" + generics + "(" + inputs, dots, ")", output + rest);
    Assoc(header + "fn" + generics + "(" + inputs + dots + ")", output, rest);
    Regroup(header + "fn" + generics, "(", inputs, tail);
    Regroup(header, "fn", generics, "(" + (inputs + tail));
  }

  lemma {:induction false} TypesAreText(ts: seq<Type>, rest: Tokens)
    requires LegibleTypes(PlainTypes(ts))
    ensures Join(RenderTypes(ts, {}), ", ") + Text(rest) == Text(WriteTypes(PlainTypes(ts), rest))
    decreases ts
  {
    hide RenderType, WriteType, PlainType, LegibleType;
    if |ts| == 0 {
      assert "" + Text(rest) == Text(rest);
    } else {
      var plain := PlainTypes(ts);
      assert plain[1..] == PlainTypes(ts[1..]);
      var others := WriteTypes(plain[1..], rest);
      TypeIsText(ts[0], true, if |ts| == 1 then rest else Cons(Comma, others));
      TypesAreText(ts[1..], rest);
      JoinFirst(RenderType(ts[0], {}), RenderTypes(ts[1..], {}), ", ", Text(rest));
      TextCons(Comma, others);
    }
  }

  lemma {:induction false} OutputIsText(output: Option<Type>, many: bool, rest: Tokens)
    requires LegibleOutput(PlainOutput(output), many)
    ensures RenderOutput(output, {}) + Text(rest) == Text(WriteOutput(PlainOutput(output), rest))
    decreases output
  {
    if output.Some? {
      TypeIsText(output.value, many, rest);
      Assoc(" -> ", RenderType(output.value, {}), Text(rest));
    } else {
      assert "" + Text(rest) == Text(rest);
    }
  }

  // ---------- Paths and arguments ----------

  lemma {:induction false} PathIsText(p: Path, rest: Tokens)
    requires LegiblePath(PlainPath(p))
    ensures RenderPath(p, {}) + Text(rest) == Text(WritePath(PlainPath(p), rest))
    decreases p
  {
    if p.args.Some? {
      var args := if PrintsNothing(p.args.value) then "" else RenderArgs(p.args.value, {});
      NothingPrints(p.args.value);
      if !PrintsNothing(p.args.value) {
        ArgsAreText(p.args.value, rest);
      } else {
        assert "" + Text(rest) == Text(rest);
      }
      Assoc(p.path, args, Text(rest));
    } else {
      assert p.path + "" == p.path;
    }
  }

  lemma NothingPrints(a: GenericArgs)
    ensures PrintsNothing(a) ==> RenderArgs(a, {}) == ""
  {
  }

  lemma {:induction false} ArgsAreText(a: GenericArgs, rest: Tokens)
    requires LegibleArgs(PlainArgs(a))
    ensures RenderArgs(a, {}) + Text(rest) == Text(WriteArgs(PlainArgs(a), rest))
    decreases a
  {
    match a
    case AngleBracketed(_, _) => AngleIsText(a, rest);
    case Parenthesized(_, _) => ParenthesizedIsText(a, rest);
    case ReturnTypeNotation =>
  }

  lemma {:induction false} ParenthesizedIsText(a: GenericArgs, rest: Tokens)
    requires a.Parenthesized? && LegibleTypes(PlainTypes(a.inputs)) && LegibleOutput(PlainOutput(a.output), false)
    ensures RenderArgs(a, {}) + Text(rest) == Text(WriteArgs(PlainArgs(a), rest))
    decreases a, 0
  {
    hide RenderTypes, WriteTypes, PlainTypes, LegibleTypes, RenderOutput, WriteOutput, PlainOutput, LegibleOutput, Join, Text;
    var end := WriteOutput(PlainOutput(a.output), rest);
    TypesAreText(a.inputs, Cons(RParen, end));
    OutputIsText(a.output, false, rest);
    Assoc("(" + Join(RenderTypes(a.inputs, {}), ", ") + ")", RenderOutput(a.output, {}), Text(rest));
    Regroup("(", Join(RenderTypes(a.inputs, {}), ", "), ")", Text(end));
    TextCons(RParen, end);
    TextCons(LParen, WriteTypes(PlainTypes(a.inputs), Cons(RParen, end)));
  }

  lemma {:induction false} AngleIsText(a: GenericArgs, rest: Tokens)
    requires a.AngleBracketed? && LegibleArgList(PlainArgList(a.args)) && LegibleConstraints(PlainConstraints(a.constraints))
    ensures RenderArgs(a, {}) + Text(rest) == Text(WriteArgs(PlainArgs(a), rest))
    decreases a, 0
  {
    hide RenderArgList, RenderConstraints, WriteArgList, WriteConstraints, PlainArgList, PlainConstraints, LegibleArgList, LegibleConstraints, Text, Join;
    var close := Cons(Gt, rest);
    TextCons(Gt, rest);
    var plain := WriteArgs(PlainArgs(a), rest);
    if plain.Cons? {
      TextCons(plain.head, plain.tail);
    }
    ArgListLength(a.args, a.constraints);
    var args, constraints := RenderArgList(a.args, {}), RenderConstraints(a.constraints, {});
    if |a.args| == 0 && |a.constraints| == 0 {
      assert args + constraints == [];
      assert "" + Text(rest) == Text(rest);
    } else {
      Regroup("<", Join(args + constraints, ", "), ">", Text(rest));
      if |a.args| == 0 {
        assert args + constraints == constraints;
        ConstraintsAreText(a.constraints, close);
      } else if |a.constraints| == 0 {
        assert args + constraints == args;
        ArgListIsText(a.args, close);
      } else {
        var cs := WriteConstraints(PlainConstraints(a.constraints), close);
        ConstraintsAreText(a.constraints, close);
        ArgListIsText(a.args, Cons(Comma, cs));
        TextCons(Comma, cs);
        JoinAppend(args, constraints, ", ");
        Assoc(Join(args, ", "), ", " + Join(constraints, ", "), Text(close));
        Assoc(", ", Join(constraints, ", "), Text(close));
      }
    }
  }

  lemma {:induction false} ArgListLength(args: seq<GenericArg>, constraints: seq<AssocConstraint>)
    ensures |RenderArgList(args, {})| == |args| && |RenderConstraints(constraints, {})| == |constraints|
    decreases |args| + |constraints|
  {
    hide RenderArg, RenderConstraint;
    if |args| > 0 {
      ArgListLength(args[1..], constraints);
    } else if |constraints| > 0 {
      ArgListLength(args, constraints[1..]);
    }
  }

  lemma {:induction false} ArgIsText(a: GenericArg, rest: Tokens)
    requires LegibleArg(PlainArg(a))
    ensures RenderArg(a, {}) + Text(rest) == Text(WriteArg(PlainArg(a), rest))
    decreases a
  {
    hide ClassOf;
    match a
    case LifetimeArg(_) =>
    case TypeArg(t) => TypeIsText(t, true, rest);
    case ConstArg(expr) => NameIsText(expr, rest);
    case InferArg =>
  }

  lemma {:induction false} ArgListIsText(args: seq<GenericArg>, rest: Tokens)
    requires LegibleArgList(PlainArgList(args))
    ensures Join(RenderArgList(args, {}), ", ") + Text(rest) == Text(WriteArgList(PlainArgList(args), rest))
    decreases args
  {
    hide RenderArg, WriteArg, PlainArg, LegibleArg;
    if |args| == 0 {
      assert "" + Text(rest) == Text(rest);
    } else {
      var plain := PlainArgList(args);
      assert plain[1..] == PlainArgList(args[1..]);
      var others := WriteArgList(plain[1..], rest);
      ArgListLength(args[1..], []);
      ArgIsText(args[0], if |args| == 1 then rest else Cons(Comma, others));
      ArgListIsText(args[1..], rest);
      JoinFirst(RenderArg(args[0], {}), RenderArgList(args[1..], {}), ", ", Text(rest));
      TextCons(Comma, others);
    }
  }

  lemma {:induction false} ConstraintIsText(c: AssocConstraint, rest: Tokens)
    requires LegibleConstraint(PlainConstraint(c))
    ensures RenderConstraint(c, {}) + Text(rest) == Text(WriteConstraint(PlainConstraint(c), rest))
    decreases c
  {
    hide RenderArgs, WriteArgs, PlainArgs, LegibleArgs, RenderBinding, WriteBinding, PlainBinding, LegibleBinding, ClassOf;
    var binding := WriteBinding(PlainBinding(c.binding), rest);
    BindingIsText(c.binding, rest);
    ArgsAreText(c.args, binding);
    Regroup(c.name, RenderArgs(c.args, {}), RenderBinding(c.binding, {}), Text(rest));
    TextCons(Word(c.name), WriteArgs(PlainArgs(c.args), binding));
  }

  lemma {:induction false} BindingIsText(b: AssocBinding, rest: Tokens)
    requires LegibleBinding(PlainBinding(b))
    ensures RenderBinding(b, {}) + Text(rest) == Text(WriteBinding(PlainBinding(b), rest))
    decreases b
  {
    hide Text, Join, RenderTerm, WriteTerm, PlainTerm, LegibleTerm, RenderBounds, WriteBounds, PlainBounds, LegibleBounds;
    match b
    case Equality(term) =>
      TermIsText(term, rest);
      Assoc(" = ", RenderTerm(term, {}), Text(rest));
      TextCons(Equals, WriteTerm(PlainTerm(term), rest));
    case Constraint(bounds) =>
      BoundsAreText(bounds, rest);
      Assoc(": ", Join(RenderBounds(bounds, {}), " + "), Text(rest));
      TextCons(Colon, WriteBounds(PlainBounds(bounds), rest));
  }

  lemma {:induction false} ConstraintsAreText(cs: seq<AssocConstraint>, rest: Tokens)
    requires LegibleConstraints(PlainConstraints(cs))
    ensures Join(RenderConstraints(cs, {}), ", ") + Text(rest) == Text(WriteConstraints(PlainConstraints(cs), rest))
    decreases cs
  {
    hide RenderConstraint, WriteConstraint, PlainConstraint, LegibleConstraint;
    if |cs| == 0 {
      assert "" + Text(rest) == Text(rest);
    } else {
      var plain := PlainConstraints(cs);
      assert plain[1..] == PlainConstraints(cs[1..]);
      var others := WriteConstraints(plain[1..], rest);
      ArgListLength([], cs[1..]);
      ConstraintIsText(cs[0], if |cs| == 1 then rest else Cons(Comma, others));
      ConstraintsAreText(cs[1..], rest);
      JoinFirst(RenderConstraint(cs[0], {}), RenderConstraints(cs[1..], {}), ", ", Text(rest));
      TextCons(Comma, others);
    }
  }

  lemma {:induction false} TermIsText(t: Term, rest: Tokens)
    requires LegibleTerm(PlainTerm(t))
    ensures RenderTerm(t, {}) + Text(rest) == Text(WriteTerm(PlainTerm(t), rest))
    decreases t
  {
    hide ClassOf;
    match t
    case TypeTerm(type_) => TypeIsText(type_, true, rest);
    case ConstTerm(expr) => NameIsText(expr, rest);
  }

  // ---------- Bounds ----------

  lemma {:induction false} ForAllIsText(params: seq<GenericParam>, rest: Tokens)
    requires LegibleParams(PlainParams(params))
    ensures Enclose("for<", RenderParams(params, {}), ", ", "> ") + Text(rest) == Text(WriteForAll(PlainParams(params), rest))
    decreases params
  {
    ParamsAreText(params, Cons(GtSpace, rest));
    if |params| == 0 {
      assert "" + Text(rest) == Text(rest);
    } else {
      hide RenderParams, WriteParams, PlainParams;
      Regroup("for<", Join(RenderParams(params, {}), ", "), "> ", Text(rest));
      TextCons(GtSpace, rest);
    }
  }

  lemma {:induction false} GenericsAreText(params: seq<GenericParam>, rest: Tokens)
    requires LegibleParams(PlainParams(params))
    ensures Enclose("<", RenderParams(params, {}), ", ", ">") + Text(rest) == Text(WriteGenerics(PlainParams(params), rest))
    decreases params
  {
    ParamsAreText(params, Cons(Gt, rest));
    if |params| == 0 {
      assert "" + Text(rest) == Text(rest);
    } else {
      hide RenderParams, WriteParams, PlainParams;
      Regroup("<", Join(RenderParams(params, {}), ", "), ">", Text(rest));
      TextCons(Gt, rest);
    }
  }

  lemma {:induction false} PolyIsText(p: PolyTrait, rest: Tokens)
    requires LegiblePoly(PlainPoly(p))
    ensures RenderPoly(p, {}) + Text(rest) == Text(WritePoly(PlainPoly(p), rest))
    decreases p
  {
    hide RenderPath, WritePath, PlainPath, LegiblePath, RenderParams, PlainParams, LegibleParams, WriteForAll, Enclose;
    var path := WritePath(PlainPath(p.trait_), rest);
    PathIsText(p.trait_, rest);
    ForAllIsText(p.params, path);
    Assoc(Enclose("for<", RenderParams(p.params, {}), ", ", "> "), RenderPath(p.trait_, {}), Text(rest));
  }

  lemma {:induction false} PolysLength(ps: seq<PolyTrait>)
    ensures |RenderPolys(ps, {})| == |ps|
  {
    hide RenderPoly;
    if |ps| == 0 {
    } else {
      PolysLength(ps[1..]);
    }
  }

  lemma {:induction false} PolysAreText(ps: seq<PolyTrait>, rest: Tokens)
    requires LegiblePolys(PlainPolys(ps))
    ensures Join(RenderPolys(ps, {}), " + ") + Text(rest) == Text(WritePolys(PlainPolys(ps), rest))
    decreases ps
  {
    hide RenderPoly, WritePoly, PlainPoly, LegiblePoly;
    if |ps| == 0 {
      assert "" + Text(rest) == Text(rest);
    } else {
      var plain := PlainPolys(ps);
      assert plain[1..] == PlainPolys(ps[1..]);
      var others := WritePolys(plain[1..], rest);
      PolysLength(ps[1..]);
      PolyIsText(ps[0], if |ps| == 1 then rest else Cons(Plus, others));
      PolysAreText(ps[1..], rest);
      JoinFirst(RenderPoly(ps[0], {}), RenderPolys(ps[1..], {}), " + ", Text(rest));
      TextCons(Plus, others);
    }
  }

  lemma {:induction false} CapturesAreText(captures: seq<CaptureArg>, rest: Tokens)
    ensures |RenderCaptures(captures, {})| == |captures|
    ensures Join(RenderCaptures(captures, {}), ", ") + Text(rest) == Text(WriteCaptures(captures, rest))
  {
    if |captures| == 0 {
      assert "" + Text(rest) == Text(rest);
    } else {
      var others := WriteCaptures(captures[1..], rest);
      CapturesAreText(captures[1..], rest);
      assert RenderCaptures(captures, {}) == [CaptureText(captures[0])] + RenderCaptures(captures[1..], {});
      JoinFirst(CaptureText(captures[0]), RenderCaptures(captures[1..], {}), ", ", Text(rest));
      TextCons(Comma, others);
    }
  }

  lemma {:induction false} LifetimesAreText(lifetimes: seq<string>, rest: Tokens)
    ensures Join(lifetimes, " + ") + Text(rest) == Text(WriteLifetimes(lifetimes, rest))
  {
    if |lifetimes| == 0 {
      assert "" + Text(rest) == Text(rest);
    } else {
      var others := WriteLifetimes(lifetimes[1..], rest);
      LifetimesAreText(lifetimes[1..], rest);
      assert lifetimes == [lifetimes[0]] + lifetimes[1..];
      JoinFirst(lifetimes[0], lifetimes[1..], " + ", Text(rest));
      TextCons(Plus, others);
    }
  }

  lemma PathIsNotEmpty(p: Path)
    requires LegiblePath(PlainPath(p))
    ensures |RenderPath(p, {})| > 0
  {
    WordsAreNotEmpty(p.path);
    hide ClassOf, RenderArgs;
  }

  lemma {:induction false} BoundIsText(b: GenericBound, rest: Tokens)
    requires LegibleBound(PlainBound(b))
    ensures RenderBound(b, {}) + Text(rest) == Text(WriteBound(PlainBound(b), rest))
    ensures RenderBound(b, {}) != ""
    decreases b
  {
    match b
    case TraitBound(_, _, _) => TraitBoundIsText(b, rest);
    case Outlives(lifetime) => OutlivesIsText(lifetime, rest);
    case Captures(captures) => UseIsText(captures, rest);
  }

  lemma OutlivesIsText(lifetime: string, rest: Tokens)
    requires IsLifetime(lifetime)
    ensures RenderBound(Outlives(lifetime), {}) + Text(rest) == Text(WriteBound(Outlives(lifetime), rest)) && RenderBound(Outlives(lifetime), {}) != ""
  {
    WordsAreNotEmpty(lifetime);
    hide ClassOf;
  }

  lemma UseIsText(captures: seq<CaptureArg>, rest: Tokens)
    ensures RenderBound(Captures(captures), {}) + Text(rest) == Text(WriteBound(Captures(captures), rest)) && RenderBound(Captures(captures), {}) != ""
  {
    hide Text, Join, RenderCaptures, WriteCaptures;
    CapturesAreText(captures, Cons(Gt, rest));
    Regroup("use<", Join(RenderCaptures(captures, {}), ", "), ">", Text(rest));
    TextCons(Gt, rest);
    TextCons(UseLt, WriteCaptures(captures, Cons(Gt, rest)));
  }

  lemma {:induction false} TraitBoundIsText(b: GenericBound, rest: Tokens)
    requires b.TraitBound? && LegibleBound(PlainBound(b))
    ensures RenderBound(b, {}) + Text(rest) == Text(WriteBound(PlainBound(b), rest))
    ensures RenderBound(b, {}) != ""
    decreases b, 0
  {
    hide RenderPath, WritePath, PlainPath, LegiblePath, RenderParams, PlainParams, LegibleParams, WriteForAll, Enclose;
    var path := WritePath(PlainPath(b.trait_), rest);
    PathIsText(b.trait_, rest);
    PathIsNotEmpty(b.trait_);
    var modified := WriteModifier(b.modifier, path);
    assert RenderModifier(b.modifier) + Text(path) == Text(modified) by {
      assert "" + Text(path) == Text(path);
    }
    ForAllIsText(b.params, modified);
    Regroup(Enclose("for<", RenderParams(b.params, {}), ", ", "> "), RenderModifier(b.modifier), RenderPath(b.trait_, {}), Text(rest));
  }

  lemma {:induction false} BoundsAreText(bs: seq<GenericBound>, rest: Tokens)
    requires LegibleBounds(PlainBounds(bs))
    ensures |RenderBounds(bs, {})| == |bs|
    ensures Join(RenderBounds(bs, {}), " + ") + Text(rest) == Text(WriteBounds(PlainBounds(bs), rest))
    decreases bs
  {
    hide RenderBound, WriteBound, PlainBound, LegibleBound;
    if |bs| == 0 {
      assert "" + Text(rest) == Text(rest);
    } else {
      var plain := PlainBounds(bs);
      assert plain[1..] == PlainBounds(bs[1..]);
      var others := WriteBounds(plain[1..], rest);
      BoundIsText(bs[0], if |bs| == 1 then rest else Cons(Plus, others));
      BoundsAreText(bs[1..], rest);
      JoinFirst(RenderBound(bs[0], {}), RenderBounds(bs[1..], {}), " + ", Text(rest));
      TextCons(Plus, others);
    }
  }

  // ---------- Generic parameters ----------

  lemma {:induction false} ParamIsText(p: GenericParam, rest: Tokens)
    requires LegibleParam(PlainParam(p))
    ensures RenderParam(p, {}) + Text(rest) == Text(WriteParam(PlainParam(p), rest))
    ensures RenderParam(p, {}) != ""
    decreases p
  {
    WordsAreNotEmpty(p.name);
    match p.kind
    case LifetimeParam(outlives) =>
      NothingWithout(outlives);
      LifetimesAreText(outlives, rest);
      ColonText(p.name, outlives, " + ", rest, WriteLifetimes(outlives, rest));
    case TypeParam(_, _) => TypeParamIsText(p, rest);
    case ConstParam(_, _) => ConstParamIsText(p, rest);
  }

  /** A name, and after a colon what is joined, if anything. */
  lemma ColonText(name: string, parts: seq<string>, separator: string, rest: Tokens, after: Tokens)
    requires Join(parts, separator) + Text(rest) == Text(after)
    ensures name + Enclose(": ", parts, separator, "") + Text(rest) == Text(Cons(Word(name), if |parts| == 0 then rest else Cons(Colon, after)))
  {
    if |parts| == 0 {
      assert name + "" == name;
    } else {
      assert ": " + Join(parts, separator) + "" == ": " + Join(parts, separator);
      Regroup(name, ": ", Join(parts, separator), Text(rest));
      Assoc(name, ": ", Join(parts, separator));
      TextCons(Colon, after);
      TextCons(Word(name), Cons(Colon, after));
    }
  }

  lemma {:induction false} DefaultIsText(default: Option<Type>, rest: Tokens)
    requires LegibleOutput(PlainOutput(default), true)
    ensures (if default.Some? then " = " + RenderType(default.value, {}) else "") + Text(rest) ==
            Text(if default.Some? then Cons(Equals, WriteType(PlainType(default.value), rest)) else rest)
    decreases default
  {
    if default.Some? {
      TypeIsText(default.value, true, rest);
      Assoc(" = ", RenderType(default.value, {}), Text(rest));
      TextCons(Equals, WriteType(PlainType(default.value), rest));
    } else {
      assert "" + Text(rest) == Text(rest);
    }
  }

  lemma {:induction false} TypeParamIsText(p: GenericParam, rest: Tokens)
    requires p.kind.TypeParam? && LegibleParam(PlainParam(p))
    ensures RenderParam(p, {}) + Text(rest) == Text(WriteParam(PlainParam(p), rest))
    ensures RenderParam(p, {}) != ""
    decreases p, 0
  {
    WordsAreNotEmpty(p.name);
    var bounds, default := p.kind.bounds, p.kind.default;
    hide RenderType, WriteType, PlainType, RenderBounds, WriteBounds, PlainBounds, LegibleBounds, LegibleOutput, Enclose, ClassOf;
    var end := if default.Some? then Cons(Equals, WriteType(PlainType(default.value), rest)) else rest;
    var after := if default.Some? then " = " + RenderType(default.value, {}) else "";
    DefaultIsText(default, rest);
    BoundsAreText(bounds, end);
    ColonText(p.name, RenderBounds(bounds, {}), " + ", end, WriteBounds(PlainBounds(bounds), end));
    Assoc(p.name + Enclose(": ", RenderBounds(bounds, {}), " + ", ""), after, Text(rest));
  }

  lemma {:induction false} ConstParamIsText(p: GenericParam, rest: Tokens)
    requires p.kind.ConstParam? && LegibleParam(PlainParam(p))
    ensures RenderParam(p, {}) + Text(rest) == Text(WriteParam(PlainParam(p), rest))
    ensures RenderParam(p, {}) != ""
    decreases p, 0
  {
    hide RenderType, WriteType, PlainType, LegibleType, ClassOf, Text;
    var type_, default := p.kind.type_, p.kind.constDefault;
    var end := if default.Some? then Cons(Equals, Cons(Word(default.value), rest)) else rest;
    var after := if default.Some? then " = " + default.value else "";
    TypeIsText(type_, true, end);
    ConstDefaultText(default, rest);
    var written := WriteType(PlainType(type_), end);
    Regroup("const " + p.name + ": ", RenderType(type_, {}), after, Text(rest));
    Regroup("const ", p.name, ": ", Text(written));
    TextCons(Colon, written);
    TextCons(Word(p.name), Cons(Colon, written));
    TextCons(Const, Cons(Word(p.name), Cons(Colon, written)));
  }

  lemma ConstDefaultText(default: Option<string>, rest: Tokens)
    ensures (if default.Some? then " = " + default.value else "") + Text(rest) == Text(if default.Some? then Cons(Equals, Cons(Word(default.value), rest)) else rest)
  {
    hide Text;
    if default.Some? {
      Assoc(" = ", default.value, Text(rest));
      TextCons(Word(default.value), rest);
      TextCons(Equals, Cons(Word(default.value), rest));
    } else {
      assert "" + Text(rest) == Text(rest);
    }
  }

  lemma {:induction false} ParamsAreText(ps: seq<GenericParam>, rest: Tokens)
    requires LegibleParams(PlainParams(ps))
    ensures |RenderParams(ps, {})| == |ps|
    ensures Join(RenderParams(ps, {}), ", ") + Text(rest) == Text(WriteParams(PlainParams(ps), rest))
    decreases ps, 0
  {
    hide RenderParam, WriteParam, PlainParam, LegibleParam;
    if |ps| == 0 {
      assert "" + Text(rest) == Text(rest);
    } else {
      var plain := PlainParams(ps);
      assert plain[1..] == PlainParams(ps[1..]);
      var others := WriteParams(plain[1..], rest);
      ParamIsText(ps[0], if |ps| == 1 then rest else Cons(Comma, others));
      ParamsAreText(ps[1..], rest);
      JoinFirst(RenderParam(ps[0], {}), RenderParams(ps[1..], {}), ", ", Text(rest));
      TextCons(Comma, others);
    }
  }

  // ---------- Where-clauses ----------

  lemma PredicateIsText(w: WherePredicate, rest: Tokens)
    requires !SaysNothing(w) && LegiblePredicate(PlainPredicate(w))
    ensures RenderPredicate(w, {}).Some?
    ensures RenderPredicate(w, {}).value + Text(rest) == Text(WritePredicate(PlainPredicate(w), rest))
  {
    match w
    case BoundPredicate(_, _, _) => BoundPredicateIsText(w, rest);
    case LifetimePredicate(_, _) => LifetimePredicateIsText(w, rest);
    case EqPredicate(_, _) => EqPredicateIsText(w, rest);
  }

  lemma BoundPredicateIsText(w: WherePredicate, rest: Tokens)
    requires w.BoundPredicate? && !SaysNothing(w) && LegiblePredicate(PlainPredicate(w))
    ensures RenderPredicate(w, {}).Some?
    ensures RenderPredicate(w, {}).value + Text(rest) == Text(WritePredicate(PlainPredicate(w), rest))
  {
    hide RenderType, WriteType, PlainType, LegibleType, RenderBounds, WriteBounds, PlainBounds, LegibleBounds, RenderParams, PlainParams, LegibleParams;
    hide WriteForAll, Enclose, Text, Join;
    var end := Cons(Colon, WriteBounds(PlainBounds(w.bounds), rest));
    BoundsAreText(w.bounds, rest);
    TypeIsText(w.type_, true, end);
    ForAllIsText(w.params, WriteType(PlainType(w.type_), end));
    TextCons(Colon, WriteBounds(PlainBounds(w.bounds), rest));
    Regroup(Enclose("for<", RenderParams(w.params, {}), ", ", "> ") + RenderType(w.type_, {}), ": ", Join(RenderBounds(w.bounds, {}), " + "), Text(rest));
    Assoc(Enclose("for<", RenderParams(w.params, {}), ", ", "> "), RenderType(w.type_, {}), Text(end));
  }

  lemma LifetimePredicateIsText(w: WherePredicate, rest: Tokens)
    requires w.LifetimePredicate? && !SaysNothing(w)
    ensures RenderPredicate(w, {}).Some?
    ensures RenderPredicate(w, {}).value + Text(rest) == Text(WritePredicate(PlainPredicate(w), rest))
  {
    hide WriteLifetimes, Text, Join, Without;
    NothingWithout(w.outlives);
    LifetimesAreText(w.outlives, rest);
    Regroup(w.lifetime, ": ", Join(w.outlives, " + "), Text(rest));
    TextCons(Colon, WriteLifetimes(w.outlives, rest));
    TextCons(Word(w.lifetime), Cons(Colon, WriteLifetimes(w.outlives, rest)));
  }

  lemma EqPredicateIsText(w: WherePredicate, rest: Tokens)
    requires w.EqPredicate? && LegiblePredicate(PlainPredicate(w))
    ensures RenderPredicate(w, {}).Some?
    ensures RenderPredicate(w, {}).value + Text(rest) == Text(WritePredicate(PlainPredicate(w), rest))
  {
    hide RenderType, WriteType, PlainType, LegibleType, RenderTerm, WriteTerm, PlainTerm, LegibleTerm, Text;
    var end := Cons(Equals, WriteTerm(PlainTerm(w.rhs), rest));
    TermIsText(w.rhs, rest);
    TypeIsText(w.lhs, true, end);
    TextCons(Equals, WriteTerm(PlainTerm(w.rhs), rest));
    Regroup(RenderType(w.lhs, {}), " = ", RenderTerm(w.rhs, {}), Text(rest));
  }

  lemma NothingSaid(w: WherePredicate)
    ensures SaysNothing(w) ==> RenderPredicate(w, {}) == None
  {
  }

  lemma {:induction false} PredicatesAreText(ws: seq<WherePredicate>, rest: Tokens)
    requires LegiblePredicates(PlainPredicates(ws))
    ensures |RenderPredicates(ws, {})| == |PlainPredicates(ws)|
    ensures Join(RenderPredicates(ws, {}), ", ") + Text(rest) == Text(WritePredicates(PlainPredicates(ws), rest))
  {
    hide RenderPredicate, WritePredicate, PlainPredicate, LegiblePredicate, SaysNothing;
    if |ws| == 0 {
      assert "" + Text(rest) == Text(rest);
    } else if SaysNothing(ws[0]) {
      NothingSaid(ws[0]);
      PredicatesAreText(ws[1..], rest);
    } else {
      var plain := PlainPredicates(ws);
      assert plain[1..] == PlainPredicates(ws[1..]);
      var others := WritePredicates(plain[1..], rest);
      PredicateIsText(ws[0], if |plain| == 1 then rest else Cons(Comma, others));
      PredicatesAreText(ws[1..], rest);
      JoinFirst(RenderPredicate(ws[0], {}).value, RenderPredicates(ws[1..], {}), ", ", Text(rest));
      TextCons(Comma, others);
    }
  }
}
