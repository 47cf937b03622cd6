/**
  Eliding lifetimes changes nothing else: of every legible type the tokens written with and without an elision set are
  the same, apart from lifetimes and the punctuation between and around them.
  */
module ElisionKeeps {
  import opened Basics
  import opened TypeSyntax
  import opened TypeRender
  import opened TypeTokens
  import opened TypeReader
  import opened TypeText
  import opened SignatureReading

  /** Lifetimes, and what only separates or encloses. */
  predicate IsIncidental(token: Token) {
    match token
    case Word(text) => IsLifetime(text)
    case RefLifetime(_) => true
    case Comma => true
    case Plus => true
    case Colon => true
    case Lt => true
    case Gt => true
    case GtSpace => true
    case ForLt => true
    case _ => false
  }

  /** The tokens that matter, in order. */
  function Kept(tokens: Tokens): Tokens {
    match tokens
    case Nil => Nil
    case Cons(head, tail) => if IsIncidental(head) then Kept(tail) else Cons(head, Kept(tail))
  }

  predicate Lifetimes(names: set<string>) {
    forall name :: name in names ==> IsLifetime(name)
  }

  lemma PlaceholderIsLifetime()
    ensures IsLifetime(PLACEHOLDER)
  {
    assert PLACEHOLDER[1..] == "_" && AllNameChars("_");
  }

  lemma HeaderKept(header: FunctionHeader, a: Tokens, b: Tokens)
    requires Kept(a) == Kept(b)
    ensures Kept(WriteHeader(header, a)) == Kept(WriteHeader(header, b))
  {
    hide QuotedAbi;
    var abi := QuotedAbi(header.abi);
    var a1, b1 := if header.abi.Rust? then a else Cons(Extern(abi), a), if header.abi.Rust? then b else Cons(Extern(abi), b);
    var a2, b2 := if header.isUnsafe then Cons(Unsafe, a1) else a1, if header.isUnsafe then Cons(Unsafe, b1) else b1;
    var a3, b3 := if header.isAsync then Cons(Async, a2) else a2, if header.isAsync then Cons(Async, b2) else b2;
    assert Kept(a1) == Kept(b1) && Kept(a2) == Kept(b2) && Kept(a3) == Kept(b3);
  }

  lemma VariadicKept(isVariadic: bool, anyInputs: bool, a: Tokens, b: Tokens)
    requires Kept(a) == Kept(b)
    ensures Kept(WriteVariadic(isVariadic, anyInputs, a)) == Kept(WriteVariadic(isVariadic, anyInputs, b))
  {
  }

  lemma {:induction false} LifetimesKept(lifetimes: seq<string>, rest: Tokens)
    requires AreLifetimes(lifetimes)
    ensures Kept(WriteLifetimes(lifetimes, rest)) == Kept(rest)
  {
    hide ClassOf;
    if |lifetimes| == 0 {
    } else {
      LifetimesKept(lifetimes[1..], rest);
    }
  }

  lemma {:induction false} WithoutAreLifetimes(lifetimes: seq<string>, gone: set<string>)
    requires AreLifetimes(lifetimes)
    ensures AreLifetimes(Without(lifetimes, gone))
  {
    hide ClassOf, IsLifetime;
    if |lifetimes| == 0 {
    } else {
      WithoutAreLifetimes(lifetimes[1..], gone);
    }
  }

  // ---------- Types ----------

  lemma Erases(t: Type, gone: set<string>)
    ensures t.ResolvedPath? ==> EraseType(t, gone) == ResolvedPath(ErasePath(t.path, gone))
    ensures t.DynTrait? ==> EraseType(t, gone) == DynTrait(ErasePolys(t.traits, gone), Keep(t.bound, gone))
    ensures t.Generic? || t.Primitive? || t.Infer? ==> EraseType(t, gone) == t
    ensures t.FunctionPointer? ==>
              EraseType(t, gone) == FunctionPointer(t.header, EraseParams(t.params, gone), EraseTypes(t.inputs, gone), t.isVariadic, EraseOutput(t.output, gone))
    ensures t.Tuple? ==> EraseType(t, gone) == Tuple(EraseTypes(t.types, gone))
    ensures t.Slice? ==> EraseType(t, gone) == Slice(EraseType(t.elem, gone))
    ensures t.Array? ==> EraseType(t, gone) == Array(EraseType(t.elem, gone), t.len)
    ensures t.Pat? ==> EraseType(t, gone) == Pat(EraseType(t.elem, gone))
    ensures t.ImplTrait? ==> EraseType(t, gone) == ImplTrait(EraseBounds(t.bounds, gone))
    ensures t.RawPointer? ==> EraseType(t, gone) == RawPointer(t.isMutable, EraseType(t.elem, gone))
    ensures t.BorrowedRef? ==> EraseType(t, gone) == BorrowedRef(Keep(t.lifetime, gone), t.isMutable, EraseType(t.elem, gone))
    ensures t.QualifiedPath? ==>
              EraseType(t, gone) == QualifiedPath(t.name, EraseArgs(t.args, gone), EraseType(t.selfType, gone), if t.trait_.Some? then Some(ErasePath(t.trait_.value, gone)) else None)
  {
    hide ErasePath, ErasePolys, EraseParams, EraseTypes, EraseOutput, EraseBounds, EraseArgs, Keep;
  }

  lemma {:induction false} TypeKept(t: Type, many: bool, gone: set<string>, a: Tokens, b: Tokens)
    requires LegibleType(PlainType(t), many) && Lifetimes(gone) && Kept(a) == Kept(b)
    ensures Kept(WriteType(PlainType(EraseType(t, gone)), a)) == Kept(WriteType(PlainType(t), b))
    decreases t
  {
    hide ClassOf, IsLifetime, IsName, Lifetimes, WriteType, PlainType, EraseType, LegibleType, WriteTypes, PlainTypes, EraseTypes, LegibleTypes;
    hide WritePath, PlainPath, ErasePath, LegiblePath, WriteBounds, PlainBounds, EraseBounds, LegibleBounds;
    Erases(t, gone);
    Plains(t);
    Plains(EraseType(t, gone));
    Writes(PlainType(t), b);
    Writes(PlainType(EraseType(t, gone)), a);
    LegibleIs(PlainType(t), many);
    match t
    case ResolvedPath(path) => PathKept(path, gone, a, b);
    case DynTrait(_, _) => DynKept(t, many, gone, a, b);
    case Generic(name) => NameKept(name, a, b);
    case Primitive(name) => NameKept(name, a, b);
    case FunctionPointer(_, _, _, _, _) => FunctionPointerKept(t, many, gone, a, b);
    case Tuple(types) => TypesKept(types, gone, Cons(RParen, a), Cons(RParen, b));
    case Slice(elem) => TypeKept(elem, true, gone, Cons(RBracket, a), Cons(RBracket, b));
    case Array(_, _) => ArrayKept(t, many, gone, a, b);
    case Pat(elem) => TypeKept(elem, many, gone, a, b);
    case ImplTrait(bounds) => BoundsKept(bounds, gone, a, b);
    case Infer =>
    case RawPointer(_, _) => RawPointerKept(t, gone, a, b);
    case BorrowedRef(_, _, _) => BorrowedRefKept(t, gone, a, b);
    case QualifiedPath(_, _, _, _) => QualifiedKept(t, many, gone, a, b);
  }

  lemma NameKept(name: string, a: Tokens, b: Tokens)
    requires Kept(a) == Kept(b)
    ensures Kept(WriteType(NamePath(name), a)) == Kept(WriteType(NamePath(name), b))
  {
    hide ClassOf;
  }

  lemma {:induction false} RawPointerKept(t: Type, gone: set<string>, a: Tokens, b: Tokens)
    requires t.RawPointer? && LegibleType(PlainType(t.elem), false) && Lifetimes(gone) && Kept(a) == Kept(b)
    ensures Kept(WriteType(PlainType(EraseType(t, gone)), a)) == Kept(WriteType(PlainType(t), b))
    decreases t, 0
  {
    hide ClassOf, Lifetimes, WriteType, PlainType, EraseType, LegibleType;
    Erases(t, gone);
    Plains(t);
    Plains(EraseType(t, gone));
    Writes(PlainType(t), b);
    Writes(PlainType(EraseType(t, gone)), a);
    TypeKept(t.elem, false, gone, a, b);
    var x, y := WriteType(PlainType(EraseType(t.elem, gone)), a), WriteType(PlainType(t.elem), b);
    assert Kept(Cons(Mut, x)) == Kept(Cons(Mut, y)) && Kept(Cons(Const, x)) == Kept(Cons(Const, y));
  }

  lemma {:induction false} BorrowedRefKept(t: Type, gone: set<string>, a: Tokens, b: Tokens)
    requires t.BorrowedRef? && LegibleType(PlainType(t.elem), false) && Lifetimes(gone) && Kept(a) == Kept(b)
    ensures Kept(WriteType(PlainType(EraseType(t, gone)), a)) == Kept(WriteType(PlainType(t), b))
    decreases t, 0
  {
    hide ClassOf, Lifetimes, WriteType, PlainType, EraseType, LegibleType;
    Erases(t, gone);
    Plains(t);
    Plains(EraseType(t, gone));
    Writes(PlainType(t), b);
    Writes(PlainType(EraseType(t, gone)), a);
    TypeKept(t.elem, false, gone, a, b);
    var x, y := WriteType(PlainType(EraseType(t.elem, gone)), a), WriteType(PlainType(t.elem), b);
    var v, w := if t.isMutable then Cons(Mut, x) else x, if t.isMutable then Cons(Mut, y) else y;
    assert Kept(v) == Kept(w);
    var l := Keep(t.lifetime, gone);
    assert Kept(if l.Some? then Cons(RefLifetime(l.value), v) else v) == Kept(if t.lifetime.Some? then Cons(RefLifetime(t.lifetime.value), w) else w);
  }

  lemma {:induction false} ArrayKept(t: Type, many: bool, gone: set<string>, a: Tokens, b: Tokens)
    requires t.Array? && LegibleType(PlainType(t.elem), true) && Lifetimes(gone) && Kept(a) == Kept(b)
    ensures Kept(WriteType(PlainType(EraseType(t, gone)), a)) == Kept(WriteType(PlainType(t), b))
    decreases t, 0
  {
    hide ClassOf, Lifetimes, WriteType, PlainType, EraseType, LegibleType;
    Erases(t, gone);
    Plains(t);
    Plains(EraseType(t, gone));
    Writes(PlainType(t), b);
    Writes(PlainType(EraseType(t, gone)), a);
    var x, y := Cons(Word(t.len), Cons(RBracket, a)), Cons(Word(t.len), Cons(RBracket, b));
    assert Kept(x) == Kept(y);
    TypeKept(t.elem, true, gone, Cons(SemiSpace, x), Cons(SemiSpace, y));
  }

  lemma {:induction false} DynKept(t: Type, many: bool, gone: set<string>, a: Tokens, b: Tokens)
    requires t.DynTrait? && LegibleType(PlainType(t), many) && Lifetimes(gone) && Kept(a) == Kept(b)
    ensures Kept(WriteType(PlainType(EraseType(t, gone)), a)) == Kept(WriteType(PlainType(t), b))
    decreases t, 0
  {
    hide ClassOf, Lifetimes, WriteType, PlainType, EraseType, LegibleType, WritePolys, PlainPolys, ErasePolys, LegiblePolys;
    Erases(t, gone);
    Plains(t);
    Plains(EraseType(t, gone));
    Writes(PlainType(t), b);
    Writes(PlainType(EraseType(t, gone)), a);
    LegibleIs(PlainType(t), many);
    var bound := Keep(t.bound, gone);
    var x := if bound.Some? then Cons(Plus, Cons(Word(bound.value), a)) else a;
    var y := if t.bound.Some? then Cons(Plus, Cons(Word(t.bound.value), b)) else b;
    assert Kept(x) == Kept(a) && Kept(y) == Kept(b);
    PolysKept(t.traits, gone, x, y);
  }

  lemma {:induction false} FunctionPointerKept(t: Type, many: bool, gone: set<string>, a: Tokens, b: Tokens)
    requires t.FunctionPointer? && LegibleType(PlainType(t), many) && Lifetimes(gone) && Kept(a) == Kept(b)
    ensures Kept(WriteType(PlainType(EraseType(t, gone)), a)) == Kept(WriteType(PlainType(t), b))
    decreases t, 0
  {
    hide ClassOf, Lifetimes, WriteType, PlainType, EraseType, LegibleType, WriteTypes, PlainTypes, EraseTypes, LegibleTypes, WriteParams, PlainParams, EraseParams, LegibleParams;
    hide WriteOutput, PlainOutput, EraseOutput, LegibleOutput, WriteHeader, PlainHeader, LegibleHeader, WriteVariadic, WriteGenerics;
    var e := EraseType(t, gone);
    Erases(t, gone);
    Plains(t);
    Plains(e);
    FunctionPointerWrites(PlainType(t), b);
    FunctionPointerWrites(PlainType(e), a);
    LegibleIs(PlainType(t), many);
    OutputKept(t.output, false, gone, a, b);
    var x, y := Cons(RParen, WriteOutput(PlainOutput(e.output), a)), Cons(RParen, WriteOutput(PlainOutput(t.output), b));
    var v, w := WriteVariadic(t.isVariadic, |t.inputs| > 0, x), WriteVariadic(t.isVariadic, |t.inputs| > 0, y);
    VariadicKept(t.isVariadic, |t.inputs| > 0, x, y);
    TypesKept(t.inputs, gone, v, w);
    var m, n := Cons(LParen, WriteTypes(PlainTypes(e.inputs), v)), Cons(LParen, WriteTypes(PlainTypes(t.inputs), w));
    GenericsKept(t.params, gone, m, n);
    HeaderKept(PlainHeader(t.header), Cons(Fn, WriteGenerics(PlainParams(e.params), m)), Cons(Fn, WriteGenerics(PlainParams(t.params), n)));
  }

  lemma {:induction false} QualifiedKept(t: Type, many: bool, gone: set<string>, a: Tokens, b: Tokens)
    requires t.QualifiedPath? && LegibleType(PlainType(t), many) && Lifetimes(gone) && Kept(a) == Kept(b)
    ensures Kept(WriteType(PlainType(EraseType(t, gone)), a)) == Kept(WriteType(PlainType(t), b))
    decreases t, 0
  {
    hide ClassOf, Lifetimes, WriteType, PlainType, EraseType, LegibleType, WriteArgs, PlainArgs, EraseArgs, LegibleArgs, WritePath, PlainPath, ErasePath, LegiblePath;
    var e := EraseType(t, gone);
    Erases(t, gone);
    Plains(t);
    Plains(e);
    QualifiedWrites(PlainType(t), b);
    QualifiedWrites(PlainType(e), a);
    LegibleIs(PlainType(t), many);
    ArgsKept(t.args, gone, a, b);
    var x, y := Cons(Word(t.name), WriteArgs(PlainArgs(e.args), a)), Cons(Word(t.name), WriteArgs(PlainArgs(t.args), b));
    assert Kept(x) == Kept(y);
    var p, q := Cons(GtPath, x), Cons(GtPath, y);
    if t.trait_.Some? {
      PathKept(t.trait_.value, gone, p, q);
      TypeKept(t.selfType, true, gone, Cons(As, WritePath(PlainPath(e.trait_.value), p)), Cons(As, WritePath(PlainPath(t.trait_.value), q)));
    } else {
      TypeKept(t.selfType, true, gone, p, q);
    }
  }

  lemma {:induction false} TypesKept(ts: seq<Type>, gone: set<string>, a: Tokens, b: Tokens)
    requires LegibleTypes(PlainTypes(ts)) && Lifetimes(gone) && Kept(a) == Kept(b)
    ensures Kept(WriteTypes(PlainTypes(EraseTypes(ts, gone)), a)) == Kept(WriteTypes(PlainTypes(ts), b))
    decreases ts
  {
    hide ClassOf, Lifetimes, WriteType, PlainType, EraseType, LegibleType;
    if |ts| == 0 {
    } else {
      TypesKept(ts[1..], gone, a, b);
      var erased := EraseTypes(ts, gone);
      assert erased[1..] == EraseTypes(ts[1..], gone) && PlainTypes(erased)[1..] == PlainTypes(erased[1..]) && PlainTypes(ts)[1..] == PlainTypes(ts[1..]);
      TypeKept(ts[0], true, gone, if |ts| == 1 then a else Cons(Comma, WriteTypes(PlainTypes(erased)[1..], a)),
               if |ts| == 1 then b else Cons(Comma, WriteTypes(PlainTypes(ts)[1..], b)));
    }
  }

  lemma {:induction false} OutputKept(output: Option<Type>, many: bool, gone: set<string>, a: Tokens, b: Tokens)
    requires LegibleOutput(PlainOutput(output), many) && Lifetimes(gone) && Kept(a) == Kept(b)
    ensures Kept(WriteOutput(PlainOutput(EraseOutput(output, gone)), a)) == Kept(WriteOutput(PlainOutput(output), b))
    decreases output
  {
    hide Lifetimes;
    if output.Some? {
      TypeKept(output.value, many, gone, a, b);
    }
    hide WriteType, PlainType, EraseType, LegibleType;
  }

  // ---------- Paths and arguments ----------

  lemma {:induction false} PathKept(p: Path, gone: set<string>, a: Tokens, b: Tokens)
    requires LegiblePath(PlainPath(p)) && Lifetimes(gone) && Kept(a) == Kept(b)
    ensures Kept(WritePath(PlainPath(ErasePath(p, gone)), a)) == Kept(WritePath(PlainPath(p), b))
    decreases p
  {
    hide ClassOf, Lifetimes, WriteArgs, PlainArgs, LegibleArgs;
    if p.args.Some? {
      ArgsLength(p.args.value, gone);
      hide EraseArgs;
      if !PrintsNothing(p.args.value) {
        ArgsKept(p.args.value, gone, a, b);
      }
    }
  }

  lemma {:induction false} ArgsLength(a: GenericArgs, gone: set<string>)
    ensures PrintsNothing(EraseArgs(a, gone)) <==> PrintsNothing(a)
  {
    if a.AngleBracketed? {
      assert |EraseArgList(a.args, gone)| > 0 <==> |a.args| > 0;
      assert |EraseConstraints(a.constraints, gone)| > 0 <==> |a.constraints| > 0;
    }
  }

  lemma {:induction false} ArgsKept(g: GenericArgs, gone: set<string>, a: Tokens, b: Tokens)
    requires LegibleArgs(PlainArgs(g)) && Lifetimes(gone) && Kept(a) == Kept(b)
    ensures Kept(WriteArgs(PlainArgs(EraseArgs(g, gone)), a)) == Kept(WriteArgs(PlainArgs(g), b))
    decreases g
  {
    hide Lifetimes;
    match g
    case AngleBracketed(_, _) => AngleKept(g, gone, a, b);
    case Parenthesized(inputs, output) =>
      OutputKept(output, false, gone, a, b);
      TypesKept(inputs, gone, Cons(RParen, WriteOutput(PlainOutput(EraseOutput(output, gone)), a)), Cons(RParen, WriteOutput(PlainOutput(output), b)));
      hide WriteTypes, PlainTypes, EraseTypes, LegibleTypes, WriteOutput, PlainOutput, EraseOutput, LegibleOutput;
    case ReturnTypeNotation =>
  }

  lemma {:induction false} AngleKept(g: GenericArgs, gone: set<string>, a: Tokens, b: Tokens)
    requires g.AngleBracketed? && LegibleArgList(PlainArgList(g.args)) && LegibleConstraints(PlainConstraints(g.constraints)) && Lifetimes(gone) && Kept(a) == Kept(b)
    ensures Kept(WriteArgs(PlainArgs(EraseArgs(g, gone)), a)) == Kept(WriteArgs(PlainArgs(g), b))
    decreases g, 0
  {
    hide Lifetimes, LegibleArgList, LegibleConstraints, ClassOf, WriteArgs, WriteArgList, WriteConstraints, PlainArgList, PlainConstraints, EraseArgList, EraseConstraints;
    var x, y := Cons(Gt, a), Cons(Gt, b);
    ConstraintsKept(g.constraints, gone, x, y);
    ArgListLengths(g.args, gone);
    ConstraintLengths(g.constraints, gone);
    var cs, ds := WriteConstraints(PlainConstraints(EraseConstraints(g.constraints, gone)), x), WriteConstraints(PlainConstraints(g.constraints), y);
    var m := if |g.constraints| == 0 then x else if |g.args| == 0 then cs else Cons(Comma, cs);
    var n := if |g.constraints| == 0 then y else if |g.args| == 0 then ds else Cons(Comma, ds);
    assert Kept(m) == Kept(n);
    ArgListKept(g.args, gone, m, n);
    AngleWrites(EraseArgList(g.args, gone), EraseConstraints(g.constraints, gone), a);
    AngleWrites(g.args, g.constraints, b);
  }

  /** Arguments and constraints in angle brackets, in one form. */
  lemma AngleWrites(args: seq<GenericArg>, constraints: seq<AssocConstraint>, rest: Tokens)
    ensures var end := if |constraints| == 0 then Cons(Gt, rest) else if |args| == 0 then WriteConstraints(PlainConstraints(constraints), Cons(Gt, rest)) else Cons(Comma, WriteConstraints(PlainConstraints(constraints), Cons(Gt, rest)));
            WriteArgs(PlainArgs(AngleBracketed(args, constraints)), rest) ==
            if |args| == 0 && |constraints| == 0 then rest else Cons(Lt, WriteArgList(PlainArgList(args), end))
  {
    hide WriteArg, WriteConstraint, PlainArg, PlainConstraint;
  }

  lemma {:induction false} ArgKept(g: GenericArg, gone: set<string>, a: Tokens, b: Tokens)
    requires LegibleArg(PlainArg(g)) && Lifetimes(gone) && Kept(a) == Kept(b)
    ensures Kept(WriteArg(PlainArg(EraseArg(g, gone)), a)) == Kept(WriteArg(PlainArg(g), b))
    decreases g
  {
    match g
    case LifetimeArg(_) =>
      PlaceholderIsLifetime();
      hide ClassOf;
    case TypeArg(t) =>
      TypeKept(t, true, gone, a, b);
      hide WriteType, PlainType, EraseType, LegibleType;
    case ConstArg(expr) =>
      NameKept(expr, a, b);
      hide ClassOf;
    case InferArg =>
  }

  lemma {:induction false} ArgListKept(args: seq<GenericArg>, gone: set<string>, a: Tokens, b: Tokens)
    requires LegibleArgList(PlainArgList(args)) && Lifetimes(gone) && Kept(a) == Kept(b)
    ensures Kept(WriteArgList(PlainArgList(EraseArgList(args, gone)), a)) == Kept(WriteArgList(PlainArgList(args), b))
    decreases args
  {
    hide Lifetimes, WriteArg, PlainArg, EraseArg, LegibleArg;
    if |args| == 0 {
    } else {
      ArgListKept(args[1..], gone, a, b);
      var erased := EraseArgList(args, gone);
      assert erased[1..] == EraseArgList(args[1..], gone) && PlainArgList(erased)[1..] == PlainArgList(erased[1..]) && PlainArgList(args)[1..] == PlainArgList(args[1..]);
      ArgListLengths(args, gone);
      ArgKept(args[0], gone, if |args| == 1 then a else Cons(Comma, WriteArgList(PlainArgList(erased)[1..], a)),
              if |args| == 1 then b else Cons(Comma, WriteArgList(PlainArgList(args)[1..], b)));
    }
  }

  lemma {:induction false} ArgListLengths(args: seq<GenericArg>, gone: set<string>)
    ensures |EraseArgList(args, gone)| == |args|
  {
    hide EraseArg;
    if |args| == 0 {
    } else {
      ArgListLengths(args[1..], gone);
    }
  }

  lemma {:induction false} ConstraintLengths(cs: seq<AssocConstraint>, gone: set<string>)
    ensures |EraseConstraints(cs, gone)| == |cs|
  {
    hide EraseConstraint;
    if |cs| == 0 {
    } else {
      ConstraintLengths(cs[1..], gone);
    }
  }

  lemma {:induction false} ConstraintKept(c: AssocConstraint, gone: set<string>, a: Tokens, b: Tokens)
    requires LegibleConstraint(PlainConstraint(c)) && Lifetimes(gone) && Kept(a) == Kept(b)
    ensures Kept(WriteConstraint(PlainConstraint(EraseConstraint(c, gone)), a)) == Kept(WriteConstraint(PlainConstraint(c), b))
    decreases c
  {
    hide ClassOf, Lifetimes, WriteArgs, PlainArgs, EraseArgs, LegibleArgs, WriteBinding, PlainBinding, EraseBinding, LegibleBinding;
    BindingKept(c.binding, gone, a, b);
    ArgsKept(c.args, gone, WriteBinding(PlainBinding(EraseBinding(c.binding, gone)), a), WriteBinding(PlainBinding(c.binding), b));
  }

  lemma {:induction false} BindingKept(k: AssocBinding, gone: set<string>, a: Tokens, b: Tokens)
    requires LegibleBinding(PlainBinding(k)) && Lifetimes(gone) && Kept(a) == Kept(b)
    ensures Kept(WriteBinding(PlainBinding(EraseBinding(k, gone)), a)) == Kept(WriteBinding(PlainBinding(k), b))
    decreases k
  {
    hide Lifetimes, WriteTerm, PlainTerm, EraseTerm, LegibleTerm, WriteBounds, PlainBounds, EraseBounds, LegibleBounds;
    match k
    case Equality(term) => TermKept(term, gone, a, b);
    case Constraint(bounds) => BoundsKept(bounds, gone, a, b);
  }

  lemma {:induction false} ConstraintsKept(cs: seq<AssocConstraint>, gone: set<string>, a: Tokens, b: Tokens)
    requires LegibleConstraints(PlainConstraints(cs)) && Lifetimes(gone) && Kept(a) == Kept(b)
    ensures Kept(WriteConstraints(PlainConstraints(EraseConstraints(cs, gone)), a)) == Kept(WriteConstraints(PlainConstraints(cs), b))
    decreases cs
  {
    hide Lifetimes, WriteConstraint, PlainConstraint, EraseConstraint, LegibleConstraint;
    if |cs| == 0 {
    } else {
      ConstraintsKept(cs[1..], gone, a, b);
      var erased := EraseConstraints(cs, gone);
      assert erased[1..] == EraseConstraints(cs[1..], gone) && PlainConstraints(erased)[1..] == PlainConstraints(erased[1..]) && PlainConstraints(cs)[1..] == PlainConstraints(cs[1..]);
      ConstraintLengths(cs, gone);
      ConstraintKept(cs[0], gone, if |cs| == 1 then a else Cons(Comma, WriteConstraints(PlainConstraints(erased)[1..], a)),
                     if |cs| == 1 then b else Cons(Comma, WriteConstraints(PlainConstraints(cs)[1..], b)));
    }
  }

  lemma {:induction false} TermKept(t: Term, gone: set<string>, a: Tokens, b: Tokens)
    requires LegibleTerm(PlainTerm(t)) && Lifetimes(gone) && Kept(a) == Kept(b)
    ensures Kept(WriteTerm(PlainTerm(EraseTerm(t, gone)), a)) == Kept(WriteTerm(PlainTerm(t), b))
    decreases t
  {
    hide ClassOf, Lifetimes;
    match t
    case TypeTerm(type_) =>
      TypeKept(type_, true, gone, a, b);
      hide WriteType, PlainType, EraseType, LegibleType;
    case ConstTerm(expr) => NameKept(expr, a, b);
  }

  // ---------- Bounds ----------

  lemma {:induction false} ForAllKept(ps: seq<GenericParam>, gone: set<string>, a: Tokens, b: Tokens)
    requires LegibleParams(PlainParams(ps)) && Lifetimes(gone) && Kept(a) == Kept(b)
    ensures Kept(WriteForAll(PlainParams(EraseParams(ps, gone)), a)) == Kept(WriteForAll(PlainParams(ps), b))
    decreases ps
  {
    hide Lifetimes, WriteParams, PlainParams, EraseParams, LegibleParams;
    ParamsKept(ps, gone, Cons(GtSpace, a), Cons(GtSpace, b));
    NoParamsKept(PlainParams(EraseParams(ps, gone)), Cons(GtSpace, a));
    NoParamsKept(PlainParams(ps), Cons(GtSpace, b));
  }

  lemma NoParamsKept(ps: seq<GenericParam>, rest: Tokens)
    ensures |ps| == 0 ==> WriteParams(ps, rest) == rest
  {
  }

  lemma {:induction false} GenericsKept(ps: seq<GenericParam>, gone: set<string>, a: Tokens, b: Tokens)
    requires LegibleParams(PlainParams(ps)) && Lifetimes(gone) && Kept(a) == Kept(b)
    ensures Kept(WriteGenerics(PlainParams(EraseParams(ps, gone)), a)) == Kept(WriteGenerics(PlainParams(ps), b))
    decreases ps
  {
    hide Lifetimes, WriteParams, PlainParams, EraseParams, LegibleParams;
    ParamsKept(ps, gone, Cons(Gt, a), Cons(Gt, b));
    NoParamsKept(PlainParams(EraseParams(ps, gone)), Cons(Gt, a));
    NoParamsKept(PlainParams(ps), Cons(Gt, b));
  }

  lemma {:induction false} PolyKept(p: PolyTrait, gone: set<string>, a: Tokens, b: Tokens)
    requires LegiblePoly(PlainPoly(p)) && Lifetimes(gone) && Kept(a) == Kept(b)
    ensures Kept(WritePoly(PlainPoly(ErasePoly(p, gone)), a)) == Kept(WritePoly(PlainPoly(p), b))
    decreases p
  {
    hide Lifetimes, WritePath, PlainPath, ErasePath, LegiblePath, WriteForAll, PlainParams, EraseParams, LegibleParams;
    PathKept(p.trait_, gone, a, b);
    ForAllKept(p.params, gone, WritePath(PlainPath(ErasePath(p.trait_, gone)), a), WritePath(PlainPath(p.trait_), b));
  }

  lemma {:induction false} PolyLengths(ps: seq<PolyTrait>, gone: set<string>)
    ensures |ErasePolys(ps, gone)| == |ps|
  {
    hide ErasePoly;
    if |ps| == 0 {
    } else {
      PolyLengths(ps[1..], gone);
    }
  }

  lemma {:induction false} PolysKept(ps: seq<PolyTrait>, gone: set<string>, a: Tokens, b: Tokens)
    requires LegiblePolys(PlainPolys(ps)) && Lifetimes(gone) && Kept(a) == Kept(b)
    ensures Kept(WritePolys(PlainPolys(ErasePolys(ps, gone)), a)) == Kept(WritePolys(PlainPolys(ps), b))
    decreases ps
  {
    hide Lifetimes, WritePoly, PlainPoly, ErasePoly, LegiblePoly;
    if |ps| == 0 {
    } else {
      PolysKept(ps[1..], gone, a, b);
      var erased := ErasePolys(ps, gone);
      assert erased[1..] == ErasePolys(ps[1..], gone) && PlainPolys(erased)[1..] == PlainPolys(erased[1..]) && PlainPolys(ps)[1..] == PlainPolys(ps[1..]);
      PolyLengths(ps, gone);
      PolyKept(ps[0], gone, if |ps| == 1 then a else Cons(Plus, WritePolys(PlainPolys(erased)[1..], a)),
               if |ps| == 1 then b else Cons(Plus, WritePolys(PlainPolys(ps)[1..], b)));
    }
  }

  lemma {:induction false} CapturesKept(captures: seq<CaptureArg>, gone: set<string>, a: Tokens, b: Tokens)
    requires LegibleCaptures(captures) && Kept(a) == Kept(b)
    ensures |EraseCaptures(captures, gone)| == |captures|
    ensures Kept(WriteCaptures(EraseCaptures(captures, gone), a)) == Kept(WriteCaptures(captures, b))
  {
    PlaceholderIsLifetime();
    hide ClassOf;
    if |captures| == 0 {
    } else {
      CapturesKept(captures[1..], gone, a, b);
      assert EraseCaptures(captures, gone)[1..] == EraseCaptures(captures[1..], gone);
    }
  }

  lemma {:induction false} BoundKept(k: GenericBound, gone: set<string>, a: Tokens, b: Tokens)
    requires LegibleBound(PlainBound(k)) && Lifetimes(gone) && Kept(a) == Kept(b)
    ensures Kept(WriteBound(PlainBound(EraseBound(k, gone)), a)) == Kept(WriteBound(PlainBound(k), b))
    decreases k
  {
    hide ClassOf, Lifetimes, WritePath, PlainPath, ErasePath, LegiblePath, WriteForAll, PlainParams, EraseParams, LegibleParams, WriteCaptures, EraseCaptures, LegibleCaptures;
    match k
    case TraitBound(trait_, params, modifier) =>
      var x, y := WritePath(PlainPath(ErasePath(trait_, gone)), a), WritePath(PlainPath(trait_), b);
      PathKept(trait_, gone, a, b);
      assert Kept(WriteModifier(modifier, x)) == Kept(WriteModifier(modifier, y));
      ForAllKept(params, gone, WriteModifier(modifier, x), WriteModifier(modifier, y));
    case Outlives(_) =>
    case Captures(captures) => CapturesKept(captures, gone, Cons(Gt, a), Cons(Gt, b));
  }

  lemma {:induction false} BoundsKept(bs: seq<GenericBound>, gone: set<string>, a: Tokens, b: Tokens)
    requires LegibleBounds(PlainBounds(bs)) && Lifetimes(gone) && Kept(a) == Kept(b)
    ensures Kept(WriteBounds(PlainBounds(EraseBounds(bs, gone)), a)) == Kept(WriteBounds(PlainBounds(bs), b))
    decreases bs
  {
    hide Lifetimes, WriteBound, PlainBound, EraseBound, LegibleBound;
    if |bs| == 0 {
    } else {
      BoundsKept(bs[1..], gone, a, b);
      assert PlainBounds(bs)[1..] == PlainBounds(bs[1..]);
      var after := if |bs| == 1 then b else Cons(Plus, WriteBounds(PlainBounds(bs)[1..], b));
      if bs[0].Outlives? && bs[0].lifetime in gone {
        OutlivesKept(bs[0], after);
      } else {
        var erased := EraseBounds(bs, gone);
        assert erased[1..] == EraseBounds(bs[1..], gone) && PlainBounds(erased)[1..] == PlainBounds(erased[1..]);
        BoundKept(bs[0], gone, if |erased| == 1 then a else Cons(Plus, WriteBounds(PlainBounds(erased)[1..], a)), after);
      }
    }
  }

  lemma OutlivesKept(k: GenericBound, rest: Tokens)
    requires k.Outlives? && LegibleBound(PlainBound(k))
    ensures Kept(WriteBound(PlainBound(k), rest)) == Kept(rest)
  {
    hide ClassOf;
  }

  // ---------- Generic parameters ----------

  lemma {:induction false} ParamKept(p: GenericParam, gone: set<string>, a: Tokens, b: Tokens)
    requires LegibleParam(PlainParam(p)) && Lifetimes(gone) && Kept(a) == Kept(b)
    ensures Kept(WriteParam(PlainParam(EraseParam(p, gone)), a)) == Kept(WriteParam(PlainParam(p), b))
    decreases p
  {
    match p.kind
    case LifetimeParam(outlives) =>
      WithoutAreLifetimes(outlives, gone);
      LifetimesKept(outlives, b);
      LifetimesKept(Without(outlives, gone), a);
      hide ClassOf, WriteLifetimes, AreLifetimes, Without;
    case TypeParam(_, _) => TypeParamKept(p, gone, a, b);
    case ConstParam(_, _) => ConstParamKept(p, gone, a, b);
  }

  function WithDefault(default: Option<Type>, rest: Tokens): Tokens {
    if default.Some? then Cons(Equals, WriteType(PlainType(default.value), rest)) else rest
  }

  lemma TypeParamWrites(name: string, bounds: seq<GenericBound>, default: Option<Type>, rest: Tokens)
    ensures var end := WithDefault(default, rest);
            WriteParam(PlainParam(GenericParam(name, TypeParam(bounds, default))), rest) ==
            Cons(Word(name), if |bounds| == 0 then end else Cons(Colon, WriteBounds(PlainBounds(bounds), end)))
  {
    hide WriteType, PlainType, WriteBounds, PlainBounds;
    var plain := PlainKind(TypeParam(bounds, default));
    assert plain == TypeParam(PlainBounds(bounds), PlainOutput(default));
    assert PlainParam(GenericParam(name, TypeParam(bounds, default))) == GenericParam(name, plain);
    assert WriteParam(GenericParam(name, plain), rest) == WriteKind(name, plain, rest);
  }

  lemma {:induction false} TypeParamKept(p: GenericParam, gone: set<string>, a: Tokens, b: Tokens)
    requires p.kind.TypeParam? && LegibleParam(PlainParam(p)) && Lifetimes(gone) && Kept(a) == Kept(b)
    ensures Kept(WriteParam(PlainParam(EraseParam(p, gone)), a)) == Kept(WriteParam(PlainParam(p), b))
    decreases p, 0
  {
    hide ClassOf, Lifetimes, WriteType, PlainType, EraseType, LegibleType, WriteBounds, PlainBounds, EraseBounds, LegibleBounds, WriteParam, PlainParam, LegibleOutput, PlainOutput;
    var bounds, default := p.kind.bounds, p.kind.default;
    var es, erased := EraseBounds(bounds, gone), if default.Some? then Some(EraseType(default.value, gone)) else None;
    TypeParamWrites(p.name, bounds, default, b);
    TypeParamWrites(p.name, es, erased, a);
    TypeParamLegible(p);
    assert EraseParam(p, gone) == GenericParam(p.name, TypeParam(es, erased)) && p == GenericParam(p.name, TypeParam(bounds, default));
    var x, y := WithDefault(erased, a), WithDefault(default, b);
    if default.Some? {
      TypeKept(default.value, true, gone, a, b);
    }
    assert Kept(x) == Kept(y);
    BoundsKept(bounds, gone, x, y);
    NoBoundsKept(es, x);
    NoBoundsKept(bounds, y);
    var v, w := if |es| == 0 then x else Cons(Colon, WriteBounds(PlainBounds(es), x)), if |bounds| == 0 then y else Cons(Colon, WriteBounds(PlainBounds(bounds), y));
    assert Kept(v) == Kept(w);
    NamedKept(p.name, v, w);
  }

  lemma TypeParamLegible(p: GenericParam)
    requires p.kind.TypeParam? && LegibleParam(PlainParam(p))
    ensures LegibleBounds(PlainBounds(p.kind.bounds)) && (p.kind.default.Some? ==> LegibleType(PlainType(p.kind.default.value), true))
  {
    hide LegibleType, LegibleBounds, PlainBounds, ClassOf;
    assert LegibleKind(p.name, PlainKind(p.kind)) && LegibleOutput(PlainOutput(p.kind.default), true);
  }

  lemma NamedKept(name: string, a: Tokens, b: Tokens)
    requires Kept(a) == Kept(b)
    ensures Kept(Cons(Word(name), a)) == Kept(Cons(Word(name), b))
  {
    hide ClassOf;
  }

  lemma NoBoundsKept(bs: seq<GenericBound>, rest: Tokens)
    ensures |bs| == 0 ==> WriteBounds(PlainBounds(bs), rest) == rest
  {
  }

  lemma {:induction false} ConstParamKept(p: GenericParam, gone: set<string>, a: Tokens, b: Tokens)
    requires p.kind.ConstParam? && LegibleParam(PlainParam(p)) && Lifetimes(gone) && Kept(a) == Kept(b)
    ensures Kept(WriteParam(PlainParam(EraseParam(p, gone)), a)) == Kept(WriteParam(PlainParam(p), b))
    decreases p, 0
  {
    hide ClassOf, Lifetimes, WriteType, PlainType, EraseType, LegibleType;
    var default := p.kind.constDefault;
    var x := if default.Some? then Cons(Equals, Cons(Word(default.value), a)) else a;
    var y := if default.Some? then Cons(Equals, Cons(Word(default.value), b)) else b;
    if default.Some? {
      NamedKept(default.value, a, b);
    }
    assert Kept(x) == Kept(y);
    assert LegibleKind(p.name, PlainKind(p.kind));
    TypeKept(p.kind.type_, true, gone, x, y);
    var v, w := Cons(Colon, WriteType(PlainType(EraseType(p.kind.type_, gone)), x)), Cons(Colon, WriteType(PlainType(p.kind.type_), y));
    NamedKept(p.name, v, w);
  }

  lemma {:induction false} ParamsKept(ps: seq<GenericParam>, gone: set<string>, a: Tokens, b: Tokens)
    requires LegibleParams(PlainParams(ps)) && Lifetimes(gone) && Kept(a) == Kept(b)
    ensures Kept(WriteParams(PlainParams(EraseParams(ps, gone)), a)) == Kept(WriteParams(PlainParams(ps), b))
    decreases ps, 0
  {
    hide WriteParam, PlainParam, EraseParam, LegibleParam;
    if |ps| == 0 {
    } else {
      ParamsKept(ps[1..], gone, a, b);
      assert PlainParams(ps)[1..] == PlainParams(ps[1..]);
      var after := if |ps| == 1 then b else Cons(Comma, WriteParams(PlainParams(ps)[1..], b));
      if ps[0].name in gone {
        LifetimeParamKept(ps[0], after);
      } else {
        var erased := EraseParams(ps, gone);
        assert erased[1..] == EraseParams(ps[1..], gone) && PlainParams(erased)[1..] == PlainParams(erased[1..]);
        ParamKept(ps[0], gone, if |erased| == 1 then a else Cons(Comma, WriteParams(PlainParams(erased)[1..], a)), after);
      }
    }
  }

  /** A parameter with the name of a lifetime is one, and leaves nothing. */
  lemma LifetimeParamKept(p: GenericParam, rest: Tokens)
    requires LegibleParam(PlainParam(p)) && IsLifetime(p.name)
    ensures Kept(WriteParam(PlainParam(p), rest)) == Kept(rest)
  {
    hide ClassOf, WriteLifetimes, AreLifetimes;
    assert LegibleKind(p.name, PlainKind(p.kind));
    assert p.kind.LifetimeParam?;
    LifetimesKept(p.kind.outlives, rest);
  }

  // ---------- In terms of the text ----------

  /** The tokens of a type printed with an elision set are those of the type printed in full, but for lifetimes and punctuation. */
  lemma ElisionKeepsType(t: Type, elided: set<string>)
    requires LegibleType(PlainType(t), true) && Lifetimes(elided)
    ensures Kept(WriteType(PlainType(EraseType(t, elided)), Nil)) == Kept(WriteType(PlainType(t), Nil))
  {
    TypeKept(t, true, elided, Nil, Nil);
  }

  lemma SyntheticIsLifetime(name: string)
    requires IsSynthetic(name)
    ensures IsLifetime(name)
  {
    if name == "'async_trait" {
      assert name[1..] == "async_trait" && AllNameChars("async_trait");
    } else {
      var head, digits := name[..5], name[5..];
      assert name == head + digits && head[0] == '\'' && head[1] == 'l' && head[2] == 'i' && head[3] == 'f' && head[4] == 'e';
      forall i | 0 <= i < |name[1..]|
        ensures IsNameChar(name[1..][i])
      {
        assert name[1..][i] == if i < 4 then head[i + 1] else digits[i - 4];
      }
    }
  }

  /** The lifetimes that declarations elide are lifetimes. */
  lemma SyntheticAreLifetimes(params: seq<GenericParam>)
    ensures Lifetimes(Synthetic(params))
  {
    hide IsSynthetic, IsLifetime;
    forall name | name in Synthetic(params)
      ensures IsLifetime(name)
    {
      SyntheticIsLifetime(name);
    }
  }
}
