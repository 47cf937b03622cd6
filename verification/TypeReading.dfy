/**
  Reading back what was written: every legible tree is read from its tokens, with what follows left over.

  What follows must not go on with the tree: `Closes` excludes the tokens that arguments, an output or, where a list
  may stand, further bounds start with.
  */
module TypeReading {
  import opened Basics
  import opened TypeSyntax
  import opened TypeTokens
  import opened TypeReader

  predicate Closes(rest: Tokens, many: bool) {
    rest.Nil? || (!rest.head.Lt? && !rest.head.LParen? && !rest.head.Notation? && !rest.head.Arrow? && (many ==> !rest.head.Plus?))
  }

  /** What follows in angle brackets. */
  predicate ClosesEntry(rest: Tokens) {
    rest.Cons? && (rest.head.Comma? || rest.head.Gt?)
  }

  /** What follows a generic parameter. */
  predicate ClosesParam(rest: Tokens) {
    rest.Cons? && (rest.head.Comma? || rest.head.Gt? || rest.head.GtSpace?)
  }

  // ---------- Headers ----------

  lemma HeaderReads(header: FunctionHeader, rest: Tokens)
    requires LegibleHeader(header) && rest.Cons? && (rest.head.Fn? || rest.head.FnItem?)
    ensures ReadHeader(WriteHeader(header, rest)) == Read(header, rest)
  {
    hide QuotedAbi, AbiOf;
  }

  /** Which tokens a type starts with. */
  lemma TypeStarts(t: Type, many: bool, rest: Tokens)
    requires LegibleType(t, many)
    ensures var ts := WriteType(t, rest);
            && ts.Cons?
            && (ts.head.Word? <==> t.ResolvedPath?) && (ts.head.Word? ==> IsName(ts.head.text))
            && !ts.head.RParen? && !ts.head.Dots? && !ts.head.ForLt? && !ts.head.Mut? && !ts.head.RefLifetime? && !ts.head.SelfWord?
            && !ts.head.CommaDots? && !ts.head.FnItem?
  {
    hide QuotedAbi, ClassOf;
  }

  // ---------- Types ----------

  /** Which rule a token starts. */
  lemma Starts(ts: Tokens, many: bool)
    requires ts.Cons?
    ensures ts.head.Word? ==> ReadType(ts, many) == var p := ReadPath(ts); if p.Read? then Read(ResolvedPath(p.value), p.rest) else Fails
    ensures ts.head.Dyn? ==>
              ReadType(ts, many) == var p := ReadPolys(ts.tail, many); if p.Read? then Read(DynTrait(p.value.0, p.value.1), p.rest) else Fails
    ensures ts.head.Impl? ==> ReadType(ts, many) == var b := ReadBounds(ts.tail, many); if b.Read? then Read(ImplTrait(b.value), b.rest) else Fails
    ensures ts.head.LParen? ==> ReadType(ts, many) == var b := TypeReader.Then(ReadTypes(ts.tail), RParen); if b.Read? then Read(Tuple(b.value), b.rest) else Fails
    ensures ts.head.LBracket? ==> ReadType(ts, many) == ReadSequence(ts.tail)
    ensures ts.head.Underscore? ==> ReadType(ts, many) == Read(Infer, ts.tail)
    ensures ts.head.Star? ==> ReadType(ts, many) == ReadPointer(ts.tail)
    ensures ts.head.Amp? ==> ReadType(ts, many) == ReadReference(ts.tail)
    ensures ts.head.Lt? ==> ReadType(ts, many) == ReadQualified(ts.tail)
    ensures ts.head.Const? || ts.head.Async? || ts.head.Unsafe? || ts.head.Extern? || ts.head.Fn? ==> ReadType(ts, many) == ReadPointerToFunction(ts)
  {
    hide ReadPath, ReadPolys, ReadBounds, ReadTypes, ReadSequence, ReadPointer, ReadReference, ReadQualified, ReadPointerToFunction;
    hide LegibleType, LegiblePath, LegibleBounds, LegibleTypes;
  }

  lemma {:induction false} TypeReads(t: Type, many: bool, rest: Tokens)
    requires LegibleType(t, many) && Closes(rest, many)
    ensures ReadType(WriteType(t, rest), many) == Read(t, rest)
    decreases t
  {
    hide ClassOf, IsLifetime, IsName, LegibleType, LegiblePath, LegiblePolys, LegibleBounds, LegibleTypes, LegibleArgs, LegibleParams, LegibleOutput, LegibleHeader;
    hide ReadType, WriteType, ReadPath, ReadPolys, WritePolys, ReadBounds, WriteBounds, ReadTypes, WriteTypes, ReadQualified, ReadPointerToFunction;
    LegibleIs(t, many);
    Writes(t, rest);
    TypeStarts(t, many, rest);
    Starts(WriteType(t, rest), many);
    match t
    case ResolvedPath(path) => PathReads(path, rest);
    case DynTrait(traits, bound) => DynReads(traits, bound, many, rest);
    case FunctionPointer(_, _, _, _, _) => FunctionPointerReads(t, many, rest);
    case Tuple(types) => TypesRead(types, Cons(RParen, rest));
    case Slice(elem) => TypeReads(elem, true, Cons(RBracket, rest));
    case Array(elem, len) => TypeReads(elem, true, Cons(SemiSpace, Cons(Word(len), Cons(RBracket, rest))));
    case ImplTrait(bounds) => BoundsRead(bounds, many, rest);
    case Infer =>
    case RawPointer(_, elem) => TypeReads(elem, false, rest);
    case BorrowedRef(_, _, elem) =>
      TypeReads(elem, false, rest);
      TypeStarts(elem, false, rest);
    case QualifiedPath(_, _, _, _) => QualifiedReads(t, many, rest);
    case _ =>
  }

  lemma {:induction false} TypesRead(ts: seq<Type>, rest: Tokens)
    requires LegibleTypes(ts) && rest.Cons? && (rest.head.RParen? || (if |ts| == 0 then rest.head.Dots? else rest.head.CommaDots?))
    ensures ReadTypes(WriteTypes(ts, rest)) == Read(ts, rest)
    decreases ts
  {
    if |ts| == 0 {
    } else {
      SomeTypesRead(ts, rest);
      TypeStarts(ts[0], true, if |ts| == 1 then rest else Cons(Comma, WriteTypes(ts[1..], rest)));
    }
  }

  lemma {:induction false} SomeTypesRead(ts: seq<Type>, rest: Tokens)
    requires |ts| > 0 && LegibleTypes(ts) && rest.Cons? && (rest.head.RParen? || rest.head.CommaDots?)
    ensures ReadSomeTypes(WriteTypes(ts, rest)) == Read(ts, rest)
    decreases ts, 0
  {
    hide ReadType, WriteType, LegibleType;
    assert ts == [ts[0]] + ts[1..];
    if |ts| == 1 {
      assert ts == [ts[0]];
      TypeReads(ts[0], true, rest);
    } else {
      TypeReads(ts[0], true, Cons(Comma, WriteTypes(ts[1..], rest)));
      SomeTypesRead(ts[1..], rest);
    }
  }

  lemma {:induction false} OutputReads(output: Option<Type>, many: bool, rest: Tokens)
    requires LegibleOutput(output, many) && Closes(rest, many)
    ensures ReadOutput(WriteOutput(output, rest), many) == Read(output, rest)
    decreases output
  {
    if output.Some? {
      TypeReads(output.value, many, rest);
    }
  }

  lemma {:induction false} FunctionPointerReads(t: Type, many: bool, rest: Tokens)
    requires t.FunctionPointer? && LegibleType(t, many) && Closes(rest, many)
    ensures ReadType(WriteType(t, rest), many) == Read(t, rest)
    decreases t, 0
  {
    hide LegibleType, LegibleHeader, LegibleParams, LegibleTypes, LegibleOutput, Closes, WriteType, ReadType;
    hide ReadHeader, WriteHeader, ReadParams, WriteParams, ReadTypes, WriteTypes, ReadOutput, WriteOutput, ReadPointed, ReadPointerToFunction;
    LegibleIs(t, many);
    var close := Cons(RParen, WriteOutput(t.output, rest));
    var dots := WriteVariadic(t.isVariadic, |t.inputs| > 0, close);
    ClosesWider(rest, many);
    OutputReads(t.output, false, rest);
    TypesRead(t.inputs, dots);
    PointedReads(t, rest);
    var generics := WriteGenerics(t.params, Cons(LParen, WriteTypes(t.inputs, dots)));
    FunctionPointerWrites(t, rest);
    HeaderReads(t.header, Cons(Fn, generics));
    HeaderStarts(t.header, Cons(Fn, generics));
    Starts(WriteType(t, rest), many);
    GenericsRead(t.params, Cons(LParen, WriteTypes(t.inputs, dots)));
    PointerAssembles(WriteType(t, rest), t, generics, WriteTypes(t.inputs, dots), rest);
  }

  lemma ClosesWider(rest: Tokens, many: bool)
    ensures Closes(rest, many) ==> Closes(rest, false)
  {
  }

  lemma PointerAssembles(ts: Tokens, t: Type, generics: Tokens, inputs: Tokens, rest: Tokens)
    requires t.FunctionPointer? && LegibleHeader(t.header) && LegibleParams(t.params)
    requires ReadHeader(ts) == Read(t.header, Cons(Fn, generics)) && ReadGenerics(generics) == Read(t.params, Cons(LParen, inputs))
    requires ReadPointed(inputs, t.header, t.params) == Read(t, rest)
    ensures ReadPointerToFunction(ts) == Read(t, rest)
  {
    hide LegibleHeader, LegibleParams, ReadHeader, ReadGenerics, ReadPointed;
  }

  lemma HeaderStarts(header: FunctionHeader, rest: Tokens)
    requires rest.Cons? && rest.head.Fn?
    ensures var ts := WriteHeader(header, rest); ts.Cons? && (ts.head.Const? || ts.head.Async? || ts.head.Unsafe? || ts.head.Extern? || ts.head.Fn?)
  {
  }

  lemma PointedReads(t: Type, rest: Tokens)
    requires t.FunctionPointer? && LegibleHeader(t.header) && LegibleParams(t.params)
    requires var dots := WriteVariadic(t.isVariadic, |t.inputs| > 0, Cons(RParen, WriteOutput(t.output, rest)));
             ReadTypes(WriteTypes(t.inputs, dots)) == Read(t.inputs, dots) && ReadOutput(WriteOutput(t.output, rest), false) == Read(t.output, rest)
    ensures ReadPointed(WriteTypes(t.inputs, WriteVariadic(t.isVariadic, |t.inputs| > 0, Cons(RParen, WriteOutput(t.output, rest)))), t.header, t.params) == Read(t, rest)
  {
    hide ReadTypes, WriteTypes, ReadOutput, WriteOutput, LegibleHeader, LegibleParams;
  }

  lemma {:induction false} QualifiedReads(t: Type, many: bool, rest: Tokens)
    requires t.QualifiedPath? && LegibleType(t, many) && Closes(rest, many)
    ensures ReadType(WriteType(t, rest), many) == Read(t, rest)
    decreases t, 0
  {
    hide LegibleType, LegibleArgs, LegiblePath, ReadType, WriteType, ReadPath, WritePath, ReadArgs, WriteArgs, ReadItem, ReadQualified, ClassOf;
    LegibleIs(t, many);
    QualifiedWrites(t, rest);
    Starts(WriteType(t, rest), many);
    var item := Cons(GtPath, Cons(Word(t.name), WriteArgs(t.args, rest)));
    ArgsRead(t.args, rest);
    ItemReads(t, rest);
    if t.trait_.Some? {
      PathReads(t.trait_.value, item);
      TypeReads(t.selfType, true, Cons(As, WritePath(t.trait_.value, item)));
    } else {
      TypeReads(t.selfType, true, item);
    }
    QualifiedAssembles(t, item, rest);
  }

  lemma QualifiedAssembles(t: Type, item: Tokens, rest: Tokens)
    requires t.QualifiedPath? && LegibleType(t.selfType, true) && (t.trait_.Some? ==> LegiblePath(t.trait_.value))
    requires item.Cons? && item.head.GtPath? && ReadItem(item.tail, t.selfType, t.trait_) == Read(t, rest)
    requires t.trait_.Some? ==> ReadPath(WritePath(t.trait_.value, item)) == Read(t.trait_.value, item)
    requires var after := if t.trait_.Some? then Cons(As, WritePath(t.trait_.value, item)) else item;
             ReadType(WriteType(t.selfType, after), true) == Read(t.selfType, after)
    ensures ReadQualified(WriteType(t.selfType, if t.trait_.Some? then Cons(As, WritePath(t.trait_.value, item)) else item)) == Read(t, rest)
  {
    hide LegibleType, LegiblePath, ReadType, WriteType, ReadPath, WritePath, ReadItem;
  }

  lemma ItemReads(t: Type, rest: Tokens)
    requires t.QualifiedPath? && IsName(t.name) && LegibleType(t.selfType, true) && (t.trait_.Some? ==> LegiblePath(t.trait_.value))
    requires ReadArgs(WriteArgs(t.args, rest)) == Read(if PrintsNothing(t.args) then None else Some(t.args), rest)
    ensures ReadItem(Cons(Word(t.name), WriteArgs(t.args, rest)), t.selfType, t.trait_) == Read(t, rest)
  {
    hide ReadArgs, WriteArgs, LegibleType, LegiblePath, ClassOf;
  }

  // ---------- Paths and arguments ----------

  lemma {:induction false} PathReads(p: Path, rest: Tokens)
    requires LegiblePath(p) && Closes(rest, false)
    ensures ReadPath(WritePath(p, rest)) == Read(p, rest)
    decreases p
  {
    hide ClassOf, LegibleArgs, WriteArgs, ReadPath;
    if p.args.Some? {
      ArgsRead(p.args.value, rest);
      PathAssembles(p.path, p.args, WriteArgs(p.args.value, rest), rest);
    } else {
      PathAssembles(p.path, None, rest, rest);
    }
  }

  lemma {:induction false} ArgsRead(a: GenericArgs, rest: Tokens)
    requires LegibleArgs(a) && Closes(rest, false)
    ensures ReadArgs(WriteArgs(a, rest)) == Read(if PrintsNothing(a) then None else Some(a), rest)
    decreases a
  {
    hide LegibleArgList, LegibleConstraints, LegibleTypes, LegibleOutput;
    hide ReadEntries, WriteArgList, WriteConstraints, ReadTypes, WriteTypes, ReadOutput, WriteOutput;
    match a
    case AngleBracketed(args, constraints) =>
      var close := Cons(Gt, rest);
      if |constraints| > 0 {
        ConstraintsRead(constraints, close);
        if |args| > 0 {
          ArgListReads(args, Cons(Comma, WriteConstraints(constraints, close)), constraints, close);
        }
      } else if |args| > 0 {
        ArgListReads(args, close, [], close);
      }
    case Parenthesized(inputs, output) =>
      TypesRead(inputs, Cons(RParen, WriteOutput(output, rest)));
      OutputReads(output, false, rest);
    case ReturnTypeNotation =>
  }

  lemma {:induction false} ArgReads(a: GenericArg, rest: Tokens)
    requires LegibleArg(a) && ClosesEntry(rest)
    ensures ReadEntry(WriteArg(a, rest)) == Read(ArgEntry(a), rest)
    decreases a
  {
    hide ClassOf;
    if a.TypeArg? {
      TypeStarts(a.type_, true, rest);
      if a.type_.ResolvedPath? {
        PathReads(a.type_.path, rest);
        hide ReadPath, WritePath, LegiblePath;
      } else {
        TypeReads(a.type_, true, rest);
        hide ReadType, WriteType, LegibleType;
      }
    }
  }

  lemma {:induction false} ArgListReads(args: seq<GenericArg>, rest: Tokens, cs: seq<AssocConstraint>, after: Tokens)
    requires |args| > 0 && LegibleArgList(args) && rest.Cons?
    requires (rest.head.Gt? && cs == [] && after == rest) || (rest.head.Comma? && ReadEntries(rest.tail) == Read(([], cs), after))
    ensures ReadEntries(WriteArgList(args, rest)) == Read((args, cs), after)
    decreases args
  {
    hide ReadEntry, WriteArg, LegibleArg;
    assert args == [args[0]] + args[1..];
    if |args| == 1 {
      assert args == [args[0]];
      ArgReads(args[0], rest);
    } else {
      ArgReads(args[0], Cons(Comma, WriteArgList(args[1..], rest)));
      ArgListReads(args[1..], rest, cs, after);
    }
  }

  lemma PathAssembles(name: string, args: Option<GenericArgs>, ts: Tokens, rest: Tokens)
    requires IsName(name) && ReadArgs(ts) == Read(args, rest)
    ensures ReadPath(Cons(Word(name), ts)) == Read(Path(name, args), rest)
  {
    hide ReadArgs, ClassOf;
  }

  lemma {:induction false} ConstraintReads(c: AssocConstraint, rest: Tokens)
    requires LegibleConstraint(c) && ClosesEntry(rest)
    ensures ReadEntry(WriteConstraint(c, rest)) == Read(ConstraintEntry(c), rest)
    decreases c
  {
    hide ClassOf, ReadArgs, WriteArgs, ReadBinding, WriteBinding, LegibleArgs, LegibleBinding, ReadPath, ReadType;
    var binding := WriteBinding(c.binding, rest);
    BindingReads(c.binding, rest);
    ArgsRead(c.args, binding);
    PathAssembles(c.name, if PrintsNothing(c.args) then None else Some(c.args), WriteArgs(c.args, binding), binding);
  }

  lemma {:induction false} BindingReads(b: AssocBinding, rest: Tokens)
    requires LegibleBinding(b) && ClosesEntry(rest)
    ensures var ts := WriteBinding(b, rest); ts.Cons? && (ts.head.Equals? || ts.head.Colon?) && ReadBinding(ts) == Read(b, rest)
    decreases b
  {
    match b
    case Equality(term) => TermReads(term, rest);
    case Constraint(bounds) => BoundsRead(bounds, true, rest);
  }

  lemma {:induction false} ConstraintsRead(cs: seq<AssocConstraint>, rest: Tokens)
    requires |cs| > 0 && LegibleConstraints(cs) && rest.Cons? && rest.head.Gt?
    ensures ReadEntries(WriteConstraints(cs, rest)) == Read(([], cs), rest)
    decreases cs
  {
    hide ReadEntry, WriteConstraint, LegibleConstraint;
    assert cs == [cs[0]] + cs[1..];
    if |cs| == 1 {
      assert cs == [cs[0]];
      ConstraintReads(cs[0], rest);
    } else {
      ConstraintReads(cs[0], Cons(Comma, WriteConstraints(cs[1..], rest)));
      ConstraintsRead(cs[1..], rest);
    }
  }

  lemma {:induction false} TermReads(t: Term, rest: Tokens)
    requires LegibleTerm(t) && Closes(rest, true)
    ensures ReadTerm(WriteTerm(t, rest)) == Read(t, rest)
    decreases t
  {
    hide ClassOf;
    if t.TypeTerm? {
      TypeStarts(t.type_, true, rest);
      TypeReads(t.type_, true, rest);
      hide ReadType, WriteType, LegibleType;
    }
  }

  // ---------- Bounds ----------

  lemma {:induction false} ForAllReads(params: seq<GenericParam>, rest: Tokens)
    requires LegibleParams(params) && !At(rest, ForLt)
    ensures ReadForAll(WriteForAll(params, rest)) == Read(params, rest)
    decreases params
  {
    if |params| > 0 {
      ParamsRead(params, Cons(GtSpace, rest));
      hide ReadParams, WriteParams, LegibleParams;
    }
  }

  /** What stands in front of a path is no lifetime. */
  lemma PathStarts(p: Path, rest: Tokens)
    requires LegiblePath(p)
    ensures AtName(WritePath(p, rest)) && !AtLifetime(WritePath(p, rest)) && !At(WritePath(p, rest), ForLt)
  {
    hide ClassOf, WriteArgs, LegibleArgs;
  }

  lemma ForAllStarts(params: seq<GenericParam>, rest: Tokens)
    ensures WriteForAll(params, rest) == rest || At(WriteForAll(params, rest), ForLt)
  {
  }

  lemma {:induction false} PolyReads(p: PolyTrait, rest: Tokens)
    requires LegiblePoly(p) && Closes(rest, false)
    ensures ReadPoly(WritePoly(p, rest)) == Read(p, rest)
    ensures !AtLifetime(WritePoly(p, rest))
    decreases p
  {
    hide ClassOf, ReadForAll, WriteForAll, ReadPath, WritePath, LegibleParams, LegiblePath;
    PathReads(p.trait_, rest);
    PathStarts(p.trait_, rest);
    ForAllReads(p.params, WritePath(p.trait_, rest));
    ForAllStarts(p.params, WritePath(p.trait_, rest));
  }

  lemma {:induction false} DynReads(traits: seq<PolyTrait>, bound: Option<string>, many: bool, rest: Tokens)
    requires |traits| > 0 && LegiblePolys(traits) && (bound.Some? ==> IsLifetime(bound.value)) && (many || (|traits| == 1 && bound.None?))
    requires Closes(rest, many)
    ensures ReadPolys(WritePolys(traits, if bound.Some? then Cons(Plus, Cons(Word(bound.value), rest)) else rest), many) == Read((traits, bound), rest)
    decreases traits
  {
    hide ClassOf, ReadPoly, WritePoly, LegiblePoly, IsLifetime;
    var end := if bound.Some? then Cons(Plus, Cons(Word(bound.value), rest)) else rest;
    assert traits == [traits[0]] + traits[1..];
    if |traits| == 1 {
      assert traits == [traits[0]];
      PolyReads(traits[0], end);
    } else {
      PolyReads(traits[0], Cons(Plus, WritePolys(traits[1..], end)));
      PolyReads(traits[1], if |traits| == 2 then end else Cons(Plus, WritePolys(traits[2..], end)));
      assert traits[1..][1..] == traits[2..];
      DynReads(traits[1..], bound, many, rest);
    }
  }

  lemma {:induction false} BoundReads(b: GenericBound, rest: Tokens)
    requires LegibleBound(b) && Closes(rest, false)
    ensures ReadBound(WriteBound(b, rest)) == Read(b, rest)
    decreases b
  {
    hide ClassOf, ReadForAll, WriteForAll, ReadPath, WritePath, LegibleParams, LegiblePath, ReadCaptures, WriteCaptures, LegibleCaptures;
    match b
    case TraitBound(trait_, params, modifier) =>
      PathReads(trait_, rest);
      PathStarts(trait_, rest);
      var head := WriteModifier(modifier, WritePath(trait_, rest));
      ForAllReads(params, head);
      ForAllStarts(params, head);
    case Outlives(_) =>
    case Captures(captures) => CapturesRead(captures, Cons(Gt, rest));
  }

  lemma {:induction false} CapturesRead(captures: seq<CaptureArg>, rest: Tokens)
    requires LegibleCaptures(captures) && rest.Cons? && rest.head.Gt?
    ensures ReadCaptures(WriteCaptures(captures, rest)) == Read(captures, rest)
  {
    hide ClassOf;
    if |captures| == 1 {
      assert captures == [captures[0]];
    } else if |captures| > 1 {
      assert captures == [captures[0]] + captures[1..];
      CapturesRead(captures[1..], rest);
    }
  }

  lemma {:induction false} LifetimesRead(lifetimes: seq<string>, rest: Tokens)
    requires |lifetimes| > 0 && AreLifetimes(lifetimes) && Closes(rest, true)
    ensures ReadLifetimes(WriteLifetimes(lifetimes, rest)) == Read(lifetimes, rest)
  {
    hide ClassOf;
    assert lifetimes == [lifetimes[0]] + lifetimes[1..];
    if |lifetimes| == 1 {
      assert lifetimes == [lifetimes[0]];
    } else {
      LifetimesRead(lifetimes[1..], rest);
    }
  }

  lemma {:induction false} BoundsRead(bs: seq<GenericBound>, many: bool, rest: Tokens)
    requires |bs| > 0 && LegibleBounds(bs) && (many || |bs| == 1) && Closes(rest, many)
    ensures ReadBounds(WriteBounds(bs, rest), many) == Read(bs, rest)
    decreases bs
  {
    hide ReadBound, WriteBound, LegibleBound;
    assert bs == [bs[0]] + bs[1..];
    if |bs| == 1 {
      assert bs == [bs[0]];
      BoundReads(bs[0], rest);
    } else {
      BoundReads(bs[0], Cons(Plus, WriteBounds(bs[1..], rest)));
      BoundsRead(bs[1..], many, rest);
    }
  }

  // ---------- Generic parameters ----------

  lemma {:induction false} DefaultReads(default: Option<Type>, rest: Tokens)
    requires LegibleOutput(default, true) && ClosesParam(rest)
    ensures ReadDefault(if default.Some? then Cons(Equals, WriteType(default.value, rest)) else rest) == Read(default, rest)
    decreases default
  {
    if default.Some? {
      TypeReads(default.value, true, rest);
    }
    hide ReadType, WriteType, LegibleType;
  }

  lemma {:induction false} TypeParamReads(p: GenericParam, rest: Tokens)
    requires p.kind.TypeParam? && IsName(p.name) && LegibleBounds(p.kind.bounds) && LegibleOutput(p.kind.default, true) && ClosesParam(rest)
    ensures ReadParam(WriteKind(p.name, p.kind, rest)) == Read(p, rest)
    decreases p, 0
  {
    hide ClassOf, ReadDefault, WriteType, LegibleOutput, ReadBounds, WriteBounds, LegibleBounds;
    var bounds, default := p.kind.bounds, p.kind.default;
    DefaultReads(default, rest);
    if |bounds| > 0 {
      BoundsRead(bounds, true, if default.Some? then Cons(Equals, WriteType(default.value, rest)) else rest);
    }
  }

  lemma {:induction false} ParamReads(p: GenericParam, rest: Tokens)
    requires LegibleParam(p) && ClosesParam(rest)
    ensures ReadParam(WriteParam(p, rest)) == Read(p, rest)
    decreases p
  {
    hide ClassOf, ReadType, WriteType, LegibleType, LegibleBounds, LegibleOutput, ReadLifetimes, WriteLifetimes, AreLifetimes, ReadBounds;
    match p.kind
    case LifetimeParam(outlives) =>
      if |outlives| > 0 {
        LifetimesRead(outlives, rest);
      }
    case TypeParam(_, _) => TypeParamReads(p, rest);
    case ConstParam(type_, default) =>
      TypeReads(type_, true, if default.Some? then Cons(Equals, Cons(Word(default.value), rest)) else rest);
  }

  lemma {:induction false} ParamsRead(ps: seq<GenericParam>, rest: Tokens)
    requires |ps| > 0 && LegibleParams(ps) && rest.Cons? && (rest.head.Gt? || rest.head.GtSpace?)
    ensures ReadParams(WriteParams(ps, rest)) == Read(ps, rest)
    decreases ps, 0
  {
    hide ReadParam, WriteParam, LegibleParam;
    assert ps == [ps[0]] + ps[1..];
    if |ps| == 1 {
      assert ps == [ps[0]];
      ParamReads(ps[0], rest);
    } else {
      ParamReads(ps[0], Cons(Comma, WriteParams(ps[1..], rest)));
      ParamsRead(ps[1..], rest);
    }
  }

  lemma {:induction false} GenericsRead(params: seq<GenericParam>, rest: Tokens)
    requires LegibleParams(params) && rest.Cons? && rest.head.LParen?
    ensures ReadGenerics(WriteGenerics(params, rest)) == Read(params, rest)
    decreases params
  {
    if |params| > 0 {
      ParamsRead(params, Cons(Gt, rest));
      hide ReadParams, WriteParams, LegibleParams;
    }
  }

  // ---------- Where-clauses ----------

  lemma PredicateReads(w: WherePredicate, rest: Tokens)
    requires LegiblePredicate(w) && rest.Cons? && (rest.head.Comma? || rest.head.Semicolon?)
    ensures ReadPredicate(WritePredicate(w, rest)) == Read(w, rest)
  {
    hide ClassOf, ReadType, WriteType, LegibleType, ReadBounds, WriteBounds, LegibleBounds, ReadForAll, WriteForAll, LegibleParams;
    hide ReadTerm, WriteTerm, LegibleTerm, ReadLifetimes, WriteLifetimes, AreLifetimes;
    match w
    case BoundPredicate(type_, bounds, params) =>
      BoundsRead(bounds, true, rest);
      var end := Cons(Colon, WriteBounds(bounds, rest));
      TypeReads(type_, true, end);
      TypeStarts(type_, true, end);
      ForAllReads(params, WriteType(type_, end));
      ForAllStarts(params, WriteType(type_, end));
    case LifetimePredicate(_, outlives) => LifetimesRead(outlives, rest);
    case EqPredicate(lhs, rhs) =>
      TermReads(rhs, rest);
      var end := Cons(Equals, WriteTerm(rhs, rest));
      TypeReads(lhs, true, end);
      TypeStarts(lhs, true, end);
      NoForAll(WriteType(lhs, end));
      ForAllReads([], WriteType(lhs, end));
  }

  lemma NoForAll(rest: Tokens)
    ensures WriteForAll([], rest) == rest && LegibleParams([])
  {
  }

  lemma {:induction false} PredicatesRead(ws: seq<WherePredicate>, rest: Tokens)
    requires |ws| > 0 && LegiblePredicates(ws) && rest.Cons? && rest.head.Semicolon?
    ensures ReadPredicates(WritePredicates(ws, rest)) == Read(ws, rest)
  {
    hide ReadPredicate, WritePredicate, LegiblePredicate;
    assert ws == [ws[0]] + ws[1..];
    if |ws| == 1 {
      assert ws == [ws[0]];
      PredicateReads(ws[0], rest);
    } else {
      PredicateReads(ws[0], Cons(Comma, WritePredicates(ws[1..], rest)));
      PredicatesRead(ws[1..], rest);
    }
  }
}
