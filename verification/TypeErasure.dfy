/**
  What erasing leaves behind. `Mentions*` says that a tree names one of `names` in a place that elision
  looks at: as a parameter, an outlives bound, the lifetime of a reference or a trait object, or a
  generic or capture argument (where the placeholder `'_` stands for an elided name and does not count).
  */
module TypeErasure {
  import opened Basics
  import opened TypeSyntax
  import opened TypeRender

  predicate NamesArg(lifetime: string, names: set<string>) {
    lifetime in names && lifetime != PLACEHOLDER
  }

  predicate NamesAny(lifetimes: seq<string>, names: set<string>) {
    |lifetimes| > 0 && (lifetimes[0] in names || NamesAny(lifetimes[1..], names))
  }

  predicate MentionsType(t: Type, names: set<string>)
    decreases t
  {
    match t
    case ResolvedPath(path) => MentionsPath(path, names)
    case DynTrait(traits, bound) => MentionsPolys(traits, names) || (bound.Some? && bound.value in names)
    case Generic(_) => false
    case Primitive(_) => false
    case FunctionPointer(_, params, inputs, _, output) => MentionsParams(params, names) || MentionsTypes(inputs, names) || MentionsOutput(output, names)
    case Tuple(types) => MentionsTypes(types, names)
    case Slice(elem) => MentionsType(elem, names)
    case Array(elem, _) => MentionsType(elem, names)
    case Pat(elem) => MentionsType(elem, names)
    case ImplTrait(bounds) => MentionsBounds(bounds, names)
    case Infer => false
    case RawPointer(_, elem) => MentionsType(elem, names)
    case BorrowedRef(lifetime, _, elem) => MentionsType(elem, names) || (lifetime.Some? && lifetime.value in names)
    case QualifiedPath(_, args, selfType, trait_) =>
      MentionsArgs(args, names) || MentionsType(selfType, names) || (trait_.Some? && MentionsPath(trait_.value, names))
  }

  predicate MentionsOutput(output: Option<Type>, names: set<string>)
    decreases output
  {
    output.Some? && MentionsType(output.value, names)
  }

  predicate MentionsPath(p: Path, names: set<string>)
    decreases p
  {
    p.args.Some? && MentionsArgs(p.args.value, names)
  }

  predicate MentionsPoly(p: PolyTrait, names: set<string>)
    decreases p
  {
    MentionsPath(p.trait_, names) || MentionsParams(p.params, names)
  }

  predicate MentionsArgs(a: GenericArgs, names: set<string>)
    decreases a
  {
    match a
    case AngleBracketed(args, constraints) => MentionsArgList(args, names) || MentionsConstraints(constraints, names)
    case Parenthesized(inputs, output) => MentionsTypes(inputs, names) || MentionsOutput(output, names)
    case ReturnTypeNotation => false
  }

  predicate MentionsArg(a: GenericArg, names: set<string>)
    decreases a
  {
    match a
    case LifetimeArg(lifetime) => NamesArg(lifetime, names)
    case TypeArg(t) => MentionsType(t, names)
    case ConstArg(_) => false
    case InferArg => false
  }

  predicate MentionsConstraint(c: AssocConstraint, names: set<string>)
    decreases c
  {
    MentionsArgs(c.args, names) || MentionsBinding(c.binding, names)
  }

  predicate MentionsBinding(b: AssocBinding, names: set<string>)
    decreases b
  {
    match b
    case Equality(term) => MentionsTerm(term, names)
    case Constraint(bounds) => MentionsBounds(bounds, names)
  }

  predicate MentionsTerm(t: Term, names: set<string>)
    decreases t
  {
    t.TypeTerm? && MentionsType(t.type_, names)
  }

  predicate MentionsCaptures(captures: seq<CaptureArg>, names: set<string>) {
    |captures| > 0 && ((captures[0].CaptureLifetime? && NamesArg(captures[0].lifetime, names)) || MentionsCaptures(captures[1..], names))
  }

  predicate MentionsBound(b: GenericBound, names: set<string>)
    decreases b
  {
    match b
    case TraitBound(trait_, params, _) => MentionsPath(trait_, names) || MentionsParams(params, names)
    case Outlives(lifetime) => lifetime in names
    case Captures(captures) => MentionsCaptures(captures, names)
  }

  predicate MentionsKind(k: ParamKind, names: set<string>)
    decreases k
  {
    match k
    case LifetimeParam(outlives) => NamesAny(outlives, names)
    case TypeParam(bounds, default) => MentionsBounds(bounds, names) || (default.Some? && MentionsType(default.value, names))
    case ConstParam(type_, _) => MentionsType(type_, names)
  }

  predicate MentionsParam(p: GenericParam, names: set<string>)
    decreases p
  {
    p.name in names || MentionsKind(p.kind, names)
  }

  predicate MentionsTypes(xs: seq<Type>, names: set<string>)
    decreases xs
  {
    |xs| > 0 && (MentionsType(xs[0], names) || MentionsTypes(xs[1..], names))
  }

  predicate MentionsPolys(xs: seq<PolyTrait>, names: set<string>)
    decreases xs
  {
    |xs| > 0 && (MentionsPoly(xs[0], names) || MentionsPolys(xs[1..], names))
  }

  predicate MentionsArgList(xs: seq<GenericArg>, names: set<string>)
    decreases xs
  {
    |xs| > 0 && (MentionsArg(xs[0], names) || MentionsArgList(xs[1..], names))
  }

  predicate MentionsConstraints(xs: seq<AssocConstraint>, names: set<string>)
    decreases xs
  {
    |xs| > 0 && (MentionsConstraint(xs[0], names) || MentionsConstraints(xs[1..], names))
  }

  predicate MentionsBounds(xs: seq<GenericBound>, names: set<string>)
    decreases xs
  {
    |xs| > 0 && (MentionsBound(xs[0], names) || MentionsBounds(xs[1..], names))
  }

  predicate MentionsParams(xs: seq<GenericParam>, names: set<string>)
    decreases xs
  {
    |xs| > 0 && (MentionsParam(xs[0], names) || MentionsParams(xs[1..], names))
  }

  predicate MentionsPredicate(w: WherePredicate, names: set<string>) {
    match w
    case BoundPredicate(type_, bounds, params) => MentionsType(type_, names) || MentionsBounds(bounds, names) || MentionsParams(params, names)
    case LifetimePredicate(lifetime, outlives) => lifetime in names || NamesAny(outlives, names)
    case EqPredicate(lhs, rhs) => MentionsType(lhs, names) || MentionsTerm(rhs, names)
  }

  predicate MentionsPredicates(ws: seq<WherePredicate>, names: set<string>) {
    |ws| > 0 && (MentionsPredicate(ws[0], names) || MentionsPredicates(ws[1..], names))
  }

  predicate MentionsInputs(inputs: seq<(string, Type)>, names: set<string>) {
    |inputs| > 0 && (MentionsType(inputs[0].1, names) || MentionsInputs(inputs[1..], names))
  }

  predicate MentionsFunction(f: Function, names: set<string>) {
    MentionsParams(f.params, names) || MentionsPredicates(f.predicates, names) || MentionsInputs(f.inputs, names) || MentionsOutput(f.output, names)
  }

  // ---------- Erased trees mention nothing erased; trees without mentions are left alone ----------

  lemma {:induction false} WithoutNames(xs: seq<string>, names: set<string>)
    ensures !NamesAny(Without(xs, names), names)
    ensures Without(xs, names) == xs <==> !NamesAny(xs, names)
  {
    if |xs| == 0 {
    } else {
      WithoutNames(xs[1..], names);
      if xs[0] !in names {
        assert Without(xs, names)[1..] == Without(xs[1..], names);
      }
    }
  }

  lemma {:induction false} CapturesErased(xs: seq<CaptureArg>, names: set<string>)
    ensures !MentionsCaptures(EraseCaptures(xs, names), names)
    ensures EraseCaptures(xs, names) == xs <==> !MentionsCaptures(xs, names)
  {
    if |xs| == 0 {
    } else {
      CapturesErased(xs[1..], names);
      assert EraseCaptures(xs, names)[1..] == EraseCaptures(xs[1..], names);
      assert xs == [xs[0]] + xs[1..];
    }
  }

  lemma {:induction false} TypeErased(t: Type, names: set<string>)
    ensures !MentionsType(EraseType(t, names), names)
    ensures EraseType(t, names) == t <==> !MentionsType(t, names)
    decreases t
  {
    match t
    case ResolvedPath(path) => PathErased(path, names);
    case DynTrait(traits, _) => PolysErased(traits, names);
    case Generic(_) =>
    case Primitive(_) =>
    case FunctionPointer(_, params, inputs, _, output) =>
      ParamsErased(params, names);
      TypesErased(inputs, names);
      OutputErased(output, names);
    case Tuple(types) => TypesErased(types, names);
    case Slice(elem) => TypeErased(elem, names);
    case Array(elem, _) => TypeErased(elem, names);
    case Pat(elem) => TypeErased(elem, names);
    case ImplTrait(bounds) => BoundsErased(bounds, names);
    case Infer =>
    case RawPointer(_, elem) => TypeErased(elem, names);
    case BorrowedRef(_, _, elem) => TypeErased(elem, names);
    case QualifiedPath(_, args, selfType, trait_) =>
      ArgsErased(args, names);
      TypeErased(selfType, names);
      if trait_.Some? {
        PathErased(trait_.value, names);
      }
  }

  lemma {:induction false} OutputErased(output: Option<Type>, names: set<string>)
    ensures !MentionsOutput(EraseOutput(output, names), names)
    ensures EraseOutput(output, names) == output <==> !MentionsOutput(output, names)
    decreases output
  {
    if output.Some? {
      TypeErased(output.value, names);
    }
  }

  lemma {:induction false} PathErased(p: Path, names: set<string>)
    ensures !MentionsPath(ErasePath(p, names), names)
    ensures ErasePath(p, names) == p <==> !MentionsPath(p, names)
    decreases p
  {
    if p.args.Some? {
      ArgsErased(p.args.value, names);
    }
  }

  lemma {:induction false} PolyErased(p: PolyTrait, names: set<string>)
    ensures !MentionsPoly(ErasePoly(p, names), names)
    ensures ErasePoly(p, names) == p <==> !MentionsPoly(p, names)
    decreases p
  {
    PathErased(p.trait_, names);
    ParamsErased(p.params, names);
  }

  lemma {:induction false} ArgsErased(a: GenericArgs, names: set<string>)
    ensures !MentionsArgs(EraseArgs(a, names), names)
    ensures EraseArgs(a, names) == a <==> !MentionsArgs(a, names)
    decreases a
  {
    match a
    case AngleBracketed(args, constraints) =>
      ArgListErased(args, names);
      ConstraintsErased(constraints, names);
    case Parenthesized(inputs, output) =>
      TypesErased(inputs, names);
      OutputErased(output, names);
    case ReturnTypeNotation =>
  }

  lemma {:induction false} ArgErased(a: GenericArg, names: set<string>)
    ensures !MentionsArg(EraseArg(a, names), names)
    ensures EraseArg(a, names) == a <==> !MentionsArg(a, names)
    decreases a
  {
    if a.TypeArg? {
      TypeErased(a.type_, names);
    }
  }

  lemma {:induction false} ConstraintErased(c: AssocConstraint, names: set<string>)
    ensures !MentionsConstraint(EraseConstraint(c, names), names)
    ensures EraseConstraint(c, names) == c <==> !MentionsConstraint(c, names)
    decreases c
  {
    ArgsErased(c.args, names);
    BindingErased(c.binding, names);
  }

  lemma {:induction false} BindingErased(b: AssocBinding, names: set<string>)
    ensures !MentionsBinding(EraseBinding(b, names), names)
    ensures EraseBinding(b, names) == b <==> !MentionsBinding(b, names)
    decreases b
  {
    match b
    case Equality(term) => TermErased(term, names);
    case Constraint(bounds) => BoundsErased(bounds, names);
  }

  lemma {:induction false} TermErased(t: Term, names: set<string>)
    ensures !MentionsTerm(EraseTerm(t, names), names)
    ensures EraseTerm(t, names) == t <==> !MentionsTerm(t, names)
    decreases t
  {
    if t.TypeTerm? {
      TypeErased(t.type_, names);
    }
  }

  lemma {:induction false} BoundErased(b: GenericBound, names: set<string>)
    requires !(b.Outlives? && b.lifetime in names)
    ensures !MentionsBound(EraseBound(b, names), names)
    ensures EraseBound(b, names) == b <==> !MentionsBound(b, names)
    decreases b
  {
    match b
    case TraitBound(trait_, params, _) =>
      PathErased(trait_, names);
      ParamsErased(params, names);
    case Outlives(_) =>
    case Captures(captures) => CapturesErased(captures, names);
  }

  lemma {:induction false} KindErased(k: ParamKind, names: set<string>)
    ensures !MentionsKind(EraseKind(k, names), names)
    ensures EraseKind(k, names) == k <==> !MentionsKind(k, names)
    decreases k
  {
    match k
    case LifetimeParam(outlives) => WithoutNames(outlives, names);
    case TypeParam(bounds, default) =>
      BoundsErased(bounds, names);
      if default.Some? {
        TypeErased(default.value, names);
      }
    case ConstParam(type_, _) => TypeErased(type_, names);
  }

  lemma {:induction false} TypesErased(xs: seq<Type>, names: set<string>)
    ensures !MentionsTypes(EraseTypes(xs, names), names)
    ensures EraseTypes(xs, names) == xs <==> !MentionsTypes(xs, names)
    decreases xs
  {
    hide EraseType, MentionsType;
    if |xs| == 0 {
    } else {
      TypeErased(xs[0], names);
      TypesErased(xs[1..], names);
      assert EraseTypes(xs, names)[0] == EraseType(xs[0], names) && EraseTypes(xs, names)[1..] == EraseTypes(xs[1..], names);
      assert xs == [xs[0]] + xs[1..];
    }
  }

  lemma {:induction false} PolysErased(xs: seq<PolyTrait>, names: set<string>)
    ensures !MentionsPolys(ErasePolys(xs, names), names)
    ensures ErasePolys(xs, names) == xs <==> !MentionsPolys(xs, names)
    decreases xs
  {
    if |xs| == 0 {
    } else {
      PolyErased(xs[0], names);
      PolysErased(xs[1..], names);
      assert ErasePolys(xs, names)[0] == ErasePoly(xs[0], names) && ErasePolys(xs, names)[1..] == ErasePolys(xs[1..], names);
      assert xs == [xs[0]] + xs[1..];
    }
  }

  lemma {:induction false} ArgListErased(xs: seq<GenericArg>, names: set<string>)
    ensures !MentionsArgList(EraseArgList(xs, names), names)
    ensures EraseArgList(xs, names) == xs <==> !MentionsArgList(xs, names)
    decreases xs
  {
    if |xs| == 0 {
    } else {
      ArgErased(xs[0], names);
      ArgListErased(xs[1..], names);
      assert EraseArgList(xs, names)[0] == EraseArg(xs[0], names) && EraseArgList(xs, names)[1..] == EraseArgList(xs[1..], names);
      assert xs == [xs[0]] + xs[1..];
    }
  }

  lemma {:induction false} ConstraintsErased(xs: seq<AssocConstraint>, names: set<string>)
    ensures !MentionsConstraints(EraseConstraints(xs, names), names)
    ensures EraseConstraints(xs, names) == xs <==> !MentionsConstraints(xs, names)
    decreases xs
  {
    if |xs| == 0 {
    } else {
      ConstraintErased(xs[0], names);
      ConstraintsErased(xs[1..], names);
      assert EraseConstraints(xs, names)[0] == EraseConstraint(xs[0], names) && EraseConstraints(xs, names)[1..] == EraseConstraints(xs[1..], names);
      assert xs == [xs[0]] + xs[1..];
    }
  }

  lemma {:induction false} BoundsErased(xs: seq<GenericBound>, names: set<string>)
    ensures !MentionsBounds(EraseBounds(xs, names), names)
    ensures EraseBounds(xs, names) == xs <==> !MentionsBounds(xs, names)
    decreases xs
  {
    if |xs| == 0 {
    } else {
      BoundsErased(xs[1..], names);
      if !(xs[0].Outlives? && xs[0].lifetime in names) {
        BoundErased(xs[0], names);
        assert EraseBounds(xs, names)[0] == EraseBound(xs[0], names) && EraseBounds(xs, names)[1..] == EraseBounds(xs[1..], names);
        assert xs == [xs[0]] + xs[1..];
      }
    }
  }

  lemma {:induction false} ParamsErased(xs: seq<GenericParam>, names: set<string>)
    ensures !MentionsParams(EraseParams(xs, names), names)
    ensures EraseParams(xs, names) == xs <==> !MentionsParams(xs, names)
    decreases xs
  {
    if |xs| == 0 {
    } else {
      ParamsErased(xs[1..], names);
      if xs[0].name !in names {
        KindErased(xs[0].kind, names);
        assert EraseParams(xs, names)[0] == EraseParam(xs[0], names) && EraseParams(xs, names)[1..] == EraseParams(xs[1..], names);
        assert xs == [xs[0]] + xs[1..];
      }
    }
  }

  lemma PredicateErased(w: WherePredicate, names: set<string>)
    requires !(w.LifetimePredicate? && w.lifetime in names)
    ensures !MentionsPredicate(ErasePredicate(w, names), names)
    ensures ErasePredicate(w, names) == w <==> !MentionsPredicate(w, names)
  {
    match w
    case BoundPredicate(type_, bounds, params) =>
      TypeErased(type_, names);
      BoundsErased(bounds, names);
      ParamsErased(params, names);
    case LifetimePredicate(_, outlives) => WithoutNames(outlives, names);
    case EqPredicate(lhs, rhs) =>
      TypeErased(lhs, names);
      TermErased(rhs, names);
  }

  lemma {:induction false} PredicatesErased(ws: seq<WherePredicate>, names: set<string>)
    ensures !MentionsPredicates(ErasePredicates(ws, names), names)
    ensures ErasePredicates(ws, names) == ws <==> !MentionsPredicates(ws, names)
  {
    if |ws| == 0 {
    } else {
      PredicatesErased(ws[1..], names);
      if !(ws[0].LifetimePredicate? && ws[0].lifetime in names) {
        PredicateErased(ws[0], names);
        assert ErasePredicates(ws, names)[0] == ErasePredicate(ws[0], names) && ErasePredicates(ws, names)[1..] == ErasePredicates(ws[1..], names);
        assert ws == [ws[0]] + ws[1..];
      }
    }
  }

  lemma {:induction false} InputsErased(xs: seq<(string, Type)>, names: set<string>)
    ensures !MentionsInputs(EraseInputs(xs, names), names)
    ensures EraseInputs(xs, names) == xs <==> !MentionsInputs(xs, names)
  {
    if |xs| == 0 {
    } else {
      TypeErased(xs[0].1, names);
      InputsErased(xs[1..], names);
      assert EraseInputs(xs, names)[1..] == EraseInputs(xs[1..], names);
      assert xs == [xs[0]] + xs[1..];
    }
  }

  /** Erasing a whole declaration removes every mention, and changes exactly the declarations that have one. */
  lemma FunctionErased(f: Function, names: set<string>)
    ensures !MentionsFunction(EraseFunction(f, names), names)
    ensures EraseFunction(f, names) == f <==> !MentionsFunction(f, names)
  {
    ParamsErased(f.params, names);
    PredicatesErased(f.predicates, names);
    InputsErased(f.inputs, names);
    OutputErased(f.output, names);
  }

  /** A declaration that mentions none of the elided names prints as it does without elision. */
  lemma UnmentionedPrintsPlain(name: string, f: Function, isPublic: bool, names: set<string>)
    requires !MentionsFunction(f, names)
    ensures RenderWith(name, f, isPublic, names) == RenderWith(name, f, isPublic, {})
  {
    FunctionErased(f, names);
    assert names + {} == names;
    DeclarationCommutes(name, f, isPublic, names, {});
  }

  /** The same for a type on its own. */
  lemma UnmentionedTypePrintsPlain(t: Type, names: set<string>)
    requires !MentionsType(t, names)
    ensures RenderType(t, names) == RenderType(t, {})
  {
    TypeErased(t, names);
    assert names + {} == names;
    TypeCommutes(t, names, {});
  }
}
