/**
  Printing of types with elision (the `render_*_with_elision` family of `generate_api`).

  Plain printing is printing with the empty elision set, as in the source. `Erase*` removes a set of
  lifetimes from the tree without printing anything; the main law says that printing with elision is
  erasing first and printing afterwards, for every tree and every pair of sets.
  */
module TypeRender {
  import opened Basics
  import opened TypeSyntax

  // ---------- Text ----------

  /** `part` in front of `rest`, unless it is empty. */
  function Prepend(part: string, rest: seq<string>): seq<string> {
    if part == "" then rest else [part] + rest
  }

  /** `prefix` + the joined parts + `suffix`, or nothing when there are no parts. */
  function Enclose(prefix: string, parts: seq<string>, separator: string, suffix: string): string {
    if |parts| == 0 then "" else prefix + Join(parts, separator) + suffix
  }

  function Without(lifetimes: seq<string>, elided: set<string>): (kept: seq<string>)
    ensures |kept| <= |lifetimes|
  {
    if |lifetimes| == 0 then []
    else if lifetimes[0] in elided then Without(lifetimes[1..], elided)
    else [lifetimes[0]] + Without(lifetimes[1..], elided)
  }

  function RenderAbi(abi: Abi): seq<string> {
    match abi
    case Rust => []
    case Named(name, unwind) => ["extern \"" + name + (if unwind then "-unwind\"" else "\"")]
    case OtherAbi(quoted) => ["extern " + quoted]
  }

  function RenderHeader(header: FunctionHeader): string {
    Enclose("",
            (if header.isConst then ["const"] else []) + (if header.isAsync then ["async"] else []) +
            (if header.isUnsafe then ["unsafe"] else []) + RenderAbi(header.abi),
            " ", " ")
  }

  function Variadic(isVariadic: bool, anyInputs: bool): string {
    if !isVariadic then "" else if anyInputs then ", ..." else "..."
  }

  const PLACEHOLDER := "'_"

  function ElideArg(lifetime: string, elided: set<string>): string {
    if lifetime in elided then PLACEHOLDER else lifetime
  }

  // ---------- Printing with an elision set ----------

  function RenderType(t: Type, elided: set<string>): string
    decreases t
  {
    match t
    case ResolvedPath(path) => RenderPath(path, elided)
    case DynTrait(traits, bound) =>
      "dyn " + Join(RenderPolys(traits, elided), " + ") + (if bound.Some? && bound.value !in elided then " + " + bound.value else "")
    case Generic(name) => name
    case Primitive(name) => name
    case FunctionPointer(header, params, inputs, isVariadic, output) =>
      RenderHeader(header) + "fn" + Enclose("<", RenderParams(params, elided), ", ", ">") +
      "(" + Join(RenderTypes(inputs, elided), ", ") + Variadic(isVariadic, |inputs| > 0) + ")" + RenderOutput(output, elided)
    case Tuple(types) => "(" + Join(RenderTypes(types, elided), ", ") + ")"
    case Slice(elem) => "[" + RenderType(elem, elided) + "]"
    case Array(elem, len) => "[" + RenderType(elem, elided) + "; " + len + "]"
    case Pat(elem) => RenderType(elem, elided)
    case ImplTrait(bounds) => "impl " + Join(RenderBounds(bounds, elided), " + ")
    case Infer => "_"
    case RawPointer(isMutable, elem) => "*" + (if isMutable then "mut" else "const") + " " + RenderType(elem, elided)
    case BorrowedRef(lifetime, isMutable, elem) =>
      "&" + (if lifetime.Some? && lifetime.value !in elided then lifetime.value + " " else "") +
      (if isMutable then "mut " else "") + RenderType(elem, elided)
    case QualifiedPath(name, args, selfType, trait_) =>
      "<" + RenderType(selfType, elided) + (if trait_.Some? then " as " + RenderPath(trait_.value, elided) else "") +
      ">::" + name + RenderArgs(args, elided)
  }

  function RenderTypes(ts: seq<Type>, elided: set<string>): (parts: seq<string>)
    ensures |parts| == |ts|
    decreases ts
  {
    if |ts| == 0 then [] else [RenderType(ts[0], elided)] + RenderTypes(ts[1..], elided)
  }

  function RenderOutput(output: Option<Type>, elided: set<string>): string
    decreases output
  {
    if output.Some? then " -> " + RenderType(output.value, elided) else ""
  }

  function RenderPath(p: Path, elided: set<string>): string
    decreases p
  {
    p.path + if p.args.Some? then RenderArgs(p.args.value, elided) else ""
  }

  function RenderPoly(p: PolyTrait, elided: set<string>): string
    decreases p
  {
    Enclose("for<", RenderParams(p.params, elided), ", ", "> ") + RenderPath(p.trait_, elided)
  }

  function RenderPolys(ps: seq<PolyTrait>, elided: set<string>): seq<string>
    decreases ps
  {
    if |ps| == 0 then [] else [RenderPoly(ps[0], elided)] + RenderPolys(ps[1..], elided)
  }

  function RenderArgs(a: GenericArgs, elided: set<string>): string
    decreases a
  {
    match a
    case AngleBracketed(args, constraints) => Enclose("<", RenderArgList(args, elided) + RenderConstraints(constraints, elided), ", ", ">")
    case Parenthesized(inputs, output) => "(" + Join(RenderTypes(inputs, elided), ", ") + ")" + RenderOutput(output, elided)
    case ReturnTypeNotation => "(..)"
  }

  function RenderArg(a: GenericArg, elided: set<string>): string
    decreases a
  {
    match a
    case LifetimeArg(lifetime) => ElideArg(lifetime, elided)
    case TypeArg(t) => RenderType(t, elided)
    case ConstArg(expr) => expr
    case InferArg => "_"
  }

  function RenderArgList(args: seq<GenericArg>, elided: set<string>): seq<string>
    decreases args
  {
    if |args| == 0 then [] else [RenderArg(args[0], elided)] + RenderArgList(args[1..], elided)
  }

  function RenderConstraint(c: AssocConstraint, elided: set<string>): string
    decreases c
  {
    c.name + RenderArgs(c.args, elided) + RenderBinding(c.binding, elided)
  }

  function RenderBinding(b: AssocBinding, elided: set<string>): string
    decreases b
  {
    match b
    case Equality(term) => " = " + RenderTerm(term, elided)
    case Constraint(bounds) => ": " + Join(RenderBounds(bounds, elided), " + ")
  }

  function RenderConstraints(cs: seq<AssocConstraint>, elided: set<string>): seq<string>
    decreases cs
  {
    if |cs| == 0 then [] else [RenderConstraint(cs[0], elided)] + RenderConstraints(cs[1..], elided)
  }

  function RenderTerm(t: Term, elided: set<string>): string
    decreases t
  {
    match t
    case TypeTerm(type_) => RenderType(type_, elided)
    case ConstTerm(expr) => expr
  }

  function RenderModifier(m: Modifier): string {
    match m
    case NoModifier => ""
    case Maybe => "?"
    case MaybeConst => "const "
  }

  function RenderCaptures(captures: seq<CaptureArg>, elided: set<string>): seq<string> {
    if |captures| == 0 then []
    else
      [match captures[0]
         case CaptureLifetime(lifetime) => ElideArg(lifetime, elided)
         case CaptureParam(name) => name] + RenderCaptures(captures[1..], elided)
  }

  function RenderBound(b: GenericBound, elided: set<string>): string
    decreases b
  {
    match b
    case TraitBound(trait_, params, modifier) =>
      Enclose("for<", RenderParams(params, elided), ", ", "> ") + RenderModifier(modifier) + RenderPath(trait_, elided)
    case Outlives(lifetime) => if lifetime in elided then "" else lifetime
    case Captures(captures) => "use<" + Join(RenderCaptures(captures, elided), ", ") + ">"
  }

  /** The bounds that print as something. */
  function RenderBounds(bs: seq<GenericBound>, elided: set<string>): seq<string>
    decreases bs
  {
    if |bs| == 0 then [] else Prepend(RenderBound(bs[0], elided), RenderBounds(bs[1..], elided))
  }

  function RenderParam(p: GenericParam, elided: set<string>): string
    decreases p
  {
    if p.name in elided then "" else RenderKind(p.name, p.kind, elided)
  }

  function RenderKind(name: string, k: ParamKind, elided: set<string>): string
    decreases k
  {
    match k
    case LifetimeParam(outlives) => name + Enclose(": ", Without(outlives, elided), " + ", "")
    case TypeParam(bounds, default) =>
      name + Enclose(": ", RenderBounds(bounds, elided), " + ", "") +
      (if default.Some? then " = " + RenderType(default.value, elided) else "")
    case ConstParam(type_, default) =>
      "const " + name + ": " + RenderType(type_, elided) + (if default.Some? then " = " + default.value else "")
  }

  /** The parameters that are not elided and print as something. */
  function RenderParams(ps: seq<GenericParam>, elided: set<string>): seq<string>
    decreases ps
  {
    if |ps| == 0 then []
    else if ps[0].name in elided then RenderParams(ps[1..], elided)
    else Prepend(RenderParam(ps[0], elided), RenderParams(ps[1..], elided))
  }

  function RenderPredicate(w: WherePredicate, elided: set<string>): Option<string> {
    match w
    case BoundPredicate(type_, bounds, params) =>
      var rendered := RenderBounds(bounds, elided);
      if |rendered| == 0 then None
      else Some(Enclose("for<", RenderParams(params, elided), ", ", "> ") + RenderType(type_, elided) + ": " + Join(rendered, " + "))
    case LifetimePredicate(lifetime, outlives) =>
      var kept := Without(outlives, elided);
      if lifetime in elided || |kept| == 0 then None else Some(lifetime + ": " + Join(kept, " + "))
    case EqPredicate(lhs, rhs) => Some(RenderType(lhs, elided) + " = " + RenderTerm(rhs, elided))
  }

  function RenderPredicates(ws: seq<WherePredicate>, elided: set<string>): seq<string> {
    if |ws| == 0 then []
    else
      var first, rest := RenderPredicate(ws[0], elided), RenderPredicates(ws[1..], elided);
      if first.None? then rest else [first.value] + rest
  }

  function RenderWhere(ws: seq<WherePredicate>, elided: set<string>): string {
    Enclose(" where ", RenderPredicates(ws, elided), ", ", "")
  }

  // ---------- Erasing a set of lifetimes from the tree ----------

  function EraseType(t: Type, gone: set<string>): Type
    decreases t
  {
    match t
    case ResolvedPath(path) => ResolvedPath(ErasePath(path, gone))
    case DynTrait(traits, bound) => DynTrait(ErasePolys(traits, gone), Keep(bound, gone))
    case Generic(name) => t
    case Primitive(name) => t
    case FunctionPointer(header, params, inputs, isVariadic, output) =>
      FunctionPointer(header, EraseParams(params, gone), EraseTypes(inputs, gone), isVariadic, EraseOutput(output, gone))
    case Tuple(types) => Tuple(EraseTypes(types, gone))
    case Slice(elem) => Slice(EraseType(elem, gone))
    case Array(elem, len) => Array(EraseType(elem, gone), len)
    case Pat(elem) => Pat(EraseType(elem, gone))
    case ImplTrait(bounds) => ImplTrait(EraseBounds(bounds, gone))
    case Infer => t
    case RawPointer(isMutable, elem) => RawPointer(isMutable, EraseType(elem, gone))
    case BorrowedRef(lifetime, isMutable, elem) => BorrowedRef(Keep(lifetime, gone), isMutable, EraseType(elem, gone))
    case QualifiedPath(name, args, selfType, trait_) =>
      QualifiedPath(name, EraseArgs(args, gone), EraseType(selfType, gone), if trait_.Some? then Some(ErasePath(trait_.value, gone)) else None)
  }

  function Keep(lifetime: Option<string>, gone: set<string>): Option<string> {
    if lifetime.Some? && lifetime.value in gone then None else lifetime
  }

  function EraseTypes(ts: seq<Type>, gone: set<string>): (erased: seq<Type>)
    ensures |erased| == |ts|
    decreases ts
  {
    if |ts| == 0 then [] else [EraseType(ts[0], gone)] + EraseTypes(ts[1..], gone)
  }

  function EraseOutput(output: Option<Type>, gone: set<string>): Option<Type>
    decreases output
  {
    if output.Some? then Some(EraseType(output.value, gone)) else None
  }

  function ErasePath(p: Path, gone: set<string>): Path
    decreases p
  {
    Path(p.path, if p.args.Some? then Some(EraseArgs(p.args.value, gone)) else None)
  }

  function ErasePoly(p: PolyTrait, gone: set<string>): PolyTrait
    decreases p
  {
    PolyTrait(ErasePath(p.trait_, gone), EraseParams(p.params, gone))
  }

  function ErasePolys(ps: seq<PolyTrait>, gone: set<string>): seq<PolyTrait>
    decreases ps
  {
    if |ps| == 0 then [] else [ErasePoly(ps[0], gone)] + ErasePolys(ps[1..], gone)
  }

  function EraseArgs(a: GenericArgs, gone: set<string>): GenericArgs
    decreases a
  {
    match a
    case AngleBracketed(args, constraints) => AngleBracketed(EraseArgList(args, gone), EraseConstraints(constraints, gone))
    case Parenthesized(inputs, output) => Parenthesized(EraseTypes(inputs, gone), EraseOutput(output, gone))
    case ReturnTypeNotation => a
  }

  function EraseArg(a: GenericArg, gone: set<string>): GenericArg
    decreases a
  {
    match a
    case LifetimeArg(lifetime) => LifetimeArg(ElideArg(lifetime, gone))
    case TypeArg(t) => TypeArg(EraseType(t, gone))
    case ConstArg(_) => a
    case InferArg => a
  }

  function EraseArgList(args: seq<GenericArg>, gone: set<string>): seq<GenericArg>
    decreases args
  {
    if |args| == 0 then [] else [EraseArg(args[0], gone)] + EraseArgList(args[1..], gone)
  }

  function EraseConstraint(c: AssocConstraint, gone: set<string>): AssocConstraint
    decreases c
  {
    AssocConstraint(c.name, EraseArgs(c.args, gone), EraseBinding(c.binding, gone))
  }

  function EraseBinding(b: AssocBinding, gone: set<string>): AssocBinding
    decreases b
  {
    match b
    case Equality(term) => Equality(EraseTerm(term, gone))
    case Constraint(bounds) => Constraint(EraseBounds(bounds, gone))
  }

  function EraseConstraints(cs: seq<AssocConstraint>, gone: set<string>): seq<AssocConstraint>
    decreases cs
  {
    if |cs| == 0 then [] else [EraseConstraint(cs[0], gone)] + EraseConstraints(cs[1..], gone)
  }

  function EraseTerm(t: Term, gone: set<string>): Term
    decreases t
  {
    match t
    case TypeTerm(type_) => TypeTerm(EraseType(type_, gone))
    case ConstTerm(_) => t
  }

  function EraseCaptures(captures: seq<CaptureArg>, gone: set<string>): seq<CaptureArg> {
    if |captures| == 0 then []
    else
      [match captures[0]
         case CaptureLifetime(lifetime) => CaptureLifetime(ElideArg(lifetime, gone))
         case CaptureParam(_) => captures[0]] + EraseCaptures(captures[1..], gone)
  }

  function EraseBound(b: GenericBound, gone: set<string>): GenericBound
    decreases b
  {
    match b
    case TraitBound(trait_, params, modifier) => TraitBound(ErasePath(trait_, gone), EraseParams(params, gone), modifier)
    case Outlives(_) => b
    case Captures(captures) => Captures(EraseCaptures(captures, gone))
  }

  function EraseBounds(bs: seq<GenericBound>, gone: set<string>): (erased: seq<GenericBound>)
    ensures |erased| <= |bs|
    decreases bs
  {
    if |bs| == 0 then []
    else if bs[0].Outlives? && bs[0].lifetime in gone then EraseBounds(bs[1..], gone)
    else [EraseBound(bs[0], gone)] + EraseBounds(bs[1..], gone)
  }

  function EraseKind(k: ParamKind, gone: set<string>): ParamKind
    decreases k
  {
    match k
    case LifetimeParam(outlives) => LifetimeParam(Without(outlives, gone))
    case TypeParam(bounds, default) => TypeParam(EraseBounds(bounds, gone), if default.Some? then Some(EraseType(default.value, gone)) else None)
    case ConstParam(type_, default) => ConstParam(EraseType(type_, gone), default)
  }

  function EraseParam(p: GenericParam, gone: set<string>): GenericParam
    decreases p
  {
    GenericParam(p.name, EraseKind(p.kind, gone))
  }

  function EraseParams(ps: seq<GenericParam>, gone: set<string>): (erased: seq<GenericParam>)
    ensures |erased| <= |ps|
    decreases ps
  {
    if |ps| == 0 then []
    else if ps[0].name in gone then EraseParams(ps[1..], gone)
    else [EraseParam(ps[0], gone)] + EraseParams(ps[1..], gone)
  }

  function ErasePredicate(w: WherePredicate, gone: set<string>): WherePredicate {
    match w
    case BoundPredicate(type_, bounds, params) => BoundPredicate(EraseType(type_, gone), EraseBounds(bounds, gone), EraseParams(params, gone))
    case LifetimePredicate(lifetime, outlives) => LifetimePredicate(lifetime, Without(outlives, gone))
    case EqPredicate(lhs, rhs) => EqPredicate(EraseType(lhs, gone), EraseTerm(rhs, gone))
  }

  function ErasePredicates(ws: seq<WherePredicate>, gone: set<string>): (erased: seq<WherePredicate>)
    ensures |erased| <= |ws|
  {
    if |ws| == 0 then []
    else if ws[0].LifetimePredicate? && ws[0].lifetime in gone then ErasePredicates(ws[1..], gone)
    else [ErasePredicate(ws[0], gone)] + ErasePredicates(ws[1..], gone)
  }

  // ---------- Printing with elision is erasing, then printing ----------

  lemma {:induction false} WithoutTwice(xs: seq<string>, gone: set<string>, elided: set<string>)
    ensures Without(xs, gone + elided) == Without(Without(xs, gone), elided)
  {
    if |xs| == 0 {
    } else {
      WithoutTwice(xs[1..], gone, elided);
      var kept := Without(xs, gone);
      if xs[0] !in gone {
        assert kept[0] == xs[0] && kept[1..] == Without(xs[1..], gone);
      }
    }
  }

  lemma {:induction false} CapturesCommute(xs: seq<CaptureArg>, gone: set<string>, elided: set<string>)
    ensures RenderCaptures(xs, gone + elided) == RenderCaptures(EraseCaptures(xs, gone), elided)
  {
    if |xs| == 0 {
    } else {
      CapturesCommute(xs[1..], gone, elided);
      assert EraseCaptures(xs, gone)[1..] == EraseCaptures(xs[1..], gone);
    }
  }

  lemma {:induction false} TypeCommutes(t: Type, gone: set<string>, elided: set<string>)
    ensures RenderType(t, gone + elided) == RenderType(EraseType(t, gone), elided)
    decreases t
  {
    match t
    case ResolvedPath(path) => PathCommutes(path, gone, elided);
    case DynTrait(traits, _) => PolysCommute(traits, gone, elided);
    case Generic(_) =>
    case Primitive(_) =>
    case FunctionPointer(_, params, inputs, _, output) =>
      ParamsCommute(params, gone, elided);
      TypesCommute(inputs, gone, elided);
      OutputCommutes(output, gone, elided);
    case Tuple(types) => TypesCommute(types, gone, elided);
    case Slice(elem) => TypeCommutes(elem, gone, elided);
    case Array(elem, _) => TypeCommutes(elem, gone, elided);
    case Pat(elem) => TypeCommutes(elem, gone, elided);
    case ImplTrait(bounds) => BoundsCommute(bounds, gone, elided);
    case Infer =>
    case RawPointer(_, elem) => TypeCommutes(elem, gone, elided);
    case BorrowedRef(_, _, elem) => TypeCommutes(elem, gone, elided);
    case QualifiedPath(_, args, selfType, trait_) =>
      ArgsCommute(args, gone, elided);
      TypeCommutes(selfType, gone, elided);
      if trait_.Some? {
        PathCommutes(trait_.value, gone, elided);
      }
  }

  lemma {:induction false} OutputCommutes(output: Option<Type>, gone: set<string>, elided: set<string>)
    ensures RenderOutput(output, gone + elided) == RenderOutput(EraseOutput(output, gone), elided)
    decreases output
  {
    if output.Some? {
      TypeCommutes(output.value, gone, elided);
    }
  }

  lemma {:induction false} PathCommutes(p: Path, gone: set<string>, elided: set<string>)
    ensures RenderPath(p, gone + elided) == RenderPath(ErasePath(p, gone), elided)
    decreases p
  {
    if p.args.Some? {
      ArgsCommute(p.args.value, gone, elided);
    }
  }

  lemma {:induction false} PolyCommutes(p: PolyTrait, gone: set<string>, elided: set<string>)
    ensures RenderPoly(p, gone + elided) == RenderPoly(ErasePoly(p, gone), elided)
    decreases p
  {
    PathCommutes(p.trait_, gone, elided);
    ParamsCommute(p.params, gone, elided);
  }

  lemma {:induction false} ArgsCommute(a: GenericArgs, gone: set<string>, elided: set<string>)
    ensures RenderArgs(a, gone + elided) == RenderArgs(EraseArgs(a, gone), elided)
    decreases a
  {
    match a
    case AngleBracketed(args, constraints) =>
      ArgListCommutes(args, gone, elided);
      ConstraintsCommute(constraints, gone, elided);
    case Parenthesized(inputs, output) =>
      TypesCommute(inputs, gone, elided);
      OutputCommutes(output, gone, elided);
    case ReturnTypeNotation =>
  }

  lemma {:induction false} ArgCommutes(a: GenericArg, gone: set<string>, elided: set<string>)
    ensures RenderArg(a, gone + elided) == RenderArg(EraseArg(a, gone), elided)
    decreases a
  {
    if a.TypeArg? {
      TypeCommutes(a.type_, gone, elided);
    }
  }

  lemma {:induction false} ConstraintCommutes(c: AssocConstraint, gone: set<string>, elided: set<string>)
    ensures RenderConstraint(c, gone + elided) == RenderConstraint(EraseConstraint(c, gone), elided)
    decreases c
  {
    ArgsCommute(c.args, gone, elided);
    BindingCommutes(c.binding, gone, elided);
  }

  lemma {:induction false} BindingCommutes(b: AssocBinding, gone: set<string>, elided: set<string>)
    ensures RenderBinding(b, gone + elided) == RenderBinding(EraseBinding(b, gone), elided)
    decreases b
  {
    match b
    case Equality(term) => TermCommutes(term, gone, elided);
    case Constraint(bounds) => BoundsCommute(bounds, gone, elided);
  }

  lemma {:induction false} TermCommutes(t: Term, gone: set<string>, elided: set<string>)
    ensures RenderTerm(t, gone + elided) == RenderTerm(EraseTerm(t, gone), elided)
    decreases t
  {
    if t.TypeTerm? {
      TypeCommutes(t.type_, gone, elided);
    }
  }

  lemma {:induction false} BoundCommutes(b: GenericBound, gone: set<string>, elided: set<string>)
    ensures (b.Outlives? && b.lifetime in gone) || RenderBound(b, gone + elided) == RenderBound(EraseBound(b, gone), elided)
    decreases b
  {
    match b
    case TraitBound(trait_, params, _) =>
      PathCommutes(trait_, gone, elided);
      ParamsCommute(params, gone, elided);
    case Outlives(_) =>
    case Captures(captures) => CapturesCommute(captures, gone, elided);
  }

  lemma {:induction false} KindCommutes(name: string, k: ParamKind, gone: set<string>, elided: set<string>)
    ensures RenderKind(name, k, gone + elided) == RenderKind(name, EraseKind(k, gone), elided)
    decreases k
  {
    match k
    case LifetimeParam(outlives) => WithoutTwice(outlives, gone, elided);
    case TypeParam(bounds, default) =>
      BoundsCommute(bounds, gone, elided);
      if default.Some? {
        TypeCommutes(default.value, gone, elided);
      }
    case ConstParam(type_, _) => TypeCommutes(type_, gone, elided);
  }

  lemma {:induction false} ParamCommutes(p: GenericParam, gone: set<string>, elided: set<string>)
    requires p.name !in gone
    ensures RenderParam(p, gone + elided) == RenderParam(EraseParam(p, gone), elided)
    decreases p
  {
    KindCommutes(p.name, p.kind, gone, elided);
  }

  lemma {:induction false} TypesCommute(xs: seq<Type>, gone: set<string>, elided: set<string>)
    ensures RenderTypes(xs, gone + elided) == RenderTypes(EraseTypes(xs, gone), elided)
    decreases xs
  {
    if |xs| == 0 {
    } else {
      TypeCommutes(xs[0], gone, elided);
      TypesCommute(xs[1..], gone, elided);
      assert EraseTypes(xs, gone)[0] == EraseType(xs[0], gone) && EraseTypes(xs, gone)[1..] == EraseTypes(xs[1..], gone);
    }
  }

  lemma {:induction false} PolysCommute(xs: seq<PolyTrait>, gone: set<string>, elided: set<string>)
    ensures RenderPolys(xs, gone + elided) == RenderPolys(ErasePolys(xs, gone), elided)
    decreases xs
  {
    if |xs| == 0 {
    } else {
      PolyCommutes(xs[0], gone, elided);
      PolysCommute(xs[1..], gone, elided);
      assert ErasePolys(xs, gone)[0] == ErasePoly(xs[0], gone) && ErasePolys(xs, gone)[1..] == ErasePolys(xs[1..], gone);
    }
  }

  lemma {:induction false} ArgListCommutes(xs: seq<GenericArg>, gone: set<string>, elided: set<string>)
    ensures RenderArgList(xs, gone + elided) == RenderArgList(EraseArgList(xs, gone), elided)
    decreases xs
  {
    if |xs| == 0 {
    } else {
      ArgCommutes(xs[0], gone, elided);
      ArgListCommutes(xs[1..], gone, elided);
      assert EraseArgList(xs, gone)[0] == EraseArg(xs[0], gone) && EraseArgList(xs, gone)[1..] == EraseArgList(xs[1..], gone);
    }
  }

  lemma {:induction false} ConstraintsCommute(xs: seq<AssocConstraint>, gone: set<string>, elided: set<string>)
    ensures RenderConstraints(xs, gone + elided) == RenderConstraints(EraseConstraints(xs, gone), elided)
    decreases xs
  {
    if |xs| == 0 {
    } else {
      ConstraintCommutes(xs[0], gone, elided);
      ConstraintsCommute(xs[1..], gone, elided);
      assert EraseConstraints(xs, gone)[0] == EraseConstraint(xs[0], gone) && EraseConstraints(xs, gone)[1..] == EraseConstraints(xs[1..], gone);
    }
  }

  lemma {:induction false} BoundsCommute(xs: seq<GenericBound>, gone: set<string>, elided: set<string>)
    ensures RenderBounds(xs, gone + elided) == RenderBounds(EraseBounds(xs, gone), elided)
    decreases xs
  {
    if |xs| == 0 {
    } else {
      BoundCommutes(xs[0], gone, elided);
      BoundsCommute(xs[1..], gone, elided);
      var erased := EraseBounds(xs, gone);
      if !(xs[0].Outlives? && xs[0].lifetime in gone) {
        assert erased[0] == EraseBound(xs[0], gone) && erased[1..] == EraseBounds(xs[1..], gone);
      }
    }
  }

  lemma {:induction false} ParamsCommute(xs: seq<GenericParam>, gone: set<string>, elided: set<string>)
    ensures RenderParams(xs, gone + elided) == RenderParams(EraseParams(xs, gone), elided)
    decreases xs
  {
    if |xs| == 0 {
    } else {
      ParamsCommute(xs[1..], gone, elided);
      var erased := EraseParams(xs, gone);
      if xs[0].name !in gone {
        ParamCommutes(xs[0], gone, elided);
        assert erased[0] == EraseParam(xs[0], gone) && erased[1..] == EraseParams(xs[1..], gone);
      }
    }
  }

  lemma PredicateCommutes(w: WherePredicate, gone: set<string>, elided: set<string>)
    ensures (w.LifetimePredicate? && w.lifetime in gone) || RenderPredicate(w, gone + elided) == RenderPredicate(ErasePredicate(w, gone), elided)
  {
    match w
    case BoundPredicate(type_, bounds, params) =>
      TypeCommutes(type_, gone, elided);
      BoundsCommute(bounds, gone, elided);
      ParamsCommute(params, gone, elided);
    case LifetimePredicate(_, outlives) => WithoutTwice(outlives, gone, elided);
    case EqPredicate(lhs, rhs) =>
      TypeCommutes(lhs, gone, elided);
      TermCommutes(rhs, gone, elided);
  }

  lemma {:induction false} PredicatesCommute(ws: seq<WherePredicate>, gone: set<string>, elided: set<string>)
    ensures RenderPredicates(ws, gone + elided) == RenderPredicates(ErasePredicates(ws, gone), elided)
  {
    if |ws| == 0 {
    } else {
      PredicateCommutes(ws[0], gone, elided);
      PredicatesCommute(ws[1..], gone, elided);
      var erased := ErasePredicates(ws, gone);
      if !(ws[0].LifetimePredicate? && ws[0].lifetime in gone) {
        assert erased[0] == ErasePredicate(ws[0], gone) && erased[1..] == ErasePredicates(ws[1..], gone);
      }
    }
  }

  // ---------- Function declarations ----------

  predicate IsDigits(s: string) {
    forall i :: 0 <= i < |s| ==> '0' <= s[i] <= '9'
  }

  /** The lifetimes that the `async_trait` macro makes up: `'async_trait` and `'life` followed by digits. */
  predicate IsSynthetic(name: string) {
    name == "'async_trait" || (|name| > 5 && name[..5] == "'life" && IsDigits(name[5..]))
  }

  function Synthetic(params: seq<GenericParam>): (names: set<string>)
    ensures forall name :: name in names <==> IsSynthetic(name) && exists i :: 0 <= i < |params| && params[i].name == name
  {
    set i | 0 <= i < |params| && IsSynthetic(params[i].name) :: params[i].name
  }

  function RenderSelf(name: string, t: Type): Option<string> {
    if name != "self" then None
    else
      match t
      case Generic(n) => if n == "Self" then Some("self") else None
      case BorrowedRef(_, isMutable, Generic(n)) => if n == "Self" then Some(if isMutable then "&mut self" else "&self") else None
      case _ => None
  }

  function RenderInput(input: (string, Type), elided: set<string>): string {
    var receiver := RenderSelf(input.0, input.1);
    if receiver.Some? then receiver.value
    else if input.0 == "" then RenderType(input.1, elided)
    else input.0 + ": " + RenderType(input.1, elided)
  }

  function RenderInputs(inputs: seq<(string, Type)>, elided: set<string>): seq<string> {
    if |inputs| == 0 then [] else [RenderInput(inputs[0], elided)] + RenderInputs(inputs[1..], elided)
  }

  function RenderWith(name: string, f: Function, isPublic: bool, elided: set<string>): string {
    (if isPublic then "pub " else "") + RenderHeader(f.header) + "fn " + name +
    Enclose("<", RenderParams(f.params, elided), ", ", ">") +
    "(" + Join(RenderInputs(f.inputs, elided), ", ") + Variadic(f.isVariadic, |f.inputs| > 0) + ")" +
    RenderOutput(f.output, elided) + RenderWhere(f.predicates, elided) + ";"
  }

  /** `render_function_declaration`: the elided lifetimes are the synthetic ones among its own parameters. */
  function RenderFunction(name: string, f: Function, isPublic: bool): string {
    RenderWith(name, f, isPublic, Synthetic(f.params))
  }

  function EraseInputs(inputs: seq<(string, Type)>, gone: set<string>): (erased: seq<(string, Type)>)
    ensures |erased| == |inputs|
  {
    if |inputs| == 0 then [] else [(inputs[0].0, EraseType(inputs[0].1, gone))] + EraseInputs(inputs[1..], gone)
  }

  function EraseFunction(f: Function, gone: set<string>): Function {
    Function(f.header, EraseParams(f.params, gone), ErasePredicates(f.predicates, gone), EraseInputs(f.inputs, gone), f.isVariadic, EraseOutput(f.output, gone))
  }

  /** Receivers print the same with and without a lifetime. */
  lemma SelfCommutes(name: string, t: Type, gone: set<string>)
    ensures RenderSelf(name, t) == RenderSelf(name, EraseType(t, gone))
  {
    if t.BorrowedRef? && t.elem.Generic? {
      assert EraseType(t.elem, gone) == t.elem;
    }
  }

  lemma {:induction false} InputsCommute(xs: seq<(string, Type)>, gone: set<string>, elided: set<string>)
    ensures RenderInputs(xs, gone + elided) == RenderInputs(EraseInputs(xs, gone), elided)
  {
    if |xs| == 0 {
    } else {
      SelfCommutes(xs[0].0, xs[0].1, gone);
      TypeCommutes(xs[0].1, gone, elided);
      InputsCommute(xs[1..], gone, elided);
      assert EraseInputs(xs, gone)[1..] == EraseInputs(xs[1..], gone);
    }
  }

  lemma DeclarationCommutes(name: string, f: Function, isPublic: bool, gone: set<string>, elided: set<string>)
    ensures RenderWith(name, f, isPublic, gone + elided) == RenderWith(name, EraseFunction(f, gone), isPublic, elided)
  {
    ParamsCommute(f.params, gone, elided);
    InputsCommute(f.inputs, gone, elided);
    OutputCommutes(f.output, gone, elided);
    PredicatesCommute(f.predicates, gone, elided);
  }

  lemma {:induction false} ErasedParamNames(ps: seq<GenericParam>, gone: set<string>, i: nat)
    requires i < |EraseParams(ps, gone)|
    ensures var name := EraseParams(ps, gone)[i].name; name !in gone && exists j :: 0 <= j < |ps| && ps[j].name == name
  {
    if ps[0].name in gone {
      ErasedParamNames(ps[1..], gone, i);
      var j :| 0 <= j < |ps[1..]| && ps[1..][j].name == EraseParams(ps, gone)[i].name;
      assert ps[j + 1].name == EraseParams(ps, gone)[i].name;
    } else if i > 0 {
      ErasedParamNames(ps[1..], gone, i - 1);
      var j :| 0 <= j < |ps[1..]| && ps[1..][j].name == EraseParams(ps, gone)[i].name;
      assert ps[j + 1].name == EraseParams(ps, gone)[i].name;
    }
  }

  /** A desugared `async_trait` method prints as the plain method left after its synthetic lifetimes are erased. */
  lemma AsyncTraitPrintsErased(name: string, f: Function, isPublic: bool)
    ensures var g := EraseFunction(f, Synthetic(f.params));
            && Synthetic(g.params) == {}
            && RenderFunction(name, f, isPublic) == RenderFunction(name, g, isPublic) == RenderWith(name, g, isPublic, {})
  {
    var gone := Synthetic(f.params);
    var g := EraseFunction(f, gone);
    forall i | 0 <= i < |g.params|
      ensures !IsSynthetic(g.params[i].name)
    {
      ErasedParamNames(f.params, gone, i);
    }
    assert gone + {} == gone;
    DeclarationCommutes(name, f, isPublic, gone, {});
  }
}
