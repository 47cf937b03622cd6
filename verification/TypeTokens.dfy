/**
  Types and function signatures as tokens: how each form of Rust's type grammar is written.

  Trees that print alike are one plain tree (`Plain*`): a type parameter and a primitive are paths without arguments,
  a pattern type is the type it restricts. `Legible*` says which plain trees the grammar has a text for: names are
  names, lists that may not be empty are not, and what stands where the grammar allows no `+` has at most one
  bound. `Write*` puts the tokens of a tree in front of the tokens that follow.
  */
module TypeTokens {
  import opened Basics
  import opened TypeSyntax

  // ---------- Tokens and text ----------

  datatype Token =
    | Word(text: string)
    | RefLifetime(lifetime: string)
    | Extern(quoted: string)
    | Const | Async | Unsafe | Mut | Dyn | Impl | Fn | FnItem | Pub | SelfWord | Underscore
    | Amp | Star | Question | Lt | Gt | GtSpace | GtPath | ForLt | UseLt
    | LParen | RParen | LBracket | RBracket | SemiSpace | Semicolon
    | Comma | Plus | Colon | Equals | Arrow | As | Where | Dots | CommaDots | Notation

  datatype Tokens = Nil | Cons(head: Token, tail: Tokens)

  function Spelling(token: Token): string {
    match token
    case Word(text) => text
    case RefLifetime(lifetime) => lifetime + " "
    case Extern(quoted) => "extern " + quoted + " "
    case Const => "const "
    case Async => "async "
    case Unsafe => "unsafe "
    case Mut => "mut "
    case Dyn => "dyn "
    case Impl => "impl "
    case Fn => "fn"
    case FnItem => "fn "
    case Pub => "pub "
    case SelfWord => "self"
    case Underscore => "_"
    case Amp => "&"
    case Star => "*"
    case Question => "?"
    case Lt => "<"
    case Gt => ">"
    case GtSpace => "> "
    case GtPath => ">::"
    case ForLt => "for<"
    case UseLt => "use<"
    case LParen => "("
    case RParen => ")"
    case LBracket => "["
    case RBracket => "]"
    case SemiSpace => "; "
    case Semicolon => ";"
    case Comma => ", "
    case Plus => " + "
    case Colon => ": "
    case Equals => " = "
    case Arrow => " -> "
    case As => " as "
    case Where => " where "
    case Dots => "..."
    case CommaDots => ", ..."
    case Notation => "(..)"
  }

  function Text(tokens: Tokens): string {
    match tokens
    case Nil => ""
    case Cons(head, tail) => Spelling(head) + Text(tail)
  }

  // ---------- Words ----------

  datatype WordClass = NameWord | LifetimeWord | ExprWord | OtherWord

  predicate IsDigit(c: char) {
    '0' <= c <= '9'
  }

  /** Letters, digits and what else occurs in a path or a raw identifier. */
  predicate IsNameChar(c: char) {
    'a' <= c <= 'z' || 'A' <= c <= 'Z' || IsDigit(c) || c == '_' || c == ':' || c == '#' || c == '$' || c as int >= 0x80
  }

  predicate AllNameChars(s: string) {
    forall i :: 0 <= i < |s| ==> IsNameChar(s[i])
  }

  const RESERVED: set<string> :=
    {"_", "self", "as", "async", "const", "dyn", "extern", "false", "fn", "for", "impl", "mut", "pub", "true", "unsafe", "use", "where"}

  /** What a word can be: a path, a lifetime, or an expression that is a literal, negated or in braces. */
  function ClassOf(word: string): WordClass {
    if |word| == 0 then OtherWord
    else if word[0] == '\'' && |word| > 1 && AllNameChars(word[1..]) then LifetimeWord
    else if AllNameChars(word) && !IsDigit(word[0]) && word !in RESERVED then NameWord
    else if IsDigit(word[0]) || word[0] in "-{\"'" || word == "true" || word == "false" then ExprWord
    else OtherWord
  }

  predicate IsName(word: string) {
    ClassOf(word) == NameWord
  }

  predicate IsLifetime(word: string) {
    ClassOf(word) == LifetimeWord
  }

  predicate IsExpr(word: string) {
    ClassOf(word) == ExprWord
  }

  // ---------- Calling conventions ----------

  function QuotedAbi(abi: Abi): string {
    match abi
    case Rust => ""
    case Named(name, unwind) => "\"" + name + (if unwind then "-unwind\"" else "\"")
    case OtherAbi(quoted) => quoted
  }

  predicate EndsIn(s: string, end: string) {
    |end| <= |s| && s[|s| - |end|..] == end
  }

  /** The calling convention that a quoted string names. */
  function AbiOf(quoted: string): Abi {
    if |quoted| < 2 || quoted[0] != '"' || quoted[|quoted| - 1] != '"' then OtherAbi(quoted)
    else
      var name := quoted[1..|quoted| - 1];
      if EndsIn(name, "-unwind") then Named(name[..|name| - 7], true) else Named(name, false)
  }

  lemma QuotedOfAbi(quoted: string)
    ensures QuotedAbi(AbiOf(quoted)) == quoted
  {
    if |quoted| >= 2 && quoted[0] == '"' && quoted[|quoted| - 1] == '"' {
      var name := quoted[1..|quoted| - 1];
      assert quoted == "\"" + name + "\"";
      if EndsIn(name, "-unwind") {
        assert name == name[..|name| - 7] + "-unwind";
        assert "-unwind" + "\"" == "-unwind\"";
      }
    }
  }

  /** A name that does not itself end in "-unwind" is kept. */
  lemma NamedAbiKept(name: string, unwind: bool)
    requires !EndsIn(name, "-unwind")
    ensures AbiOf(QuotedAbi(Named(name, unwind))) == Named(name, unwind)
  {
    var inner := name + (if unwind then "-unwind" else "");
    var quoted := QuotedAbi(Named(name, unwind));
    assert "-unwind\"" == "-unwind" + "\"";
    assert quoted == "\"" + inner + "\"";
    assert quoted[1..|quoted| - 1] == inner;
  }

  // ---------- Plain trees ----------

  function PlainHeader(header: FunctionHeader): FunctionHeader {
    if header.abi.Rust? then header else header.(abi := AbiOf(QuotedAbi(header.abi)))
  }

  /** A name alone. */
  function NamePath(name: string): Type {
    ResolvedPath(Path(name, None))
  }

  predicate PrintsNothing(a: GenericArgs) {
    a.AngleBracketed? && a.args == [] && a.constraints == []
  }

  function PlainType(t: Type): Type
    decreases t
  {
    match t
    case ResolvedPath(path) => ResolvedPath(PlainPath(path))
    case DynTrait(traits, bound) => DynTrait(PlainPolys(traits), bound)
    case Generic(name) => NamePath(name)
    case Primitive(name) => NamePath(name)
    case FunctionPointer(header, params, inputs, isVariadic, output) =>
      FunctionPointer(PlainHeader(header), PlainParams(params), PlainTypes(inputs), isVariadic, PlainOutput(output))
    case Tuple(types) => Tuple(PlainTypes(types))
    case Slice(elem) => Slice(PlainType(elem))
    case Array(elem, len) => Array(PlainType(elem), len)
    case Pat(elem) => PlainType(elem)
    case ImplTrait(bounds) => ImplTrait(PlainBounds(bounds))
    case Infer => Infer
    case RawPointer(isMutable, elem) => RawPointer(isMutable, PlainType(elem))
    case BorrowedRef(lifetime, isMutable, elem) => BorrowedRef(lifetime, isMutable, PlainType(elem))
    case QualifiedPath(name, args, selfType, trait_) =>
      QualifiedPath(name, PlainArgs(args), PlainType(selfType), if trait_.Some? then Some(PlainPath(trait_.value)) else None)
  }

  function PlainTypes(ts: seq<Type>): (plain: seq<Type>)
    ensures |plain| == |ts|
    decreases ts
  {
    if |ts| == 0 then [] else [PlainType(ts[0])] + PlainTypes(ts[1..])
  }

  function PlainOutput(output: Option<Type>): Option<Type>
    decreases output
  {
    if output.Some? then Some(PlainType(output.value)) else None
  }

  function PlainPath(p: Path): Path
    decreases p
  {
    Path(p.path, if p.args.Some? && !PrintsNothing(p.args.value) then Some(PlainArgs(p.args.value)) else None)
  }

  function PlainPoly(p: PolyTrait): PolyTrait
    decreases p
  {
    PolyTrait(PlainPath(p.trait_), PlainParams(p.params))
  }

  function PlainPolys(ps: seq<PolyTrait>): (plain: seq<PolyTrait>)
    ensures |plain| == |ps|
    decreases ps
  {
    if |ps| == 0 then [] else [PlainPoly(ps[0])] + PlainPolys(ps[1..])
  }

  function PlainArgs(a: GenericArgs): GenericArgs
    decreases a
  {
    match a
    case AngleBracketed(args, constraints) => AngleBracketed(PlainArgList(args), PlainConstraints(constraints))
    case Parenthesized(inputs, output) => Parenthesized(PlainTypes(inputs), PlainOutput(output))
    case ReturnTypeNotation => ReturnTypeNotation
  }

  /** A constant that is only a name prints like the type of that name, and an inferred argument like the inferred type. */
  function PlainArg(a: GenericArg): GenericArg
    decreases a
  {
    match a
    case LifetimeArg(lifetime) => a
    case TypeArg(t) => TypeArg(PlainType(t))
    case ConstArg(expr) => if IsName(expr) then TypeArg(NamePath(expr)) else a
    case InferArg => TypeArg(Infer)
  }

  function PlainArgList(args: seq<GenericArg>): (plain: seq<GenericArg>)
    ensures |plain| == |args|
    decreases args
  {
    if |args| == 0 then [] else [PlainArg(args[0])] + PlainArgList(args[1..])
  }

  function PlainConstraint(c: AssocConstraint): AssocConstraint
    decreases c
  {
    AssocConstraint(c.name, PlainArgs(c.args), PlainBinding(c.binding))
  }

  function PlainBinding(b: AssocBinding): AssocBinding
    decreases b
  {
    match b
    case Equality(term) => Equality(PlainTerm(term))
    case Constraint(bounds) => Constraint(PlainBounds(bounds))
  }

  function PlainConstraints(cs: seq<AssocConstraint>): (plain: seq<AssocConstraint>)
    ensures |plain| == |cs|
    decreases cs
  {
    if |cs| == 0 then [] else [PlainConstraint(cs[0])] + PlainConstraints(cs[1..])
  }

  function PlainTerm(t: Term): Term
    decreases t
  {
    match t
    case TypeTerm(type_) => TypeTerm(PlainType(type_))
    case ConstTerm(expr) => if IsName(expr) then TypeTerm(NamePath(expr)) else t
  }

  function PlainBound(b: GenericBound): GenericBound
    decreases b
  {
    match b
    case TraitBound(trait_, params, modifier) => TraitBound(PlainPath(trait_), PlainParams(params), modifier)
    case Outlives(_) => b
    case Captures(_) => b
  }

  function PlainBounds(bs: seq<GenericBound>): (plain: seq<GenericBound>)
    ensures |plain| == |bs|
    decreases bs
  {
    if |bs| == 0 then [] else [PlainBound(bs[0])] + PlainBounds(bs[1..])
  }

  function PlainParam(p: GenericParam): GenericParam
    decreases p
  {
    GenericParam(p.name, PlainKind(p.kind))
  }

  function PlainKind(k: ParamKind): ParamKind
    decreases k
  {
    match k
    case LifetimeParam(_) => k
    case TypeParam(bounds, default) => TypeParam(PlainBounds(bounds), PlainOutput(default))
    case ConstParam(type_, default) => ConstParam(PlainType(type_), default)
  }

  function PlainParams(ps: seq<GenericParam>): (plain: seq<GenericParam>)
    ensures |plain| == |ps|
    decreases ps
  {
    if |ps| == 0 then [] else [PlainParam(ps[0])] + PlainParams(ps[1..])
  }

  /** A predicate without bounds says nothing and is not printed. */
  predicate SaysNothing(w: WherePredicate) {
    match w
    case BoundPredicate(_, bounds, _) => bounds == []
    case LifetimePredicate(_, outlives) => outlives == []
    case EqPredicate(_, _) => false
  }

  function PlainPredicate(w: WherePredicate): WherePredicate {
    match w
    case BoundPredicate(type_, bounds, params) => BoundPredicate(PlainType(type_), PlainBounds(bounds), PlainParams(params))
    case LifetimePredicate(_, _) => w
    case EqPredicate(lhs, rhs) => EqPredicate(PlainType(lhs), PlainTerm(rhs))
  }

  function PlainPredicates(ws: seq<WherePredicate>): seq<WherePredicate> {
    if |ws| == 0 then []
    else if SaysNothing(ws[0]) then PlainPredicates(ws[1..])
    else [PlainPredicate(ws[0])] + PlainPredicates(ws[1..])
  }

  // ---------- Legible trees ----------

  predicate LegibleHeader(header: FunctionHeader) {
    header.abi.Rust? || AbiOf(QuotedAbi(header.abi)) == header.abi
  }

  predicate AreLifetimes(words: seq<string>) {
    forall i :: 0 <= i < |words| ==> IsLifetime(words[i])
  }

  /** `many`: whether a list of bounds may stand here. */
  predicate LegibleType(t: Type, many: bool)
    decreases t
  {
    match t
    case ResolvedPath(path) => LegiblePath(path)
    case DynTrait(traits, bound) =>
      && |traits| > 0 && LegiblePolys(traits) && (bound.Some? ==> IsLifetime(bound.value))
      && (many || (|traits| == 1 && bound.None?))
    case FunctionPointer(header, params, inputs, _, output) =>
      LegibleHeader(header) && LegibleParams(params) && LegibleTypes(inputs) && LegibleOutput(output, false)
    case Tuple(types) => LegibleTypes(types)
    case Slice(elem) => LegibleType(elem, true)
    case Array(elem, _) => LegibleType(elem, true)
    case ImplTrait(bounds) => |bounds| > 0 && LegibleBounds(bounds) && (many || |bounds| == 1)
    case Infer => true
    case RawPointer(_, elem) => LegibleType(elem, false)
    case BorrowedRef(lifetime, _, elem) => (lifetime.Some? ==> IsLifetime(lifetime.value)) && LegibleType(elem, false)
    case QualifiedPath(name, args, selfType, trait_) =>
      IsName(name) && LegibleArgs(args) && LegibleType(selfType, true) && (trait_.Some? ==> LegiblePath(trait_.value))
    case _ => false
  }

  predicate LegibleTypes(ts: seq<Type>)
    decreases ts
  {
    |ts| == 0 || (LegibleType(ts[0], true) && LegibleTypes(ts[1..]))
  }

  predicate LegibleOutput(output: Option<Type>, many: bool)
    decreases output
  {
    output.Some? ==> LegibleType(output.value, many)
  }

  predicate LegiblePath(p: Path)
    decreases p
  {
    IsName(p.path) && (p.args.Some? ==> !PrintsNothing(p.args.value) && LegibleArgs(p.args.value))
  }

  predicate LegiblePoly(p: PolyTrait)
    decreases p
  {
    LegiblePath(p.trait_) && LegibleParams(p.params)
  }

  predicate LegiblePolys(ps: seq<PolyTrait>)
    decreases ps
  {
    |ps| == 0 || (LegiblePoly(ps[0]) && LegiblePolys(ps[1..]))
  }

  predicate LegibleArgs(a: GenericArgs)
    decreases a
  {
    match a
    case AngleBracketed(args, constraints) => LegibleArgList(args) && LegibleConstraints(constraints)
    case Parenthesized(inputs, output) => LegibleTypes(inputs) && LegibleOutput(output, false)
    case ReturnTypeNotation => true
  }

  predicate LegibleArg(a: GenericArg)
    decreases a
  {
    match a
    case LifetimeArg(lifetime) => IsLifetime(lifetime)
    case TypeArg(t) => LegibleType(t, true)
    case ConstArg(expr) => IsExpr(expr)
    case InferArg => false
  }

  predicate LegibleArgList(args: seq<GenericArg>)
    decreases args
  {
    |args| == 0 || (LegibleArg(args[0]) && LegibleArgList(args[1..]))
  }

  predicate LegibleConstraint(c: AssocConstraint)
    decreases c
  {
    IsName(c.name) && LegibleArgs(c.args) && LegibleBinding(c.binding)
  }

  predicate LegibleBinding(b: AssocBinding)
    decreases b
  {
    match b
    case Equality(term) => LegibleTerm(term)
    case Constraint(bounds) => |bounds| > 0 && LegibleBounds(bounds)
  }

  predicate LegibleConstraints(cs: seq<AssocConstraint>)
    decreases cs
  {
    |cs| == 0 || (LegibleConstraint(cs[0]) && LegibleConstraints(cs[1..]))
  }

  predicate LegibleTerm(t: Term)
    decreases t
  {
    match t
    case TypeTerm(type_) => LegibleType(type_, true)
    case ConstTerm(expr) => IsExpr(expr)
  }

  predicate LegibleCaptures(captures: seq<CaptureArg>) {
    forall i :: 0 <= i < |captures| ==>
                  match captures[i]
                  case CaptureLifetime(lifetime) => IsLifetime(lifetime)
                  case CaptureParam(name) => IsName(name)
  }

  predicate LegibleBound(b: GenericBound)
    decreases b
  {
    match b
    case TraitBound(trait_, params, _) => LegiblePath(trait_) && LegibleParams(params)
    case Outlives(lifetime) => IsLifetime(lifetime)
    case Captures(captures) => LegibleCaptures(captures)
  }

  predicate LegibleBounds(bs: seq<GenericBound>)
    decreases bs
  {
    |bs| == 0 || (LegibleBound(bs[0]) && LegibleBounds(bs[1..]))
  }

  predicate LegibleParam(p: GenericParam)
    decreases p
  {
    LegibleKind(p.name, p.kind)
  }

  predicate LegibleKind(name: string, k: ParamKind)
    decreases k
  {
    match k
    case LifetimeParam(outlives) => IsLifetime(name) && AreLifetimes(outlives)
    case TypeParam(bounds, default) => IsName(name) && LegibleBounds(bounds) && LegibleOutput(default, true)
    case ConstParam(type_, _) => IsName(name) && LegibleType(type_, true)
  }

  predicate LegibleParams(ps: seq<GenericParam>)
    decreases ps
  {
    |ps| == 0 || (LegibleParam(ps[0]) && LegibleParams(ps[1..]))
  }

  predicate LegiblePredicate(w: WherePredicate) {
    match w
    case BoundPredicate(type_, bounds, params) => LegibleType(type_, true) && |bounds| > 0 && LegibleBounds(bounds) && LegibleParams(params)
    case LifetimePredicate(lifetime, outlives) => IsLifetime(lifetime) && |outlives| > 0 && AreLifetimes(outlives)
    case EqPredicate(lhs, rhs) => LegibleType(lhs, true) && LegibleTerm(rhs)
  }

  predicate LegiblePredicates(ws: seq<WherePredicate>) {
    |ws| == 0 || (LegiblePredicate(ws[0]) && LegiblePredicates(ws[1..]))
  }

  lemma LegibleIs(t: Type, many: bool)
    ensures t.ResolvedPath? ==> (LegibleType(t, many) <==> LegiblePath(t.path))
    ensures t.DynTrait? ==>
              (LegibleType(t, many) <==> && |t.traits| > 0 && LegiblePolys(t.traits) && (t.bound.Some? ==> IsLifetime(t.bound.value))
                                         && (many || (|t.traits| == 1 && t.bound.None?)))
    ensures t.FunctionPointer? ==>
              (LegibleType(t, many) <==> LegibleHeader(t.header) && LegibleParams(t.params) && LegibleTypes(t.inputs) && LegibleOutput(t.output, false))
    ensures t.Tuple? ==> (LegibleType(t, many) <==> LegibleTypes(t.types))
    ensures t.ImplTrait? ==> (LegibleType(t, many) <==> |t.bounds| > 0 && LegibleBounds(t.bounds) && (many || |t.bounds| == 1))
    ensures t.Infer? ==> LegibleType(t, many)
    ensures t.Slice? || t.Array? ==> (LegibleType(t, many) <==> LegibleType(t.elem, true))
    ensures t.RawPointer? ==> (LegibleType(t, many) <==> LegibleType(t.elem, false))
    ensures t.BorrowedRef? ==> (LegibleType(t, many) <==> (t.lifetime.Some? ==> IsLifetime(t.lifetime.value)) && LegibleType(t.elem, false))
    ensures t.QualifiedPath? ==>
              (LegibleType(t, many) <==> IsName(t.name) && LegibleArgs(t.args) && LegibleType(t.selfType, true) && (t.trait_.Some? ==> LegiblePath(t.trait_.value)))
    ensures t.Generic? || t.Primitive? || t.Pat? ==> !LegibleType(t, many)
    ensures LegibleType(t, false) ==> LegibleType(t, many)
  {
  }

  lemma LegibleItem(name: string, args: GenericArgs, selfType: Type, trait_: Option<Path>)
    ensures LegibleType(QualifiedPath(name, args, selfType, trait_), false) <==>
            IsName(name) && LegibleArgs(args) && LegibleType(selfType, true) && (trait_.Some? ==> LegiblePath(trait_.value))
  {
  }

  lemma LegibleOne(p: PolyTrait, b: GenericBound, t: Type)
    ensures LegiblePolys([p]) <==> LegiblePoly(p)
    ensures LegibleBounds([b]) <==> LegibleBound(b)
    ensures LegibleTypes([t]) <==> LegibleType(t, true)
  {
    assert [p][1..] == [] && [b][1..] == [] && [t][1..] == [];
  }

  lemma NoArgsLegible()
    ensures LegibleArgs(AngleBracketed([], []))
  {
  }

  // ---------- Writing ----------

  function WriteHeader(header: FunctionHeader, rest: Tokens): Tokens {
    var abi := if header.abi.Rust? then rest else Cons(Extern(QuotedAbi(header.abi)), rest);
    var unsafe_ := if header.isUnsafe then Cons(Unsafe, abi) else abi;
    var async_ := if header.isAsync then Cons(Async, unsafe_) else unsafe_;
    if header.isConst then Cons(Const, async_) else async_
  }

  function WriteVariadic(isVariadic: bool, anyInputs: bool, rest: Tokens): Tokens {
    if !isVariadic then rest else if anyInputs then Cons(CommaDots, rest) else Cons(Dots, rest)
  }

  function WriteType(t: Type, rest: Tokens): Tokens
    decreases t
  {
    match t
    case ResolvedPath(path) => WritePath(path, rest)
    case DynTrait(traits, bound) =>
      Cons(Dyn, WritePolys(traits, if bound.Some? then Cons(Plus, Cons(Word(bound.value), rest)) else rest))
    case FunctionPointer(header, params, inputs, isVariadic, output) =>
      var signature := Cons(LParen, WriteTypes(inputs, WriteVariadic(isVariadic, |inputs| > 0, Cons(RParen, WriteOutput(output, rest)))));
      WriteHeader(header, Cons(Fn, if |params| == 0 then signature else Cons(Lt, WriteParams(params, Cons(Gt, signature)))))
    case Tuple(types) => Cons(LParen, WriteTypes(types, Cons(RParen, rest)))
    case Slice(elem) => Cons(LBracket, WriteType(elem, Cons(RBracket, rest)))
    case Array(elem, len) => Cons(LBracket, WriteType(elem, Cons(SemiSpace, Cons(Word(len), Cons(RBracket, rest)))))
    case ImplTrait(bounds) => Cons(Impl, WriteBounds(bounds, rest))
    case Infer => Cons(Underscore, rest)
    case RawPointer(isMutable, elem) => Cons(Star, Cons(if isMutable then Mut else Const, WriteType(elem, rest)))
    case BorrowedRef(lifetime, isMutable, elem) =>
      var target := if isMutable then Cons(Mut, WriteType(elem, rest)) else WriteType(elem, rest);
      Cons(Amp, if lifetime.Some? then Cons(RefLifetime(lifetime.value), target) else target)
    case QualifiedPath(name, args, selfType, trait_) =>
      var item := Cons(GtPath, Cons(Word(name), WriteArgs(args, rest)));
      Cons(Lt, WriteType(selfType, if trait_.Some? then Cons(As, WritePath(trait_.value, item)) else item))
    case _ => rest
  }

  function WriteTypes(ts: seq<Type>, rest: Tokens): Tokens
    decreases ts
  {
    if |ts| == 0 then rest
    else WriteType(ts[0], if |ts| == 1 then rest else Cons(Comma, WriteTypes(ts[1..], rest)))
  }

  function WriteOutput(output: Option<Type>, rest: Tokens): Tokens
    decreases output
  {
    if output.Some? then Cons(Arrow, WriteType(output.value, rest)) else rest
  }

  function WritePath(p: Path, rest: Tokens): Tokens
    decreases p
  {
    Cons(Word(p.path), if p.args.Some? then WriteArgs(p.args.value, rest) else rest)
  }

  function WriteForAll(params: seq<GenericParam>, rest: Tokens): Tokens
    decreases params
  {
    if |params| == 0 then rest else Cons(ForLt, WriteParams(params, Cons(GtSpace, rest)))
  }

  function WritePoly(p: PolyTrait, rest: Tokens): Tokens
    decreases p
  {
    WriteForAll(p.params, WritePath(p.trait_, rest))
  }

  function WritePolys(ps: seq<PolyTrait>, rest: Tokens): Tokens
    decreases ps
  {
    if |ps| == 0 then rest
    else WritePoly(ps[0], if |ps| == 1 then rest else Cons(Plus, WritePolys(ps[1..], rest)))
  }

  function WriteArgs(a: GenericArgs, rest: Tokens): Tokens
    decreases a
  {
    match a
    case AngleBracketed(args, constraints) =>
      var close := Cons(Gt, rest);
      if |args| == 0 && |constraints| == 0 then rest
      else if |args| == 0 then Cons(Lt, WriteConstraints(constraints, close))
      else if |constraints| == 0 then Cons(Lt, WriteArgList(args, close))
      else Cons(Lt, WriteArgList(args, Cons(Comma, WriteConstraints(constraints, close))))
    case Parenthesized(inputs, output) => Cons(LParen, WriteTypes(inputs, Cons(RParen, WriteOutput(output, rest))))
    case ReturnTypeNotation => Cons(Notation, rest)
  }

  function WriteArg(a: GenericArg, rest: Tokens): Tokens
    decreases a
  {
    match a
    case LifetimeArg(lifetime) => Cons(Word(lifetime), rest)
    case TypeArg(t) => WriteType(t, rest)
    case ConstArg(expr) => Cons(Word(expr), rest)
    case InferArg => Cons(Underscore, rest)
  }

  function WriteArgList(args: seq<GenericArg>, rest: Tokens): Tokens
    decreases args
  {
    if |args| == 0 then rest
    else WriteArg(args[0], if |args| == 1 then rest else Cons(Comma, WriteArgList(args[1..], rest)))
  }

  function WriteConstraint(c: AssocConstraint, rest: Tokens): Tokens
    decreases c
  {
    Cons(Word(c.name), WriteArgs(c.args, WriteBinding(c.binding, rest)))
  }

  function WriteBinding(b: AssocBinding, rest: Tokens): Tokens
    decreases b
  {
    match b
    case Equality(term) => Cons(Equals, WriteTerm(term, rest))
    case Constraint(bounds) => Cons(Colon, WriteBounds(bounds, rest))
  }

  function WriteConstraints(cs: seq<AssocConstraint>, rest: Tokens): Tokens
    decreases cs
  {
    if |cs| == 0 then rest
    else WriteConstraint(cs[0], if |cs| == 1 then rest else Cons(Comma, WriteConstraints(cs[1..], rest)))
  }

  function WriteTerm(t: Term, rest: Tokens): Tokens
    decreases t
  {
    match t
    case TypeTerm(type_) => WriteType(type_, rest)
    case ConstTerm(expr) => Cons(Word(expr), rest)
  }

  function WriteModifier(m: Modifier, rest: Tokens): Tokens {
    match m
    case NoModifier => rest
    case Maybe => Cons(Question, rest)
    case MaybeConst => Cons(Const, rest)
  }

  function CaptureText(c: CaptureArg): string {
    match c
    case CaptureLifetime(lifetime) => lifetime
    case CaptureParam(name) => name
  }

  function WriteCaptures(captures: seq<CaptureArg>, rest: Tokens): Tokens {
    if |captures| == 0 then rest
    else Cons(Word(CaptureText(captures[0])), if |captures| == 1 then rest else Cons(Comma, WriteCaptures(captures[1..], rest)))
  }

  function WriteLifetimes(lifetimes: seq<string>, rest: Tokens): Tokens {
    if |lifetimes| == 0 then rest
    else Cons(Word(lifetimes[0]), if |lifetimes| == 1 then rest else Cons(Plus, WriteLifetimes(lifetimes[1..], rest)))
  }

  function WriteBound(b: GenericBound, rest: Tokens): Tokens
    decreases b
  {
    match b
    case TraitBound(trait_, params, modifier) => WriteForAll(params, WriteModifier(modifier, WritePath(trait_, rest)))
    case Outlives(lifetime) => Cons(Word(lifetime), rest)
    case Captures(captures) => Cons(UseLt, WriteCaptures(captures, Cons(Gt, rest)))
  }

  function WriteBounds(bs: seq<GenericBound>, rest: Tokens): Tokens
    decreases bs
  {
    if |bs| == 0 then rest
    else WriteBound(bs[0], if |bs| == 1 then rest else Cons(Plus, WriteBounds(bs[1..], rest)))
  }

  function WriteParam(p: GenericParam, rest: Tokens): Tokens
    decreases p
  {
    WriteKind(p.name, p.kind, rest)
  }

  function WriteKind(name: string, k: ParamKind, rest: Tokens): Tokens
    decreases k
  {
    match k
    case LifetimeParam(outlives) => Cons(Word(name), if |outlives| == 0 then rest else Cons(Colon, WriteLifetimes(outlives, rest)))
    case TypeParam(bounds, default) =>
      var end := if default.Some? then Cons(Equals, WriteType(default.value, rest)) else rest;
      Cons(Word(name), if |bounds| == 0 then end else Cons(Colon, WriteBounds(bounds, end)))
    case ConstParam(type_, default) =>
      Cons(Const, Cons(Word(name), Cons(Colon, WriteType(type_, if default.Some? then Cons(Equals, Cons(Word(default.value), rest)) else rest))))
  }

  function WriteParams(ps: seq<GenericParam>, rest: Tokens): Tokens
    decreases ps, 0
  {
    if |ps| == 0 then rest
    else WriteParam(ps[0], if |ps| == 1 then rest else Cons(Comma, WriteParams(ps[1..], rest)))
  }

  function WritePredicate(w: WherePredicate, rest: Tokens): Tokens {
    match w
    case BoundPredicate(type_, bounds, params) => WriteForAll(params, WriteType(type_, Cons(Colon, WriteBounds(bounds, rest))))
    case LifetimePredicate(lifetime, outlives) => Cons(Word(lifetime), Cons(Colon, WriteLifetimes(outlives, rest)))
    case EqPredicate(lhs, rhs) => WriteType(lhs, Cons(Equals, WriteTerm(rhs, rest)))
  }

  function WritePredicates(ws: seq<WherePredicate>, rest: Tokens): Tokens {
    if |ws| == 0 then rest
    else WritePredicate(ws[0], if |ws| == 1 then rest else Cons(Comma, WritePredicates(ws[1..], rest)))
  }

  /** The tokens of a type, one level deep. */
  lemma Writes(t: Type, rest: Tokens)
    ensures t.ResolvedPath? ==> WriteType(t, rest) == WritePath(t.path, rest)
    ensures t.DynTrait? ==>
              WriteType(t, rest) == Cons(Dyn, WritePolys(t.traits, if t.bound.Some? then Cons(Plus, Cons(Word(t.bound.value), rest)) else rest))
    ensures t.Tuple? ==> WriteType(t, rest) == Cons(LParen, WriteTypes(t.types, Cons(RParen, rest)))
    ensures t.Slice? ==> WriteType(t, rest) == Cons(LBracket, WriteType(t.elem, Cons(RBracket, rest)))
    ensures t.Array? ==> WriteType(t, rest) == Cons(LBracket, WriteType(t.elem, Cons(SemiSpace, Cons(Word(t.len), Cons(RBracket, rest)))))
    ensures t.ImplTrait? ==> WriteType(t, rest) == Cons(Impl, WriteBounds(t.bounds, rest))
    ensures t.Infer? ==> WriteType(t, rest) == Cons(Underscore, rest)
    ensures t.RawPointer? ==> WriteType(t, rest) == Cons(Star, Cons(if t.isMutable then Mut else Const, WriteType(t.elem, rest)))
    ensures t.BorrowedRef? ==>
              var target := if t.isMutable then Cons(Mut, WriteType(t.elem, rest)) else WriteType(t.elem, rest);
              WriteType(t, rest) == Cons(Amp, if t.lifetime.Some? then Cons(RefLifetime(t.lifetime.value), target) else target)
  {
  }

  function WriteGenerics(params: seq<GenericParam>, rest: Tokens): Tokens {
    if |params| == 0 then rest else Cons(Lt, WriteParams(params, Cons(Gt, rest)))
  }

  lemma FunctionPointerWrites(t: Type, rest: Tokens)
    requires t.FunctionPointer?
    ensures WriteType(t, rest) ==
            WriteHeader(t.header, Cons(Fn, WriteGenerics(t.params, Cons(LParen, WriteTypes(t.inputs, WriteVariadic(t.isVariadic, |t.inputs| > 0, Cons(RParen, WriteOutput(t.output, rest))))))))
  {
    hide WriteHeader, WriteParams, WriteTypes, WriteVariadic, WriteOutput;
  }

  lemma QualifiedWrites(t: Type, rest: Tokens)
    requires t.QualifiedPath?
    ensures var item := Cons(GtPath, Cons(Word(t.name), WriteArgs(t.args, rest)));
            WriteType(t, rest) == Cons(Lt, WriteType(t.selfType, if t.trait_.Some? then Cons(As, WritePath(t.trait_.value, item)) else item))
  {
    hide WriteArgs, WritePath;
  }
}
