/** The part of rustdoc's type syntax that `generate_api` prints. */
module TypeSyntax {
  import opened Basics

  datatype Abi = Rust | Named(name: string, unwind: bool) | OtherAbi(quoted: string)
  datatype FunctionHeader = FunctionHeader(isConst: bool, isAsync: bool, isUnsafe: bool, abi: Abi)

  datatype Type =
    | ResolvedPath(path: Path)
    | DynTrait(traits: seq<PolyTrait>, bound: Option<string>)
    | Generic(name: string)
    | Primitive(name: string)
    | FunctionPointer(header: FunctionHeader, params: seq<GenericParam>, inputs: seq<Type>, isVariadic: bool, output: Option<Type>)
    | Tuple(types: seq<Type>)
    | Slice(elem: Type)
    | Array(elem: Type, len: string)
    | Pat(elem: Type)
    | ImplTrait(bounds: seq<GenericBound>)
    | Infer
    | RawPointer(isMutable: bool, elem: Type)
    | BorrowedRef(lifetime: Option<string>, isMutable: bool, elem: Type)
    | QualifiedPath(name: string, args: GenericArgs, selfType: Type, trait_: Option<Path>)

  datatype Path = Path(path: string, args: Option<GenericArgs>)
  datatype PolyTrait = PolyTrait(trait_: Path, params: seq<GenericParam>)

  datatype GenericArgs =
    | AngleBracketed(args: seq<GenericArg>, constraints: seq<AssocConstraint>)
    | Parenthesized(inputs: seq<Type>, output: Option<Type>)
    | ReturnTypeNotation

  datatype GenericArg = LifetimeArg(lifetime: string) | TypeArg(type_: Type) | ConstArg(expr: string) | InferArg

  datatype AssocConstraint = AssocConstraint(name: string, args: GenericArgs, binding: AssocBinding)
  datatype AssocBinding = Equality(term: Term) | Constraint(bounds: seq<GenericBound>)
  datatype Term = TypeTerm(type_: Type) | ConstTerm(expr: string)

  datatype Modifier = NoModifier | Maybe | MaybeConst
  datatype CaptureArg = CaptureLifetime(lifetime: string) | CaptureParam(name: string)
  datatype GenericBound =
    | TraitBound(trait_: Path, params: seq<GenericParam>, modifier: Modifier)
    | Outlives(lifetime: string)
    | Captures(captures: seq<CaptureArg>)

  datatype GenericParam = GenericParam(name: string, kind: ParamKind)
  datatype ParamKind =
    | LifetimeParam(outlives: seq<string>)
    | TypeParam(bounds: seq<GenericBound>, default: Option<Type>)
    | ConstParam(type_: Type, constDefault: Option<string>)

  datatype WherePredicate =
    | BoundPredicate(type_: Type, bounds: seq<GenericBound>, params: seq<GenericParam>)
    | LifetimePredicate(lifetime: string, outlives: seq<string>)
    | EqPredicate(lhs: Type, rhs: Term)

  datatype Function = Function(
    header: FunctionHeader, params: seq<GenericParam>, predicates: seq<WherePredicate>,
    inputs: seq<(string, Type)>, isVariadic: bool, output: Option<Type>)
}
