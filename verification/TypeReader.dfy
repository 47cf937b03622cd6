/**
  A reader for Rust's types, bounds, generics and where-clauses, written from the grammar.

  It looks at one token at a time and knows nothing of the printer. Where the grammar allows no `+` (behind `&`, `*`
  and the arrow of a function type) it takes one bound and leaves the rest. Two forms are read as the printer
  writes them although Rust writes them otherwise: generics of function pointers, and tuples of one type.
  Grouping parentheses and trailing commas, which the printer never writes, are not read.
  */
module TypeReader {
  import opened Basics
  import opened TypeSyntax
  import opened TypeTokens

  datatype Reading<+T> = Read(value: T, rest: Tokens) | Fails

  predicate At(tokens: Tokens, token: Token) {
    tokens.Cons? && tokens.head == token
  }

  predicate AtName(tokens: Tokens) {
    tokens.Cons? && tokens.head.Word? && IsName(tokens.head.text)
  }

  predicate AtLifetime(tokens: Tokens) {
    tokens.Cons? && tokens.head.Word? && IsLifetime(tokens.head.text)
  }

  predicate AtExpr(tokens: Tokens) {
    tokens.Cons? && tokens.head.Word? && IsExpr(tokens.head.text)
  }

  /** `token`, then what was read before it. */
  function Then<T>(r: Reading<T>, token: Token): (s: Reading<T>)
    ensures s.Read? ==> r.Read? && s.value == r.value && r.rest == Cons(token, s.rest)
  {
    if r.Read? && At(r.rest, token) then Read(r.value, r.rest.tail) else Fails
  }

  // ---------- Headers ----------

  function ReadHeader(ts: Tokens): (r: Reading<FunctionHeader>)
    ensures r.Read? && (r.rest == ts || r.rest < ts) && LegibleHeader(r.value)
    ensures (ts.Cons? && (ts.head.Const? || ts.head.Async? || ts.head.Unsafe? || ts.head.Extern?)) ==> r.rest < ts
  {
    var isConst := At(ts, Const);
    var a := if isConst then ts.tail else ts;
    var isAsync := At(a, Async);
    var b := if isAsync then a.tail else a;
    var isUnsafe := At(b, Unsafe);
    var c := if isUnsafe then b.tail else b;
    if c.Cons? && c.head.Extern? then
      QuotedOfAbi(c.head.quoted);
      Read(FunctionHeader(isConst, isAsync, isUnsafe, AbiOf(c.head.quoted)), c.tail)
    else Read(FunctionHeader(isConst, isAsync, isUnsafe, Rust), c)
  }

  /** The dots of a variadic function, after inputs or alone. */
  function ReadVariadic(ts: Tokens, anyInputs: bool): (r: Reading<bool>)
    ensures r.Read? && (r.rest == ts || r.rest < ts)
  {
    if At(ts, if anyInputs then CommaDots else Dots) then Read(true, ts.tail) else Read(false, ts)
  }

  // ---------- Types ----------

  function ReadType(ts: Tokens, many: bool): (r: Reading<Type>)
    ensures r.Read? ==> r.rest < ts && LegibleType(r.value, many)
    decreases ts, 3
  {
    hide LegibleType, LegiblePath, LegibleBounds, LegibleTypes;
    if ts.Nil? then Fails
    else
      match ts.head
      case Word(_) =>
        (match ReadPath(ts)
         case Read(p, rest) => LegibleIs(ResolvedPath(p), many); Read(ResolvedPath(p), rest)
         case Fails => Fails)
      case Dyn =>
        (match ReadPolys(ts.tail, many)
         case Read(polys, rest) => Read(DynTrait(polys.0, polys.1), rest)
         case Fails => Fails)
      case Impl =>
        (match ReadBounds(ts.tail, many)
         case Read(bounds, rest) => LegibleIs(ImplTrait(bounds), many); Read(ImplTrait(bounds), rest)
         case Fails => Fails)
      case LParen =>
        (match Then(ReadTypes(ts.tail), RParen)
         case Read(types, rest) => LegibleIs(Tuple(types), many); Read(Tuple(types), rest)
         case Fails => Fails)
      case LBracket => Anywhere(ReadSequence(ts.tail), many)
      case Underscore => LegibleIs(Infer, many); Read(Infer, ts.tail)
      case Star => Anywhere(ReadPointer(ts.tail), many)
      case Amp => Anywhere(ReadReference(ts.tail), many)
      case Lt => Anywhere(ReadQualified(ts.tail), many)
      case _ => Anywhere(ReadPointerToFunction(ts), many)
  }

  /** What may stand where no list of bounds may, may stand everywhere. */
  function Anywhere(r: Reading<Type>, many: bool): (s: Reading<Type>)
    requires r.Read? ==> LegibleType(r.value, false)
    ensures s == r && (r.Read? ==> LegibleType(r.value, many))
  {
    hide LegibleType;
    if r.Read? then LegibleIs(r.value, many); r else r
  }

  /** After `[`: a slice or an array. */
  function ReadSequence(ts: Tokens): (r: Reading<Type>)
    ensures r.Read? ==> r.rest < ts && LegibleType(r.value, false)
    decreases ts, 4
  {
    match ReadType(ts, true)
    case Fails => Fails
    case Read(elem, rest) =>
      if At(rest, RBracket) then Read(Slice(elem), rest.tail)
      else if At(rest, SemiSpace) && rest.tail.Cons? && rest.tail.head.Word? && At(rest.tail.tail, RBracket)
      then Read(Array(elem, rest.tail.head.text), rest.tail.tail.tail)
      else Fails
  }

  /** After `*`. */
  function ReadPointer(ts: Tokens): (r: Reading<Type>)
    ensures r.Read? ==> r.rest < ts && LegibleType(r.value, false)
    decreases ts, 4
  {
    if At(ts, Mut) || At(ts, Const) then
      match ReadType(ts.tail, false)
      case Read(elem, rest) => Read(RawPointer(At(ts, Mut), elem), rest)
      case Fails => Fails
    else Fails
  }

  /** After `&`: a lifetime if there is one, `mut` if it is mutable, then the type referred to. */
  function ReadReference(ts: Tokens): (r: Reading<Type>)
    ensures r.Read? ==> r.rest < ts && LegibleType(r.value, false)
    decreases ts, 4
  {
    var named := ts.Cons? && ts.head.RefLifetime?;
    if named && !IsLifetime(ts.head.lifetime) then Fails
    else
      var a := if named then ts.tail else ts;
      var b := if At(a, Mut) then a.tail else a;
      match ReadType(b, false)
      case Read(elem, rest) => Read(BorrowedRef(if named then Some(ts.head.lifetime) else None, At(a, Mut), elem), rest)
      case Fails => Fails
  }

  /** After `<`: a type, a trait if there is one, and the item of it. */
  function ReadQualified(ts: Tokens): (r: Reading<Type>)
    ensures r.Read? ==> r.rest < ts && LegibleType(r.value, false)
    decreases ts, 4
  {
    match ReadType(ts, true)
    case Fails => Fails
    case Read(selfType, rest) =>
      if At(rest, As) then
        match Then(ReadPath(rest.tail), GtPath)
        case Read(p, after) => ReadItem(after, selfType, Some(p))
        case Fails => Fails
      else if At(rest, GtPath) then ReadItem(rest.tail, selfType, None)
      else Fails
  }

  function ReadItem(ts: Tokens, selfType: Type, trait_: Option<Path>): (r: Reading<Type>)
    requires LegibleType(selfType, true) && (trait_.Some? ==> LegiblePath(trait_.value))
    ensures r.Read? ==> r.rest < ts && LegibleType(r.value, false)
    decreases ts, 4
  {
    hide LegibleType, LegiblePath, LegibleArgs;
    if !AtName(ts) then Fails
    else
      match ReadArgs(ts.tail)
      case Read(args, rest) =>
        var given := if args.Some? then args.value else AngleBracketed([], []);
        NoArgsLegible();
        LegibleItem(ts.head.text, given, selfType, trait_);
        Read(QualifiedPath(ts.head.text, given, selfType, trait_), rest)
      case Fails => Fails
  }

  /** A function pointer with its header. */
  function ReadPointerToFunction(ts: Tokens): (r: Reading<Type>)
    ensures r.Read? ==> r.rest < ts && LegibleType(r.value, false)
    decreases ts, 2
  {
    var header := ReadHeader(ts);
    if !At(header.rest, Fn) then Fails
    else
      var rest := header.rest.tail;
      match ReadGenerics(rest)
      case Read(params, after) => if At(after, LParen) then ReadPointed(after.tail, header.value, params) else Fails
      case Fails => Fails
  }

  /** After the opening parenthesis of a function pointer. */
  function ReadPointed(ts: Tokens, header: FunctionHeader, params: seq<GenericParam>): (r: Reading<Type>)
    requires LegibleHeader(header) && LegibleParams(params)
    ensures r.Read? ==> r.rest < ts && LegibleType(r.value, false)
    decreases ts, 6
  {
    hide LegibleType, LegibleHeader, LegibleParams, LegibleTypes, LegibleOutput;
    match ReadTypes(ts)
    case Fails => Fails
    case Read(inputs, after) =>
      var dots := ReadVariadic(after, |inputs| > 0);
      if !At(dots.rest, RParen) then Fails
      else
        match ReadOutput(dots.rest.tail, false)
        case Read(output, end) =>
          LegibleIs(FunctionPointer(header, params, inputs, dots.value, output), false);
          Read(FunctionPointer(header, params, inputs, dots.value, output), end)
        case Fails => Fails
  }

  /** Types separated by commas, none if the list is closed at once. */
  function ReadTypes(ts: Tokens): (r: Reading<seq<Type>>)
    ensures r.Read? ==> (r.rest == ts || r.rest < ts) && LegibleTypes(r.value)
    decreases ts, 5
  {
    if At(ts, RParen) || At(ts, Dots) then Read([], ts) else ReadSomeTypes(ts)
  }

  function ReadSomeTypes(ts: Tokens): (r: Reading<seq<Type>>)
    ensures r.Read? ==> r.rest < ts && LegibleTypes(r.value)
    decreases ts, 4
  {
    match ReadType(ts, true)
    case Fails => Fails
    case Read(t, rest) =>
      if At(rest, Comma) then
        match ReadSomeTypes(rest.tail)
        case Read(more, end) => Read([t] + more, end)
        case Fails => Fails
      else Read([t], rest)
  }

  function ReadOutput(ts: Tokens, many: bool): (r: Reading<Option<Type>>)
    ensures r.Read? ==> (r.rest == ts || r.rest < ts) && LegibleOutput(r.value, many)
    decreases ts, 0
  {
    if !At(ts, Arrow) then Read(None, ts)
    else
      match ReadType(ts.tail, many)
      case Read(t, rest) => Read(Some(t), rest)
      case Fails => Fails
  }

  // ---------- Paths and arguments ----------

  function ReadPath(ts: Tokens): (r: Reading<Path>)
    ensures r.Read? ==> r.rest < ts && LegiblePath(r.value)
    decreases ts, 1
  {
    if !AtName(ts) then Fails
    else
      match ReadArgs(ts.tail)
      case Read(args, rest) => Read(Path(ts.head.text, args), rest)
      case Fails => Fails
  }

  function ReadArgs(ts: Tokens): (r: Reading<Option<GenericArgs>>)
    ensures r.Read? ==> (r.rest == ts || r.rest < ts) && (r.value.Some? ==> LegibleArgs(r.value.value) && !PrintsNothing(r.value.value))
    decreases ts, 0
  {
    if At(ts, Lt) then
      match Then(ReadEntries(ts.tail), Gt)
      case Read(entries, rest) => Read(Some(AngleBracketed(entries.0, entries.1)), rest)
      case Fails => Fails
    else if At(ts, LParen) then
      match Then(ReadTypes(ts.tail), RParen)
      case Fails => Fails
      case Read(inputs, rest) =>
        match ReadOutput(rest, false)
        case Read(output, end) => Read(Some(Parenthesized(inputs, output)), end)
        case Fails => Fails
    else if At(ts, Notation) then Read(Some(ReturnTypeNotation), ts.tail)
    else Read(None, ts)
  }

  datatype Entry = ArgEntry(arg: GenericArg) | ConstraintEntry(constraint: AssocConstraint)

  /** What stands between two commas in angle brackets. A name may turn out to be that of a constraint. */
  function ReadEntry(ts: Tokens): (r: Reading<Entry>)
    ensures r.Read? ==> r.rest < ts
    ensures r.Read? ==> if r.value.ArgEntry? then LegibleArg(r.value.arg) else LegibleConstraint(r.value.constraint)
    decreases ts, 4
  {
    hide LegibleType, LegibleArgs, LegibleBinding, PrintsNothing;
    if AtLifetime(ts) then Read(ArgEntry(LifetimeArg(ts.head.text)), ts.tail)
    else if AtExpr(ts) then Read(ArgEntry(ConstArg(ts.head.text)), ts.tail)
    else if AtName(ts) then
      match ReadPath(ts)
      case Fails => Fails
      case Read(p, rest) =>
        if At(rest, Equals) || At(rest, Colon) then
          match ReadBinding(rest)
          case Read(binding, end) =>
            NoArgsLegible();
            Read(ConstraintEntry(AssocConstraint(p.path, if p.args.Some? then p.args.value else AngleBracketed([], []), binding)), end)
          case Fails => Fails
        else
          LegibleIs(ResolvedPath(p), true);
          Read(ArgEntry(TypeArg(ResolvedPath(p))), rest)
    else
      match ReadType(ts, true)
      case Read(t, rest) => Read(ArgEntry(TypeArg(t)), rest)
      case Fails => Fails
  }

  function ReadBinding(ts: Tokens): (r: Reading<AssocBinding>)
    ensures r.Read? ==> r.rest < ts && LegibleBinding(r.value)
    decreases ts, 0
  {
    if At(ts, Equals) then
      match ReadTerm(ts.tail)
      case Read(term, rest) => Read(Equality(term), rest)
      case Fails => Fails
    else if At(ts, Colon) then
      match ReadBounds(ts.tail, true)
      case Read(bounds, rest) => Read(Constraint(bounds), rest)
      case Fails => Fails
    else Fails
  }

  /** Arguments first, then constraints. */
  function ReadEntries(ts: Tokens): (r: Reading<(seq<GenericArg>, seq<AssocConstraint>)>)
    ensures r.Read? ==> r.rest < ts && LegibleArgList(r.value.0) && LegibleConstraints(r.value.1) && |r.value.0| + |r.value.1| > 0
    decreases ts, 5
  {
    match ReadEntry(ts)
    case Fails => Fails
    case Read(entry, rest) => AddEntry(entry, if At(rest, Comma) then ReadEntries(rest.tail) else Read(([], []), rest))
  }

  function AddEntry(entry: Entry, more: Reading<(seq<GenericArg>, seq<AssocConstraint>)>): (r: Reading<(seq<GenericArg>, seq<AssocConstraint>)>)
    requires if entry.ArgEntry? then LegibleArg(entry.arg) else LegibleConstraint(entry.constraint)
    requires more.Read? ==> LegibleArgList(more.value.0) && LegibleConstraints(more.value.1)
    ensures r.Read? ==> more.Read? && r.rest == more.rest && LegibleArgList(r.value.0) && LegibleConstraints(r.value.1) && |r.value.0| + |r.value.1| > 0
  {
    if more.Fails? then Fails
    else if entry.ArgEntry? then Read(([entry.arg] + more.value.0, more.value.1), more.rest)
    else if more.value.0 == [] then Read(([], [entry.constraint] + more.value.1), more.rest)
    else Fails
  }

  function ReadTerm(ts: Tokens): (r: Reading<Term>)
    ensures r.Read? ==> r.rest < ts && LegibleTerm(r.value)
    decreases ts, 4
  {
    if AtExpr(ts) then Read(ConstTerm(ts.head.text), ts.tail)
    else
      match ReadType(ts, true)
      case Read(t, rest) => Read(TypeTerm(t), rest)
      case Fails => Fails
  }

  // ---------- Bounds ----------

  /** `for<..>` if it is there. */
  function ReadForAll(ts: Tokens): (r: Reading<seq<GenericParam>>)
    ensures r.Read? ==> (r.rest == ts || r.rest < ts) && LegibleParams(r.value)
    decreases ts, 0
  {
    if At(ts, ForLt) then Then(ReadParams(ts.tail), GtSpace) else Read([], ts)
  }

  function ReadPoly(ts: Tokens): (r: Reading<PolyTrait>)
    ensures r.Read? ==> r.rest < ts && LegiblePoly(r.value)
    decreases ts, 2
  {
    match ReadForAll(ts)
    case Fails => Fails
    case Read(params, rest) =>
      match ReadPath(rest)
      case Read(p, end) => Read(PolyTrait(p, params), end)
      case Fails => Fails
  }

  /** Traits, and a lifetime at the end; one trait only where no list may stand. */
  function ReadPolys(ts: Tokens, many: bool): (r: Reading<(seq<PolyTrait>, Option<string>)>)
    ensures r.Read? ==> r.rest < ts && LegibleType(DynTrait(r.value.0, r.value.1), many)
    decreases ts, 3
  {
    hide LegibleType, LegiblePoly;
    match ReadPoly(ts)
    case Fails => Fails
    case Read(p, rest) =>
      LegibleOne(p, Outlives(""), Infer);
      LegibleIs(DynTrait([p], None), many);
      if !many || !At(rest, Plus) then Read(([p], None), rest)
      else if AtLifetime(rest.tail) then
        LegibleIs(DynTrait([p], Some(rest.tail.head.text)), many);
        Read(([p], Some(rest.tail.head.text)), rest.tail.tail)
      else
        match ReadPolys(rest.tail, many)
        case Read(more, end) =>
          LegibleIs(DynTrait(more.0, more.1), many);
          LegibleIs(DynTrait([p] + more.0, more.1), many);
          Read(([p] + more.0, more.1), end)
        case Fails => Fails
  }

  function ReadModifier(ts: Tokens): (r: Reading<Modifier>)
    ensures r.Read? && (r.rest == ts || r.rest < ts)
  {
    if At(ts, Question) then Read(Maybe, ts.tail)
    else if At(ts, Const) then Read(MaybeConst, ts.tail)
    else Read(NoModifier, ts)
  }

  function ReadBound(ts: Tokens): (r: Reading<GenericBound>)
    ensures r.Read? ==> r.rest < ts && LegibleBound(r.value)
    decreases ts, 2
  {
    if AtLifetime(ts) then Read(Outlives(ts.head.text), ts.tail)
    else if At(ts, UseLt) then
      match Then(ReadCaptures(ts.tail), Gt)
      case Read(captures, rest) => Read(Captures(captures), rest)
      case Fails => Fails
    else
      match ReadForAll(ts)
      case Fails => Fails
      case Read(params, rest) =>
        var modifier := ReadModifier(rest);
        match ReadPath(modifier.rest)
        case Read(p, end) => Read(TraitBound(p, params, modifier.value), end)
        case Fails => Fails
  }

  function ReadBounds(ts: Tokens, many: bool): (r: Reading<seq<GenericBound>>)
    ensures r.Read? ==> r.rest < ts && |r.value| > 0 && LegibleBounds(r.value) && (many || |r.value| == 1)
    decreases ts, 3
  {
    match ReadBound(ts)
    case Fails => Fails
    case Read(b, rest) =>
      if !many || !At(rest, Plus) then Read([b], rest)
      else
        match ReadBounds(rest.tail, many)
        case Read(more, end) => Read([b] + more, end)
        case Fails => Fails
  }

  function ReadCaptures(ts: Tokens): (r: Reading<seq<CaptureArg>>)
    ensures r.Read? ==> (r.rest == ts || r.rest < ts) && LegibleCaptures(r.value)
    decreases ts
  {
    if At(ts, Gt) then Read([], ts)
    else if !AtLifetime(ts) && !AtName(ts) then Fails
    else
      var capture := if AtLifetime(ts) then CaptureLifetime(ts.head.text) else CaptureParam(ts.head.text);
      if !At(ts.tail, Comma) then Read([capture], ts.tail)
      else if At(ts.tail.tail, Gt) then Fails
      else
        match ReadCaptures(ts.tail.tail)
        case Read(more, rest) => Read([capture] + more, rest)
        case Fails => Fails
  }

  function ReadLifetimes(ts: Tokens): (r: Reading<seq<string>>)
    ensures r.Read? ==> r.rest < ts && |r.value| > 0 && AreLifetimes(r.value)
    decreases ts
  {
    if !AtLifetime(ts) then Fails
    else if !At(ts.tail, Plus) then Read([ts.head.text], ts.tail)
    else
      match ReadLifetimes(ts.tail.tail)
      case Read(more, rest) => Read([ts.head.text] + more, rest)
      case Fails => Fails
  }

  // ---------- Generic parameters ----------

  function ReadParam(ts: Tokens): (r: Reading<GenericParam>)
    ensures r.Read? ==> r.rest < ts && LegibleParam(r.value)
    decreases ts, 1
  {
    if At(ts, Const) then ReadConstParam(ts.tail)
    else if AtLifetime(ts) then
      if !At(ts.tail, Colon) then Read(GenericParam(ts.head.text, LifetimeParam([])), ts.tail)
      else
        match ReadLifetimes(ts.tail.tail)
        case Read(outlives, rest) => Read(GenericParam(ts.head.text, LifetimeParam(outlives)), rest)
        case Fails => Fails
    else if AtName(ts) then
      match (if At(ts.tail, Colon) then ReadBounds(ts.tail.tail, true) else Read([], ts.tail))
      case Read(bounds, rest) => ReadTypeParam(rest, ts.head.text, bounds)
      case Fails => Fails
    else Fails
  }

  /** After the name and the bounds. */
  function ReadTypeParam(ts: Tokens, name: string, bounds: seq<GenericBound>): (r: Reading<GenericParam>)
    requires IsName(name) && LegibleBounds(bounds)
    ensures r.Read? ==> (r.rest == ts || r.rest < ts) && LegibleParam(r.value)
    decreases ts, 1
  {
    match ReadDefault(ts)
    case Read(default, rest) => Read(GenericParam(name, TypeParam(bounds, default)), rest)
    case Fails => Fails
  }

  function ReadDefault(ts: Tokens): (r: Reading<Option<Type>>)
    ensures r.Read? ==> (r.rest == ts || r.rest < ts) && LegibleOutput(r.value, true)
    decreases ts, 0
  {
    if !At(ts, Equals) then Read(None, ts)
    else
      match ReadType(ts.tail, true)
      case Read(t, rest) => Read(Some(t), rest)
      case Fails => Fails
  }

  /** After `const`. */
  function ReadConstParam(ts: Tokens): (r: Reading<GenericParam>)
    ensures r.Read? ==> r.rest < ts && LegibleParam(r.value)
    decreases ts, 1
  {
    if !AtName(ts) || !At(ts.tail, Colon) then Fails
    else
      match ReadType(ts.tail.tail, true)
      case Fails => Fails
      case Read(t, rest) =>
        if !At(rest, Equals) then Read(GenericParam(ts.head.text, ConstParam(t, None)), rest)
        else if rest.tail.Cons? && rest.tail.head.Word? then Read(GenericParam(ts.head.text, ConstParam(t, Some(rest.tail.head.text))), rest.tail.tail)
        else Fails
  }

  function ReadParams(ts: Tokens): (r: Reading<seq<GenericParam>>)
    ensures r.Read? ==> r.rest < ts && |r.value| > 0 && LegibleParams(r.value)
    decreases ts, 2
  {
    match ReadParam(ts)
    case Fails => Fails
    case Read(p, rest) =>
      if !At(rest, Comma) then Read([p], rest)
      else
        match ReadParams(rest.tail)
        case Read(more, end) => Read([p] + more, end)
        case Fails => Fails
  }

  /** Parameters in angle brackets, if there are any. */
  function ReadGenerics(ts: Tokens): (r: Reading<seq<GenericParam>>)
    ensures r.Read? ==> (r.rest == ts || r.rest < ts) && LegibleParams(r.value)
    decreases ts, 0
  {
    if At(ts, Lt) then Then(ReadParams(ts.tail), Gt) else Read([], ts)
  }

  // ---------- Where-clauses ----------

  function ReadPredicate(ts: Tokens): (r: Reading<WherePredicate>)
    ensures r.Read? ==> r.rest < ts && LegiblePredicate(r.value)
  {
    hide LegibleParams, AreLifetimes;
    if AtLifetime(ts) then
      if !At(ts.tail, Colon) then Fails
      else
        match ReadLifetimes(ts.tail.tail)
        case Read(outlives, rest) => Read(LifetimePredicate(ts.head.text, outlives), rest)
        case Fails => Fails
    else
      match ReadForAll(ts)
      case Read(params, rest) => ReadTypePredicate(rest, params)
      case Fails => Fails
  }

  /** Bounds of a type, or a type that a type is equal to. */
  function ReadTypePredicate(ts: Tokens, params: seq<GenericParam>): (r: Reading<WherePredicate>)
    requires LegibleParams(params)
    ensures r.Read? ==> r.rest < ts && LegiblePredicate(r.value)
  {
    hide LegibleType, LegibleBounds, LegibleParams, LegibleTerm;
    match ReadType(ts, true)
    case Fails => Fails
    case Read(t, after) =>
      if At(after, Colon) then
        match ReadBounds(after.tail, true)
        case Read(bounds, end) => Read(BoundPredicate(t, bounds, params), end)
        case Fails => Fails
      else if At(after, Equals) && params == [] then
        match ReadTerm(after.tail)
        case Read(term, end) => Read(EqPredicate(t, term), end)
        case Fails => Fails
      else Fails
  }

  function ReadPredicates(ts: Tokens): (r: Reading<seq<WherePredicate>>)
    ensures r.Read? ==> r.rest < ts && |r.value| > 0 && LegiblePredicates(r.value)
    decreases ts
  {
    match ReadPredicate(ts)
    case Fails => Fails
    case Read(w, rest) =>
      if !At(rest, Comma) then Read([w], rest)
      else
        match ReadPredicates(rest.tail)
        case Read(more, end) => Read([w] + more, end)
        case Fails => Fails
  }
}
