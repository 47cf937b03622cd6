/**
  The printed type or declaration means the tree: a reader of Rust's grammar gets the tree back.

  This holds exactly for legible trees. The printer writes no parentheses, so a reference to several bounds, such as
  `&(dyn A + B)`, is not legible; and a receiver is printed without its lifetime.
  */
module SignatureReading {
  import opened Basics
  import opened TypeSyntax
  import opened TypeRender
  import opened TypeTokens
  import opened TypeReader
  import opened TypeReading
  import opened TypeText

  // ---------- Types ----------

  /** Whatever is elided, the text is that of the plain tree left after erasing, and reading it gives that tree iff it is legible. */
  lemma TypeIsReadBack(t: Type, elided: set<string>)
    ensures var u := PlainType(EraseType(t, elided));
            && (LegibleType(u, true) ==> RenderType(t, elided) == Text(WriteType(u, Nil)))
            && (ReadType(WriteType(u, Nil), true) == Read(u, Nil) <==> LegibleType(u, true))
  {
    hide RenderType, WriteType, PlainType, LegibleType, ReadType, EraseType, Text;
    var e := EraseType(t, elided);
    TypeCommutes(t, elided, {});
    assert elided + {} == elided;
    if LegibleType(PlainType(e), true) {
      TypeIsText(e, true, Nil);
      NoText();
      assert RenderType(e, {}) + "" == RenderType(e, {});
      TypeReads(PlainType(e), true, Nil);
    }
  }

  lemma NoText()
    ensures Text(Nil) == ""
  {
  }

  /** A reference to two bounds is read as a reference to the first, with the second left over. */
  lemma BareBounds(a: string, b: string)
    requires IsName(a) && IsName(b)
    ensures var both := [PolyTrait(Path(a, None), []), PolyTrait(Path(b, None), [])];
            var t := BorrowedRef(None, false, DynTrait(both, None));
            && RenderType(t, {}) == "&dyn " + a + " + " + b
            && ReadType(WriteType(t, Nil), true) == Read(BorrowedRef(None, false, DynTrait(both[..1], None)), Cons(Plus, Cons(Word(b), Nil)))
  {
    var both := [PolyTrait(Path(a, None), []), PolyTrait(Path(b, None), [])];
    var t, u := BorrowedRef(None, false, DynTrait(both, None)), BorrowedRef(None, false, DynTrait(both[..1], None));
    var rest := Cons(Plus, Cons(Word(b), Nil));
    assert both[..1] == [both[0]] && both[1..] == [both[1]];
    BareBoundsText(a, b);
    BareBoundsWritten(a, b);
    LegibleOne(both[0], Outlives(""), Infer);
    LegibleIs(DynTrait(both[..1], None), false);
    LegibleIs(u, false);
    hide ClassOf, ReadType, RenderType, WriteType, LegibleType;
    TypeReads(u, false, rest);
    Writes(u, rest);
    Starts(WriteType(u, rest), false);
    Starts(WriteType(u, rest), true);
  }

  lemma BareBoundsText(a: string, b: string)
    ensures RenderType(BorrowedRef(None, false, DynTrait([PolyTrait(Path(a, None), []), PolyTrait(Path(b, None), [])], None)), {}) == "&dyn " + a + " + " + b
  {
    var both := [PolyTrait(Path(a, None), []), PolyTrait(Path(b, None), [])];
    var inner := DynTrait(both, None);
    hide RenderType, RenderPolys, Join;
    Renders(BorrowedRef(None, false, inner));
    Renders(inner);
    TwoNames(a, b);
    var text := "dyn " + (a + " + " + b);
    assert text + "" == text && "&" + "" + "" + text == "&" + text;
    assert "&" + "dyn " == "&dyn ";
    Assoc("&", "dyn ", a + " + " + b);
    Regroup("&dyn ", a, " + ", b);
    Assoc(a, " + ", b);
  }

  lemma TwoNames(a: string, b: string)
    ensures Join(RenderPolys([PolyTrait(Path(a, None), []), PolyTrait(Path(b, None), [])], {}), " + ") == a + " + " + b
  {
    var both := [PolyTrait(Path(a, None), []), PolyTrait(Path(b, None), [])];
    assert both[1..] == [both[1]] && [both[1]][1..] == [];
    NameText(a);
    NameText(b);
    hide RenderPoly;
    assert RenderPolys([both[1]], {}) == [b];
    assert RenderPolys(both, {}) == [a] + [b];
    assert ([a] + [b])[1..] == [b];
  }

  lemma NameText(a: string)
    ensures RenderPoly(PolyTrait(Path(a, None), []), {}) == a
  {
    assert "" + (a + "") == a;
  }

  lemma BareBoundsWritten(a: string, b: string)
    ensures var both := [PolyTrait(Path(a, None), []), PolyTrait(Path(b, None), [])];
            WriteType(BorrowedRef(None, false, DynTrait(both, None)), Nil) ==
            WriteType(BorrowedRef(None, false, DynTrait([both[0]], None)), Cons(Plus, Cons(Word(b), Nil)))
  {
    var both := [PolyTrait(Path(a, None), []), PolyTrait(Path(b, None), [])];
    assert both[1..] == [both[1]];
    hide WriteType, WritePolys;
    var rest := Cons(Plus, Cons(Word(b), Nil));
    Writes(BorrowedRef(None, false, DynTrait(both, None)), Nil);
    Writes(DynTrait(both, None), Nil);
    Writes(BorrowedRef(None, false, DynTrait([both[0]], None)), rest);
    Writes(DynTrait([both[0]], None), rest);
    PolyWrites(both[0], Cons(Plus, WritePolys([both[1]], Nil)), both, Nil);
    PolyWrites(both[1], Nil, [both[1]], Nil);
    PolyWrites(both[0], rest, [both[0]], rest);
  }

  lemma PolyWrites(p: PolyTrait, after: Tokens, ps: seq<PolyTrait>, rest: Tokens)
    requires |ps| > 0 && p == ps[0] && p.params == [] && p.trait_.args == None
    requires after == if |ps| == 1 then rest else Cons(Plus, WritePolys(ps[1..], rest))
    ensures WritePolys(ps, rest) == Cons(Word(p.trait_.path), after)
  {
    assert WritePath(p.trait_, after) == Cons(Word(p.trait_.path), after);
    assert WriteForAll(p.params, WritePath(p.trait_, after)) == WritePath(p.trait_, after);
  }

  // ---------- Function declarations ----------

  /** A parameter: the receiver by value or by reference, a named one, or only a type. */
  datatype Input = Receiver(isRef: bool, isMutable: bool) | Typed(name: string, type_: Type) | Anonymous(type_: Type)

  datatype Signature = Signature(
    isPublic: bool, header: FunctionHeader, name: string, generics: seq<GenericParam>, inputs: seq<Input>, isVariadic: bool,
    output: Option<Type>, predicates: seq<WherePredicate>)

  /** `self`, `&self` and `&mut self` are printed without their type, and so without a lifetime. */
  function PlainInput(input: (string, Type)): Input {
    if input.0 == "self" && input.1 == Generic("Self") then Receiver(false, false)
    else if input.0 == "self" && input.1.BorrowedRef? && input.1.elem == Generic("Self") then Receiver(true, input.1.isMutable)
    else if input.0 == "" then Anonymous(PlainType(input.1))
    else Typed(input.0, PlainType(input.1))
  }

  function PlainInputs(inputs: seq<(string, Type)>): (plain: seq<Input>)
    ensures |plain| == |inputs|
  {
    if |inputs| == 0 then [] else [PlainInput(inputs[0])] + PlainInputs(inputs[1..])
  }

  function PlainSignature(name: string, f: Function, isPublic: bool): Signature {
    Signature(isPublic, PlainHeader(f.header), name, PlainParams(f.params), PlainInputs(f.inputs), f.isVariadic, PlainOutput(f.output), PlainPredicates(f.predicates))
  }

  predicate LegibleInput(input: Input) {
    match input
    case Receiver(isRef, isMutable) => isMutable ==> isRef
    case Typed(name, type_) => (IsName(name) || name == "self" || name == "_") && LegibleType(type_, true)
    case Anonymous(type_) => LegibleType(type_, true)
  }

  predicate LegibleInputs(inputs: seq<Input>) {
    |inputs| == 0 || (LegibleInput(inputs[0]) && LegibleInputs(inputs[1..]))
  }

  predicate LegibleSignature(s: Signature) {
    && LegibleHeader(s.header) && IsName(s.name) && LegibleParams(s.generics) && LegibleInputs(s.inputs)
    && LegibleOutput(s.output, true) && LegiblePredicates(s.predicates)
  }

  function NameToken(name: string): Token {
    if name == "self" then SelfWord else if name == "_" then Underscore else Word(name)
  }

  function WriteInput(input: Input, rest: Tokens): Tokens {
    match input
    case Receiver(isRef, isMutable) =>
      if !isRef then Cons(SelfWord, rest) else if isMutable then Cons(Amp, Cons(Mut, Cons(SelfWord, rest))) else Cons(Amp, Cons(SelfWord, rest))
    case Typed(name, type_) => Cons(NameToken(name), Cons(Colon, WriteType(type_, rest)))
    case Anonymous(type_) => WriteType(type_, rest)
  }

  function WriteInputs(inputs: seq<Input>, rest: Tokens): Tokens {
    if |inputs| == 0 then rest
    else WriteInput(inputs[0], if |inputs| == 1 then rest else Cons(Comma, WriteInputs(inputs[1..], rest)))
  }

  function WriteWhere(predicates: seq<WherePredicate>, rest: Tokens): Tokens {
    if |predicates| == 0 then rest else Cons(Where, WritePredicates(predicates, rest))
  }

  /** The tokens from the opening parenthesis on. */
  function WriteTail(inputs: seq<Input>, isVariadic: bool, output: Option<Type>, predicates: seq<WherePredicate>): Tokens {
    var end := WriteOutput(output, WriteWhere(predicates, Cons(Semicolon, Nil)));
    Cons(LParen, WriteInputs(inputs, WriteVariadic(isVariadic, |inputs| > 0, Cons(RParen, end))))
  }

  function WriteSignature(s: Signature): Tokens {
    var tail := WriteTail(s.inputs, s.isVariadic, s.output, s.predicates);
    var declared := WriteHeader(s.header, Cons(FnItem, Cons(Word(s.name), WriteGenerics(s.generics, tail))));
    if s.isPublic then Cons(Pub, declared) else declared
  }

  // ---------- Reading declarations ----------

  function ReadNamed(ts: Tokens, name: string): (r: Reading<Input>)
    requires IsName(name) || name == "self" || name == "_"
    ensures r.Read? ==> r.rest < ts && LegibleInput(r.value)
  {
    hide LegibleType, ClassOf;
    match ReadType(ts, true)
    case Read(t, rest) => Read(Typed(name, t), rest)
    case Fails => Fails
  }

  function ReadInput(ts: Tokens): (r: Reading<Input>)
    ensures r.Read? ==> r.rest < ts && LegibleInput(r.value)
  {
    hide LegibleType, ClassOf;
    if ts.Nil? then Fails
    else if (ts.head.SelfWord? || ts.head.Underscore? || AtName(ts)) && At(ts.tail, Colon) then
      ReadNamed(ts.tail.tail, if ts.head.SelfWord? then "self" else if ts.head.Underscore? then "_" else ts.head.text)
    else if ts.head.SelfWord? then Read(Receiver(false, false), ts.tail)
    else if ts.head.Amp? && At(ts.tail, SelfWord) then Read(Receiver(true, false), ts.tail.tail)
    else if ts.head.Amp? && At(ts.tail, Mut) && At(ts.tail.tail, SelfWord) then Read(Receiver(true, true), ts.tail.tail.tail)
    else
      match ReadType(ts, true)
      case Read(t, rest) => Read(Anonymous(t), rest)
      case Fails => Fails
  }

  function ReadSomeInputs(ts: Tokens): (r: Reading<seq<Input>>)
    ensures r.Read? ==> r.rest < ts && |r.value| > 0 && LegibleInputs(r.value)
    decreases ts
  {
    hide LegibleInput;
    match ReadInput(ts)
    case Fails => Fails
    case Read(input, rest) =>
      if !At(rest, Comma) then Read([input], rest)
      else
        match ReadSomeInputs(rest.tail)
        case Read(more, end) => Read([input] + more, end)
        case Fails => Fails
  }

  function ReadInputs(ts: Tokens): (r: Reading<seq<Input>>)
    ensures r.Read? ==> LegibleInputs(r.value)
  {
    if At(ts, RParen) || At(ts, Dots) then Read([], ts) else ReadSomeInputs(ts)
  }

  function ReadWhere(ts: Tokens): (r: Reading<seq<WherePredicate>>)
    ensures r.Read? ==> LegiblePredicates(r.value)
  {
    if At(ts, Where) then ReadPredicates(ts.tail) else Read([], ts)
  }

  /** What follows the name and the generics: parameters, output and where-clause, up to the semicolon. */
  function ReadDeclared(ts: Tokens, isPublic: bool, header: FunctionHeader, name: string, generics: seq<GenericParam>): (r: Reading<Signature>)
    requires LegibleHeader(header) && IsName(name) && LegibleParams(generics)
    ensures r.Read? ==> LegibleSignature(r.value)
  {
    hide LegibleHeader, LegibleParams, LegibleInputs, LegibleOutput, LegiblePredicates, ClassOf;
    match ReadInputs(ts)
    case Fails => Fails
    case Read(inputs, after) =>
      var dots := ReadVariadic(after, |inputs| > 0);
      if !At(dots.rest, RParen) then Fails
      else
        match ReadOutput(dots.rest.tail, true)
        case Fails => Fails
        case Read(output, rest) =>
          match Then(ReadWhere(rest), Semicolon)
          case Read(predicates, end) => Read(Signature(isPublic, header, name, generics, inputs, dots.value, output, predicates), end)
          case Fails => Fails
  }

  function ReadSignature(ts: Tokens): (r: Reading<Signature>)
    ensures r.Read? ==> LegibleSignature(r.value)
  {
    hide LegibleHeader, LegibleParams, LegibleSignature, ClassOf;
    var header := ReadHeader(if At(ts, Pub) then ts.tail else ts);
    if !At(header.rest, FnItem) || !AtName(header.rest.tail) then Fails
    else
      match Then(ReadGenerics(header.rest.tail.tail), LParen)
      case Read(generics, rest) => ReadDeclared(rest, At(ts, Pub), header.value, header.rest.tail.head.text, generics)
      case Fails => Fails
  }

  // ---------- Declarations are read back ----------

  lemma InputReads(input: Input, rest: Tokens)
    requires LegibleInput(input) && rest.Cons? && (rest.head.Comma? || rest.head.RParen? || rest.head.CommaDots?)
    ensures ReadInput(WriteInput(input, rest)) == Read(input, rest)
  {
    hide ClassOf, ReadType, WriteType, LegibleType;
    match input
    case Receiver(_, _) =>
    case Typed(name, type_) => TypeReads(type_, true, rest);
    case Anonymous(type_) =>
      TypeReads(type_, true, rest);
      TypeStarts(type_, true, rest);
      AnonymousStarts(type_, rest);
  }

  /** A type alone is not taken for a receiver or a name. */
  lemma AnonymousStarts(t: Type, rest: Tokens)
    requires LegibleType(t, true) && rest.Cons? && (rest.head.Comma? || rest.head.RParen? || rest.head.CommaDots?)
    ensures var ts := WriteType(t, rest);
            && ts.Cons? && (ts.head.Word? || ts.head.Underscore? ==> !At(ts.tail, Colon))
            && (ts.head.Amp? ==> !At(ts.tail, SelfWord) && (At(ts.tail, Mut) ==> !At(ts.tail.tail, SelfWord)))
  {
    TypeStarts(t, true, rest);
    if t.BorrowedRef? {
      LegibleIs(t, true);
      TypeStarts(t.elem, false, rest);
      Writes(t, rest);
      hide WriteType, LegibleType;
    } else if t.ResolvedPath? {
      ArgsStart(t.path, rest);
      Writes(t, rest);
      hide WriteType, LegibleType, WritePath;
    } else {
      OtherStarts(t, rest);
    }
  }

  lemma ArgsStart(p: Path, rest: Tokens)
    requires !At(rest, Colon)
    ensures WritePath(p, rest).Cons? && !At(WritePath(p, rest).tail, Colon)
  {
  }

  lemma OtherStarts(t: Type, rest: Tokens)
    requires LegibleType(t, true) && !t.BorrowedRef? && !t.ResolvedPath? && !At(rest, Colon)
    ensures var ts := WriteType(t, rest); ts.Cons? && !ts.head.Amp? && !ts.head.Word? && (ts.head.Underscore? ==> ts.tail == rest)
  {
    hide ClassOf, QuotedAbi;
  }

  lemma {:induction false} SomeInputsRead(inputs: seq<Input>, rest: Tokens)
    requires |inputs| > 0 && LegibleInputs(inputs) && rest.Cons? && (rest.head.RParen? || rest.head.CommaDots?)
    ensures ReadSomeInputs(WriteInputs(inputs, rest)) == Read(inputs, rest)
  {
    hide ReadInput, WriteInput, LegibleInput;
    if |inputs| == 1 {
      assert inputs == [inputs[0]];
      InputReads(inputs[0], rest);
    } else {
      assert inputs == [inputs[0]] + inputs[1..];
      InputReads(inputs[0], Cons(Comma, WriteInputs(inputs[1..], rest)));
      SomeInputsRead(inputs[1..], rest);
    }
  }

  lemma InputStarts(input: Input, rest: Tokens)
    requires LegibleInput(input)
    ensures var ts := WriteInput(input, rest); !At(ts, RParen) && !At(ts, Dots)
  {
    hide ClassOf, WriteType, LegibleType;
    if input.Anonymous? {
      TypeStarts(input.type_, true, rest);
    }
  }

  lemma InputsRead(inputs: seq<Input>, rest: Tokens)
    requires LegibleInputs(inputs) && rest.Cons? && (rest.head.RParen? || (if |inputs| == 0 then rest.head.Dots? else rest.head.CommaDots?))
    ensures ReadInputs(WriteInputs(inputs, rest)) == Read(inputs, rest)
  {
    if |inputs| > 0 {
      SomeInputsRead(inputs, rest);
      InputStarts(inputs[0], if |inputs| == 1 then rest else Cons(Comma, WriteInputs(inputs[1..], rest)));
      hide WriteInput, ReadSomeInputs;
    }
  }

  lemma WhereReads(predicates: seq<WherePredicate>, rest: Tokens)
    requires LegiblePredicates(predicates) && rest.Cons? && rest.head.Semicolon?
    ensures ReadWhere(WriteWhere(predicates, rest)) == Read(predicates, rest)
    ensures Closes(WriteWhere(predicates, rest), true)
  {
    hide ReadPredicates, WritePredicates, LegiblePredicates;
    if |predicates| > 0 {
      PredicatesRead(predicates, rest);
    }
  }

  lemma DeclaredReads(s: Signature)
    requires LegibleSignature(s)
    ensures ReadDeclared(WriteTail(s.inputs, s.isVariadic, s.output, s.predicates).tail, s.isPublic, s.header, s.name, s.generics) == Read(s, Nil)
  {
    hide LegibleHeader, LegibleParams, LegibleInputs, LegibleOutput, LegiblePredicates, ClassOf, Closes;
    hide ReadInputs, WriteInputs, ReadOutput, WriteOutput, ReadWhere, WriteWhere;
    var clause := WriteWhere(s.predicates, Cons(Semicolon, Nil));
    var end := WriteOutput(s.output, clause);
    WhereReads(s.predicates, Cons(Semicolon, Nil));
    OutputReads(s.output, true, clause);
    InputsRead(s.inputs, WriteVariadic(s.isVariadic, |s.inputs| > 0, Cons(RParen, end)));
  }

  lemma HeaderStartsItem(header: FunctionHeader, rest: Tokens)
    requires rest.Cons? && rest.head.FnItem?
    ensures !At(WriteHeader(header, rest), Pub)
  {
  }

  lemma SignatureReads(s: Signature)
    requires LegibleSignature(s)
    ensures ReadSignature(WriteSignature(s)) == Read(s, Nil)
  {
    hide LegibleHeader, LegibleParams, LegibleInputs, LegibleOutput, LegiblePredicates, ClassOf;
    hide ReadHeader, WriteHeader, ReadGenerics, WriteGenerics, WriteInputs, WriteOutput, WriteWhere, WriteVariadic, ReadDeclared;
    DeclaredReads(s);
    var tail := WriteTail(s.inputs, s.isVariadic, s.output, s.predicates);
    var generics := WriteGenerics(s.generics, tail);
    GenericsRead(s.generics, tail);
    HeaderReads(s.header, Cons(FnItem, Cons(Word(s.name), generics)));
    HeaderStartsItem(s.header, Cons(FnItem, Cons(Word(s.name), generics)));
  }

  // ---------- Declarations are their tokens ----------

  lemma InputIsText(input: (string, Type), rest: Tokens)
    requires LegibleInput(PlainInput(input))
    ensures RenderInput(input, {}) + Text(rest) == Text(WriteInput(PlainInput(input), rest))
  {
    hide RenderType, WriteType, PlainType, LegibleType, ClassOf, Text;
    var plain := PlainInput(input);
    match plain
    case Receiver(isRef, isMutable) =>
      TextCons(SelfWord, rest);
      TextCons(Amp, Cons(SelfWord, rest));
      TextCons(Mut, Cons(SelfWord, rest));
      TextCons(Amp, Cons(Mut, Cons(SelfWord, rest)));
      assert "&" + ("self" + Text(rest)) == "&self" + Text(rest);
      assert "&" + ("mut " + ("self" + Text(rest))) == "&mut self" + Text(rest);
    case Typed(name, _) =>
      TypeIsText(input.1, true, rest);
      var written := WriteType(PlainType(input.1), rest);
      Regroup(name, ": ", RenderType(input.1, {}), Text(rest));
      TextCons(Colon, written);
      TextCons(NameToken(name), Cons(Colon, written));
    case Anonymous(_) => TypeIsText(input.1, true, rest);
  }

  lemma {:induction false} InputsAreText(inputs: seq<(string, Type)>, rest: Tokens)
    requires LegibleInputs(PlainInputs(inputs))
    ensures |RenderInputs(inputs, {})| == |inputs|
    ensures Join(RenderInputs(inputs, {}), ", ") + Text(rest) == Text(WriteInputs(PlainInputs(inputs), rest))
  {
    hide RenderInput, WriteInput, PlainInput, LegibleInput;
    if |inputs| == 0 {
      assert "" + Text(rest) == Text(rest);
    } else {
      var plain := PlainInputs(inputs);
      assert plain[1..] == PlainInputs(inputs[1..]);
      var others := WriteInputs(plain[1..], rest);
      InputIsText(inputs[0], if |inputs| == 1 then rest else Cons(Comma, others));
      InputsAreText(inputs[1..], rest);
      JoinFirst(RenderInput(inputs[0], {}), RenderInputs(inputs[1..], {}), ", ", Text(rest));
      TextCons(Comma, others);
    }
  }

  lemma WhereIsText(predicates: seq<WherePredicate>, rest: Tokens)
    requires LegiblePredicates(PlainPredicates(predicates))
    ensures RenderWhere(predicates, {}) + Text(rest) == Text(WriteWhere(PlainPredicates(predicates), rest))
  {
    hide RenderPredicates, WritePredicates, PlainPredicates, LegiblePredicates, Join, Text;
    PredicatesAreText(predicates, rest);
    var joined := Join(RenderPredicates(predicates, {}), ", ");
    assert "" + Text(rest) == Text(rest);
    assert " where " + joined + "" == " where " + joined;
    Assoc(" where ", joined, Text(rest));
    TextCons(Where, WritePredicates(PlainPredicates(predicates), rest));
  }

  lemma DeclarationParts(pub_: string, header: string, name: string, generics: string, inputs: string, dots: string, output: string, clause: string)
    ensures pub_ + header + "fn " + name + generics + "(" + inputs + dots + ")" + output + clause + ";" ==
            pub_ + (header + ("fn " + (name + (generics + ("(" + (inputs + (dots + (")" + (output + (clause + ";"))))))))))
  {
    var a := pub_ + header + "fn " + name + generics;
    var tail := output + (clause + ";");
    Regroup(a + "(" + inputs + dots + ")", output, clause, ";");
    Regroup(a + "(" + inputs, dots, ")", tail);
    Regroup(a, "(", inputs, dots + (")" + tail));
    Regroup(pub_ + header, "fn ", name + generics, "(" + (inputs + (dots + (")" + tail))));
    var body := "(" + (inputs + (dots + (")" + tail)));
    Assoc(pub_ + header + "fn ", name, generics);
    Assoc(name, generics, body);
    Assoc(pub_, header, "fn " + (name + (generics + body)));
  }

  lemma TailIsText(f: Function)
    requires LegibleInputs(PlainInputs(f.inputs)) && LegibleOutput(PlainOutput(f.output), true) && LegiblePredicates(PlainPredicates(f.predicates))
    ensures "(" + (Join(RenderInputs(f.inputs, {}), ", ") + (Variadic(f.isVariadic, |f.inputs| > 0) + (")" + (RenderOutput(f.output, {}) + (RenderWhere(f.predicates, {}) + ";"))))) ==
            Text(WriteTail(PlainInputs(f.inputs), f.isVariadic, PlainOutput(f.output), PlainPredicates(f.predicates)))
  {
    hide RenderInputs, WriteInputs, PlainInputs, Variadic, WriteVariadic, RenderOutput, WriteOutput, PlainOutput, RenderWhere, WriteWhere, PlainPredicates, Join, Text;
    hide LegibleInputs, LegibleOutput, LegiblePredicates;
    var clause := WriteWhere(PlainPredicates(f.predicates), Cons(Semicolon, Nil));
    var end := WriteOutput(PlainOutput(f.output), clause);
    var close := Cons(RParen, end);
    var dots := WriteVariadic(f.isVariadic, |f.inputs| > 0, close);
    WhereIsText(f.predicates, Cons(Semicolon, Nil));
    OutputIsText(f.output, true, clause);
    VariadicText(f.isVariadic, |f.inputs| > 0, close);
    InputsAreText(f.inputs, dots);
    NoText();
    TextCons(Semicolon, Nil);
    assert ";" + "" == ";";
    TextCons(RParen, end);
    TextCons(LParen, WriteInputs(PlainInputs(f.inputs), dots));
  }

  lemma SignatureIsText(name: string, f: Function, isPublic: bool)
    requires LegibleSignature(PlainSignature(name, f, isPublic))
    ensures RenderWith(name, f, isPublic, {}) == Text(WriteSignature(PlainSignature(name, f, isPublic)))
  {
    hide RenderHeader, WriteHeader, PlainHeader, RenderParams, PlainParams, WriteGenerics, RenderInputs, WriteInputs, PlainInputs, Enclose, Variadic, WriteVariadic;
    hide RenderOutput, WriteOutput, PlainOutput, RenderWhere, WriteWhere, PlainPredicates, Join, Text, ClassOf;
    hide LegibleHeader, LegibleParams, LegibleInputs, LegibleOutput, LegiblePredicates;
    var tail := WriteTail(PlainInputs(f.inputs), f.isVariadic, PlainOutput(f.output), PlainPredicates(f.predicates));
    var generics := WriteGenerics(PlainParams(f.params), tail);
    var item := Cons(FnItem, Cons(Word(name), generics));
    var declared := WriteHeader(PlainHeader(f.header), item);
    TailIsText(f);
    GenericsAreText(f.params, tail);
    HeaderText(f.header, item);
    TextCons(Word(name), generics);
    TextCons(FnItem, Cons(Word(name), generics));
    TextCons(Pub, declared);
    assert "" + Text(declared) == Text(declared);
    DeclarationParts(if isPublic then "pub " else "", RenderHeader(f.header), name, Enclose("<", RenderParams(f.params, {}), ", ", ">"),
                     Join(RenderInputs(f.inputs, {}), ", "), Variadic(f.isVariadic, |f.inputs| > 0), RenderOutput(f.output, {}), RenderWhere(f.predicates, {}));
  }

  /** A declaration is the text of the signature left after the synthetic lifetimes are erased, and reading it gives that signature iff it is legible. */
  lemma FunctionIsReadBack(name: string, f: Function, isPublic: bool)
    ensures var s := PlainSignature(name, EraseFunction(f, Synthetic(f.params)), isPublic);
            && (LegibleSignature(s) ==> RenderFunction(name, f, isPublic) == Text(WriteSignature(s)))
            && (ReadSignature(WriteSignature(s)) == Read(s, Nil) <==> LegibleSignature(s))
  {
    hide RenderFunction, RenderWith, EraseFunction, PlainSignature, LegibleSignature, WriteSignature, ReadSignature;
    var g := EraseFunction(f, Synthetic(f.params));
    AsyncTraitPrintsErased(name, f, isPublic);
    if LegibleSignature(PlainSignature(name, g, isPublic)) {
      SignatureIsText(name, g, isPublic);
      SignatureReads(PlainSignature(name, g, isPublic));
    }
  }

  /** The lifetime of a receiver is lost: with and without it the text is the same. */
  lemma ReceiverLosesLifetime(lifetime: Option<string>, isMutable: bool, elided: set<string>)
    ensures RenderInput(("self", BorrowedRef(lifetime, isMutable, Generic("Self"))), elided) == if isMutable then "&mut self" else "&self"
  {
  }
}
