/**
  The `SafeDebug` derive macro (`typespec_macros::safe_debug`): from the attributes of a type, its variants and
  fields to a `match` whose arms print the safe fields. Patterns and arms are given a meaning, and the
  generated code is compared with what the attributes ask for.
  */
module SafeDebug {
  import opened Basics

  // ---------- Attributes ----------

  /** `#[safe...]` is a list holding a boolean literal, or malformed; other attributes are skipped. */
  datatype Attribute = Other | Safe(value: bool) | MalformedSafe

  datatype Attrs = Attrs(safe: Option<bool>)

  /** The positions of the malformed attributes, as `syn::Error::combine` gathers them. */
  datatype Error = BadAttributes(positions: seq<nat>) | Unsupported

  function LastSafe(attributes: seq<Attribute>): Option<bool> {
    if |attributes| == 0 then None
    else if attributes[|attributes| - 1].Safe? then Some(attributes[|attributes| - 1].value)
    else LastSafe(attributes[..|attributes| - 1])
  }

  function Malformed(attributes: seq<Attribute>): seq<nat> {
    if |attributes| == 0 then []
    else
      var before := Malformed(attributes[..|attributes| - 1]);
      if attributes[|attributes| - 1].MalformedSafe? then before + [|attributes| - 1] else before
  }

  function ReadAttrs(attributes: seq<Attribute>): Result<Attrs, Error> {
    if Malformed(attributes) == [] then Ok(Attrs(LastSafe(attributes))) else Err(BadAttributes(Malformed(attributes)))
  }

  /** The attribute at `i` says `value`, and none after it says anything. */
  predicate SaysLast(attributes: seq<Attribute>, i: nat, value: bool) {
    i < |attributes| && attributes[i] == Safe(value) && forall j :: i < j < |attributes| ==> !attributes[j].Safe?
  }

  ghost predicate SaysInTheEnd(attributes: seq<Attribute>, value: bool) {
    exists i: nat :: SaysLast(attributes, i, value)
  }

  lemma {:induction false} LastSafeIff(attributes: seq<Attribute>, value: bool)
    ensures LastSafe(attributes) == Some(value) <==> SaysInTheEnd(attributes, value)
  {
    if |attributes| == 0 {
    } else {
      var n := |attributes| - 1;
      LastSafeIff(attributes[..n], value);
      if attributes[n] == Safe(value) {
        assert SaysLast(attributes, n, value);
      }
      if SaysInTheEnd(attributes[..n], value) && !attributes[n].Safe? {
        var i: nat :| SaysLast(attributes[..n], i, value);
        assert SaysLast(attributes, i, value);
      }
      if SaysInTheEnd(attributes, value) && !attributes[n].Safe? {
        var i: nat :| SaysLast(attributes, i, value);
        assert SaysLast(attributes[..n], i, value);
      }
    }
  }

  /** The malformed attributes are reported in order, each once. */
  ghost predicate Reports(attributes: seq<Attribute>, positions: seq<nat>) {
    && (forall i, j :: 0 <= i < j < |positions| ==> positions[i] < positions[j])
    && (forall i: nat :: i in positions <==> i < |attributes| && attributes[i].MalformedSafe?)
  }

  lemma {:induction false} MalformedReports(attributes: seq<Attribute>)
    ensures Reports(attributes, Malformed(attributes))
  {
    if |attributes| == 0 {
    } else {
      var n := |attributes| - 1;
      MalformedReports(attributes[..n]);
      var before := Malformed(attributes[..n]);
      forall k | 0 <= k < |before|
        ensures before[k] < n
      {
        assert before[k] in before;
      }
    }
  }

  /** `from_attrs`: the last `safe` attribute counts, and every malformed one is reported. */
  method FromAttrs(attributes: seq<Attribute>) returns (result: Result<Attrs, Error>)
    ensures result == ReadAttrs(attributes)
    ensures result.Ok? <==> forall i :: 0 <= i < |attributes| ==> !attributes[i].MalformedSafe?
    ensures result.Ok? ==> forall value :: result.value.safe == Some(value) <==> SaysInTheEnd(attributes, value)
    ensures result.Err? ==> result.error.BadAttributes? && Reports(attributes, result.error.positions)
  {
    MalformedReports(attributes);
    assert Malformed(attributes) == [] <==> forall i :: 0 <= i < |attributes| ==> !attributes[i].MalformedSafe? by {
      assert Malformed(attributes) != [] ==> Malformed(attributes)[0] in Malformed(attributes);
    }
    forall value
      ensures LastSafe(attributes) == Some(value) <==> SaysInTheEnd(attributes, value)
    {
      LastSafeIff(attributes, value);
    }
    var attrs := Attrs(None);
    result := Ok(Attrs(None));
    for i := 0 to |attributes|
      invariant attrs == Attrs(LastSafe(attributes[..i]))
      invariant result.Ok? <==> Malformed(attributes[..i]) == []
      invariant result.Err? ==> result.error == BadAttributes(Malformed(attributes[..i]))
    {
      assert attributes[..i + 1][..i] == attributes[..i];
      match attributes[i] {
        case Other =>
        case Safe(value) =>
          attrs := attrs.(safe := Some(value));
        case MalformedSafe =>
          if result.Ok? {
            result := Err(BadAttributes([i]));
          } else {
            result := Err(BadAttributes(result.error.positions + [i]));
          }
      }
    }
    assert attributes[..|attributes|] == attributes;
    if result.Ok? {
      result := Ok(attrs);
    }
  }

  /** `update`: what `other` says wins. */
  function Updated(attrs: Attrs, other: Attrs): Attrs {
    if other.safe.Some? then attrs.(safe := other.safe) else attrs
  }

  /** `type_attrs.is_safe(field_attrs)` */
  predicate IsSafe(typeAttrs: Attrs, fieldAttrs: Attrs) {
    match fieldAttrs.safe
    case Some(value) => value
    case None => typeAttrs.safe == Some(true)
  }

  // ---------- Input: the type ----------

  datatype Field = Field(name: string, attributes: seq<Attribute>)

  datatype Shape = Named(fields: seq<Field>) | Unit | Unnamed(fields: seq<Field>)

  datatype Variant = Variant(name: string, attributes: seq<Attribute>, shape: Shape)

  datatype Data = Enum(variants: seq<Variant>) | Struct(shape: Shape) | Union

  datatype Input = Input(name: string, attributes: seq<Attribute>, data: Data)

  /** Cargo feature `debug`, and a compiler older than 1.82 (no non-exhaustive finisher for tuples). */
  datatype Config = Config(debug: bool, oldCompiler: bool)

  // ---------- Output: match arms ----------

  /** A bound identifier: a field's name, or `f` with a number. */
  datatype Ident = Name(name: string) | Numbered(number: nat)

  datatype Pattern =
    | NamedPattern(binders: seq<Ident>, rest: bool)
    | TuplePattern(binders: seq<Ident>, rest: bool)
    | UnitPattern

  /** `path pattern => print the values of these identifiers, then finish`. */
  datatype Arm = Arm(name: string, pattern: Pattern, printed: seq<Ident>, exhaustive: bool)

  /** The kept positions, or the error of the first field whose attributes are malformed. */
  function Kept(fields: seq<Field>, attrs: Attrs, config: Config): Result<seq<nat>, Error> {
    if |fields| == 0 then Ok([])
    else
      var before, i := Kept(fields[..|fields| - 1], attrs, config), |fields| - 1;
      if before.Err? then before
      else if config.debug then Ok(before.value + [i])
      else
        match ReadAttrs(fields[i].attributes)
        case Err(e) => Err(e)
        case Ok(own) => if IsSafe(attrs, own) then Ok(before.value + [i]) else before
  }

  function Names(fields: seq<Field>, kept: seq<nat>): (names: seq<Ident>)
    requires forall k :: 0 <= k < |kept| ==> kept[k] < |fields|
    ensures |names| == |kept| && forall k :: 0 <= k < |kept| ==> names[k] == Name(fields[kept[k]].name)
  {
    if |kept| == 0 then [] else Names(fields, kept[..|kept| - 1]) + [Name(fields[kept[|kept| - 1]].name)]
  }

  function Numbers(kept: seq<nat>): (numbers: seq<Ident>)
    ensures |numbers| == |kept| && forall k :: 0 <= k < |kept| ==> numbers[k] == Numbered(kept[k])
  {
    if |kept| == 0 then [] else Numbers(kept[..|kept| - 1]) + [Numbered(kept[|kept| - 1])]
  }

  function GenerateFields(name: string, attrs: Attrs, shape: Shape, config: Config): Result<Arm, Error> {
    if shape.Unit? then Ok(Arm(name, UnitPattern, [], true))
    else
      match Kept(shape.fields, attrs, config)
      case Err(e) => Err(e)
      case Ok(kept) =>
        KeptIncreases(shape.fields, attrs, config);
        var all := |kept| == |shape.fields|;
        if shape.Named? then Ok(Arm(name, NamedPattern(Names(shape.fields, kept), !all), Names(shape.fields, kept), all))
        else Ok(Arm(name, TuplePattern(Numbers(kept), !all), Numbers(kept), all || config.oldCompiler))
  }

  predicate Increasing(kept: seq<nat>, bound: nat) {
    && (forall k :: 0 <= k < |kept| ==> kept[k] < bound)
    && (forall j, k :: 0 <= j < k < |kept| ==> kept[j] < kept[k])
  }

  /** The kept positions are exactly those of the effectively safe fields, in order. */
  lemma {:induction false} KeptIncreases(fields: seq<Field>, attrs: Attrs, config: Config)
    ensures Kept(fields, attrs, config).Ok? ==> Increasing(Kept(fields, attrs, config).value, |fields|)
  {
    if |fields| == 0 {
    } else {
      KeptIncreases(fields[..|fields| - 1], attrs, config);
    }
  }

  function GenerateVariants(variants: seq<Variant>, typeAttrs: Attrs, config: Config): Result<seq<Arm>, Error> {
    if |variants| == 0 then Ok([])
    else
      var before, v := GenerateVariants(variants[..|variants| - 1], typeAttrs, config), variants[|variants| - 1];
      if before.Err? then before
      else
        match ReadAttrs(v.attributes)
        case Err(e) => Err(e)
        case Ok(own) =>
          match GenerateFields(v.name, Updated(own, typeAttrs), v.shape, config)
          case Err(e) => Err(e)
          case Ok(arm) => Ok(before.value + [arm])
  }

  function GenerateBody(input: Input, config: Config): Result<seq<Arm>, Error> {
    match ReadAttrs(input.attributes)
    case Err(e) => Err(e)
    case Ok(typeAttrs) =>
      match input.data
      case Enum(variants) => GenerateVariants(variants, typeAttrs, config)
      case Struct(shape) =>
        (match GenerateFields(input.name, typeAttrs, shape, config)
         case Err(e) => Err(e)
         case Ok(arm) => Ok([arm]))
      case Union => Err(Unsupported)
  }

  // ---------- Meaning of the generated code ----------

  datatype Payload<T> = NamedPayload(fields: seq<(string, T)>) | TuplePayload(values: seq<T>) | UnitPayload

  datatype Debug<T> =
    | DebugStruct(name: string, fields: seq<(string, T)>, exhaustive: bool)
    | DebugTuple(name: string, values: seq<T>, exhaustive: bool)
    | DebugUnit(name: string)

  /** Without `..` a pattern must mention every field. */
  predicate Matches<T>(pattern: Pattern, payload: Payload<T>) {
    match payload
    case NamedPayload(fields) => pattern.NamedPattern? && (pattern.rest || |pattern.binders| == |fields|)
    case TuplePayload(values) =>
      pattern.TuplePattern? && |pattern.binders| <= |values| && (pattern.rest || |pattern.binders| == |values|)
    case UnitPayload => pattern.UnitPattern?
  }

  function FieldValue<T>(fields: seq<(string, T)>, name: string): Option<T> {
    if |fields| == 0 then None
    else if fields[|fields| - 1].0 == name then Some(fields[|fields| - 1].1)
    else FieldValue(fields[..|fields| - 1], name)
  }

  function PositionOf(binders: seq<Ident>, ident: Ident): (i: nat)
    ensures i <= |binders| && (i < |binders| ==> binders[i] == ident)
    ensures forall k :: 0 <= k < i ==> binders[k] != ident
  {
    if |binders| == 0 then 0
    else
      var i := PositionOf(binders[..|binders| - 1], ident);
      if i < |binders| - 1 then i else if binders[|binders| - 1] == ident then |binders| - 1 else |binders|
  }

  /** What an identifier stands for: a named pattern binds by name, a tuple pattern by position. */
  function Bound<T>(pattern: Pattern, payload: Payload<T>, ident: Ident): Option<T>
    requires Matches(pattern, payload) && !payload.UnitPayload?
  {
    var i := PositionOf(pattern.binders, ident);
    if i == |pattern.binders| then None
    else if payload.TuplePayload? then Some(payload.values[i])
    else if ident.Name? then FieldValue(payload.fields, ident.name)
    else None
  }

  function PrintStruct<T>(pattern: Pattern, payload: Payload<T>, printed: seq<Ident>): Option<seq<(string, T)>>
    requires Matches(pattern, payload) && payload.NamedPayload?
  {
    if |printed| == 0 then Some([])
    else
      var before, ident := PrintStruct(pattern, payload, printed[..|printed| - 1]), printed[|printed| - 1];
      var value := Bound(pattern, payload, ident);
      if before.Some? && value.Some? && ident.Name? then Some(before.value + [(ident.name, value.value)]) else None
  }

  function PrintTuple<T>(pattern: Pattern, payload: Payload<T>, printed: seq<Ident>): Option<seq<T>>
    requires Matches(pattern, payload) && payload.TuplePayload?
  {
    if |printed| == 0 then Some([])
    else
      var before, value := PrintTuple(pattern, payload, printed[..|printed| - 1]), Bound(pattern, payload, printed[|printed| - 1]);
      if before.Some? && value.Some? then Some(before.value + [value.value]) else None
  }

  /** The generated `fmt` calls its formatter `f`, in the same scope as the identifiers an arm binds. */
  const FORMATTER := Name("f")

  /** Runs one arm on the fields of a value; `None` if it does not fit, or hides the formatter. */
  function RunArm<T>(arm: Arm, payload: Payload<T>): Option<Debug<T>> {
    if !Matches(arm.pattern, payload) then None
    else if payload.NamedPayload? && FORMATTER in arm.pattern.binders then None
    else
      match payload
      case UnitPayload => Some(DebugUnit(arm.name))
      case NamedPayload(_) =>
        (match PrintStruct(arm.pattern, payload, arm.printed)
         case None => None
         case Some(entries) => Some(DebugStruct(arm.name, entries, arm.exhaustive)))
      case TuplePayload(_) =>
        (match PrintTuple(arm.pattern, payload, arm.printed)
         case None => None
         case Some(values) => Some(DebugTuple(arm.name, values, arm.exhaustive)))
  }

  // ---------- What the attributes ask for ----------

  /** The field's own attribute, else the type's, else the variant's, else hidden. */
  predicate Shown(field: Field, typeAttributes: seq<Attribute>, variantAttributes: seq<Attribute>, config: Config) {
    config.debug ||
    match LastSafe(field.attributes)
    case Some(value) => value
    case None =>
      match LastSafe(typeAttributes)
      case Some(value) => value
      case None => LastSafe(variantAttributes) == Some(true)
  }

  /** The items that belong to shown fields, in order. */
  function ShownItems<X>(fields: seq<Field>, typeAttributes: seq<Attribute>, variantAttributes: seq<Attribute>, config: Config, items: seq<X>): (shown: seq<X>)
    requires |items| == |fields|
    ensures |shown| <= |items|
  {
    if |fields| == 0 then []
    else
      var n := |fields| - 1;
      var before := ShownItems(fields[..n], typeAttributes, variantAttributes, config, items[..n]);
      if Shown(fields[n], typeAttributes, variantAttributes, config) then before + [items[n]] else before
  }

  function Gather<X>(items: seq<X>, kept: seq<nat>): (gathered: seq<X>)
    requires forall k :: 0 <= k < |kept| ==> kept[k] < |items|
    ensures |gathered| == |kept| && forall k :: 0 <= k < |kept| ==> gathered[k] == items[kept[k]]
  {
    if |kept| == 0 then [] else Gather(items, kept[..|kept| - 1]) + [items[kept[|kept| - 1]]]
  }

  predicate Merged(attrs: Attrs, typeAttributes: seq<Attribute>, variantAttributes: seq<Attribute>) {
    attrs == Updated(Attrs(LastSafe(variantAttributes)), Attrs(LastSafe(typeAttributes)))
  }

  /** Merging the attribute records as the macro does gives the precedence field, type, variant. */
  lemma KeepsIff(field: Field, attrs: Attrs, config: Config, typeAttributes: seq<Attribute>, variantAttributes: seq<Attribute>)
    requires Merged(attrs, typeAttributes, variantAttributes)
    ensures config.debug ==> Shown(field, typeAttributes, variantAttributes, config)
    ensures ReadAttrs(field.attributes).Ok? && !config.debug ==>
              (IsSafe(attrs, ReadAttrs(field.attributes).value) <==> Shown(field, typeAttributes, variantAttributes, config))
  {
    hide LastSafe, Malformed;
  }

  /** The generator keeps exactly the shown fields. */
  lemma {:induction false} KeptAreShown<X>(fields: seq<Field>, attrs: Attrs, config: Config,
                                           typeAttributes: seq<Attribute>, variantAttributes: seq<Attribute>, items: seq<X>)
    requires Merged(attrs, typeAttributes, variantAttributes) && |items| == |fields| && Kept(fields, attrs, config).Ok?
    ensures Increasing(Kept(fields, attrs, config).value, |fields|)
    ensures Gather(items, Kept(fields, attrs, config).value) == ShownItems(fields, typeAttributes, variantAttributes, config, items)
  {
    KeptIncreases(fields, attrs, config);
    if |fields| == 0 {
      return;
    }
    hide Shown, ReadAttrs, IsSafe, Merged, Gather;
    var n := |fields| - 1;
    var kept := Kept(fields[..n], attrs, config).value;
    KeptAreShown(fields[..n], attrs, config, typeAttributes, variantAttributes, items[..n]);
    KeepsIff(fields[n], attrs, config, typeAttributes, variantAttributes);
    GatherShorter(items, n, kept);
    GatherLast(items, kept, n);
  }

  lemma {:induction false} KeptMembers(fields: seq<Field>, attrs: Attrs, config: Config,
                                       typeAttributes: seq<Attribute>, variantAttributes: seq<Attribute>, i: nat)
    requires Merged(attrs, typeAttributes, variantAttributes) && Kept(fields, attrs, config).Ok? && i < |fields|
    ensures i in Kept(fields, attrs, config).value <==> Shown(fields[i], typeAttributes, variantAttributes, config)
  {
    hide Shown, ReadAttrs, IsSafe, Merged;
    var n := |fields| - 1;
    KeptIncreases(fields[..n], attrs, config);
    KeepsIff(fields[n], attrs, config, typeAttributes, variantAttributes);
    if i < n {
      KeptMembers(fields[..n], attrs, config, typeAttributes, variantAttributes, i);
      assert fields[..n][i] == fields[i];
    }
  }

  lemma GatherShorter<X>(items: seq<X>, n: nat, kept: seq<nat>)
    requires n <= |items| && forall k :: 0 <= k < |kept| ==> kept[k] < n
    ensures Gather(items[..n], kept) == Gather(items, kept)
  {
  }

  lemma GatherLast<X>(items: seq<X>, kept: seq<nat>, i: nat)
    requires i < |items| && forall k :: 0 <= k < |kept| ==> kept[k] < |items|
    ensures Gather(items, kept + [i]) == Gather(items, kept) + [items[i]]
  {
  }

  // ---------- Named fields ----------

  ghost predicate DistinctNames(fields: seq<Field>) {
    forall i, j :: 0 <= i < j < |fields| ==> fields[i].name != fields[j].name
  }

  /** A payload with a value for each declared field. */
  ghost predicate NamedLike<T>(fields: seq<Field>, values: seq<(string, T)>) {
    |values| == |fields| && forall i :: 0 <= i < |fields| ==> values[i].0 == fields[i].name
  }

  lemma {:induction false} FieldValueAt<T>(fields: seq<Field>, values: seq<(string, T)>, i: nat)
    requires DistinctNames(fields) && NamedLike(fields, values) && i < |fields|
    ensures FieldValue(values, fields[i].name) == Some(values[i].1)
  {
    var n := |fields| - 1;
    if i < n {
      FieldValueAt(fields[..n], values[..n], i);
    }
  }

  lemma {:induction false} PrintsByName<T>(fields: seq<Field>, values: seq<(string, T)>, kept: seq<nat>, rest: bool, m: nat)
    requires DistinctNames(fields) && NamedLike(fields, values) && Increasing(kept, |fields|) && m <= |kept|
    requires Matches(NamedPattern(Names(fields, kept), rest), NamedPayload(values))
    ensures PrintStruct(NamedPattern(Names(fields, kept), rest), NamedPayload(values), Names(fields, kept)[..m]) == Some(Gather(values, kept)[..m])
  {
    hide Gather, Names, Bound, DistinctNames;
    if m == 0 {
    } else {
      var names := Names(fields, kept);
      PrintsByName(fields, values, kept, rest, m - 1);
      assert names[..m][..m - 1] == names[..m - 1];
      BoundByName(fields, values, kept, rest, m - 1);
      assert Gather(values, kept)[..m - 1] + [values[kept[m - 1]]] == Gather(values, kept)[..m];
    }
  }

  lemma BoundByName<T>(fields: seq<Field>, values: seq<(string, T)>, kept: seq<nat>, rest: bool, k: nat)
    requires DistinctNames(fields) && NamedLike(fields, values) && Increasing(kept, |fields|) && k < |kept|
    requires Matches(NamedPattern(Names(fields, kept), rest), NamedPayload(values))
    ensures Names(fields, kept)[k] == Name(values[kept[k]].0)
    ensures Bound(NamedPattern(Names(fields, kept), rest), NamedPayload(values), Names(fields, kept)[k]) == Some(values[kept[k]].1)
  {
    hide Names, FieldValue, PositionOf;
    FieldValueAt(fields, values, kept[k]);
  }

  /** A shown field is called like the formatter. */
  ghost predicate HidesFormatter(fields: seq<Field>, typeAttributes: seq<Attribute>, variantAttributes: seq<Attribute>, config: Config) {
    exists i :: 0 <= i < |fields| && fields[i].name == FORMATTER.name && Shown(fields[i], typeAttributes, variantAttributes, config)
  }

  lemma HidesIff(fields: seq<Field>, attrs: Attrs, config: Config, typeAttributes: seq<Attribute>, variantAttributes: seq<Attribute>)
    requires Merged(attrs, typeAttributes, variantAttributes) && Kept(fields, attrs, config).Ok?
    ensures Increasing(Kept(fields, attrs, config).value, |fields|)
    ensures FORMATTER in Names(fields, Kept(fields, attrs, config).value) <==> HidesFormatter(fields, typeAttributes, variantAttributes, config)
  {
    hide Merged, Kept, Shown, Names;
    KeptIncreases(fields, attrs, config);
    var kept := Kept(fields, attrs, config).value;
    forall i | 0 <= i < |fields|
      ensures i in kept <==> Shown(fields[i], typeAttributes, variantAttributes, config)
    {
      KeptMembers(fields, attrs, config, typeAttributes, variantAttributes, i);
    }
    if FORMATTER in Names(fields, kept) {
      var k :| 0 <= k < |kept| && Names(fields, kept)[k] == FORMATTER;
      assert kept[k] in kept;
    }
    if HidesFormatter(fields, typeAttributes, variantAttributes, config) {
      var i :| 0 <= i < |fields| && fields[i].name == FORMATTER.name && Shown(fields[i], typeAttributes, variantAttributes, config);
      var k :| 0 <= k < |kept| && kept[k] == i;
      assert Names(fields, kept)[k] == FORMATTER;
    }
  }

  /**
    For every value of a shape with named fields, the generated arm prints exactly the shown fields with their own names and
    values in declaration order, and says that something is left out iff some field is not shown; unless a shown field
    is called like the formatter, when the arm does not work at all.
    */
  lemma NamedArmIsRightIff<T>(name: string, attrs: Attrs, fields: seq<Field>, config: Config,
                              typeAttributes: seq<Attribute>, variantAttributes: seq<Attribute>, values: seq<(string, T)>)
    requires Merged(attrs, typeAttributes, variantAttributes) && DistinctNames(fields) && NamedLike(fields, values)
    requires GenerateFields(name, attrs, Named(fields), config).Ok?
    ensures var shown := ShownItems(fields, typeAttributes, variantAttributes, config, values);
            (RunArm(GenerateFields(name, attrs, Named(fields), config).value, NamedPayload(values)) ==
             Some(DebugStruct(name, shown, |shown| == |fields|)))
            <==> !HidesFormatter(fields, typeAttributes, variantAttributes, config)
  {
    hide Merged, Kept, PrintStruct, ShownItems, Gather, Names, HidesFormatter;
    var kept := Kept(fields, attrs, config).value;
    KeptAreShown(fields, attrs, config, typeAttributes, variantAttributes, values);
    HidesIff(fields, attrs, config, typeAttributes, variantAttributes);
    PrintsByName(fields, values, kept, |kept| != |fields|, |kept|);
    assert Names(fields, kept)[..|kept|] == Names(fields, kept);
    assert Gather(values, kept)[..|kept|] == Gather(values, kept);
  }

  // ---------- Tuples ----------

  lemma {:induction false} PrintsByPosition<T>(kept: seq<nat>, rest: bool, values: seq<T>, m: nat)
    requires Increasing(kept, |values|) && m <= |kept| <= |values|
    requires Matches(TuplePattern(Numbers(kept), rest), TuplePayload(values))
    ensures PrintTuple(TuplePattern(Numbers(kept), rest), TuplePayload(values), Numbers(kept)[..m]) == Some(values[..m])
  {
    hide Numbers;
    if m == 0 {
    } else {
      var numbers := Numbers(kept);
      PrintsByPosition(kept, rest, values, m - 1);
      assert numbers[..m][..m - 1] == numbers[..m - 1];
      assert PositionOf(numbers, Numbered(kept[m - 1])) == m - 1;
      assert values[..m - 1] + [values[m - 1]] == values[..m];
    }
  }

  lemma {:induction false} IncreasingFits(kept: seq<nat>, bound: nat)
    requires Increasing(kept, bound)
    ensures |kept| <= bound && forall k :: 0 <= k < |kept| ==> k <= kept[k]
  {
    if |kept| == 0 {
    } else {
      var n := |kept| - 1;
      IncreasingFits(kept[..n], kept[n]);
      assert forall k :: 0 <= k < n ==> kept[..n][k] == kept[k];
    }
  }

  /** A tuple arm prints the first fields, as many as there are shown ones. */
  lemma TupleArm<T>(name: string, attrs: Attrs, fields: seq<Field>, config: Config, values: seq<T>)
    requires GenerateFields(name, attrs, Unnamed(fields), config).Ok? && |values| == |fields|
    ensures var kept := Kept(fields, attrs, config).value;
            && |kept| <= |fields|
            && RunArm(GenerateFields(name, attrs, Unnamed(fields), config).value, TuplePayload(values)) ==
               Some(DebugTuple(name, values[..|kept|], |kept| == |fields| || config.oldCompiler))
  {
    hide Kept, PrintTuple, Numbers;
    var kept := Kept(fields, attrs, config).value;
    KeptIncreases(fields, attrs, config);
    IncreasingFits(kept, |fields|);
    PrintsByPosition(kept, |kept| != |fields|, values, |kept|);
    assert Numbers(kept)[..|kept|] == Numbers(kept);
  }

  /** No shown field comes after a hidden one. */
  ghost predicate ShownPrefix(fields: seq<Field>, typeAttributes: seq<Attribute>, variantAttributes: seq<Attribute>, config: Config) {
    forall i, j :: 0 <= i < j < |fields| && Shown(fields[j], typeAttributes, variantAttributes, config) ==>
                     Shown(fields[i], typeAttributes, variantAttributes, config)
  }

  ghost predicate InPlace(kept: seq<nat>) {
    forall k :: 0 <= k < |kept| ==> kept[k] == k
  }

  lemma {:induction false} InPlaceUpTo(kept: seq<nat>, bound: nat, m: nat)
    requires Increasing(kept, bound) && m <= |kept|
    requires forall i, j :: 0 <= i < j < bound && j in kept ==> i in kept
    ensures forall k :: 0 <= k < m ==> kept[k] == k
  {
    if m == 0 {
    } else {
      InPlaceUpTo(kept, bound, m - 1);
      IncreasingFits(kept, bound);
      var k := m - 1;
      assert kept[k] in kept;
      assert kept[k] > k ==> k in kept;
    }
  }

  lemma InPlaceIff(fields: seq<Field>, attrs: Attrs, config: Config, typeAttributes: seq<Attribute>, variantAttributes: seq<Attribute>)
    requires Merged(attrs, typeAttributes, variantAttributes) && Kept(fields, attrs, config).Ok?
    ensures InPlace(Kept(fields, attrs, config).value) <==> ShownPrefix(fields, typeAttributes, variantAttributes, config)
  {
    hide Merged, Kept, Shown;
    var kept := Kept(fields, attrs, config).value;
    KeptIncreases(fields, attrs, config);
    forall i | 0 <= i < |fields|
      ensures i in kept <==> Shown(fields[i], typeAttributes, variantAttributes, config)
    {
      KeptMembers(fields, attrs, config, typeAttributes, variantAttributes, i);
    }
    if ShownPrefix(fields, typeAttributes, variantAttributes, config) {
      InPlaceUpTo(kept, |fields|, |kept|);
    }
    if InPlace(kept) {
      forall i, j | 0 <= i < j < |fields| && j in kept
        ensures i in kept
      {
        assert kept[i] == i;
      }
    }
  }

  function Filled<T>(n: nat, k: nat, special: T, plain: T): (values: seq<T>)
    ensures |values| == n && forall i :: 0 <= i < n ==> values[i] == if i == k then special else plain
  {
    if n == 0 then [] else Filled(n - 1, k, special, plain) + [if n - 1 == k then special else plain]
  }

  /** The first values and the kept values coincide for every tuple iff the kept positions are the first ones. */
  lemma FirstAreKeptIff<T(!new)>(kept: seq<nat>, n: nat, a: T, b: T)
    requires Increasing(kept, n) && |kept| <= n && a != b
    ensures (forall values: seq<T> :: |values| == n ==> values[..|kept|] == Gather(values, kept)) <==> InPlace(kept)
  {
    hide Gather, Filled;
    if InPlace(kept) {
      forall values: seq<T> | |values| == n
        ensures values[..|kept|] == Gather(values, kept)
      {
      }
    } else {
      var k :| 0 <= k < |kept| && kept[k] != k;
      var values := Filled(n, k, a, b);
      assert values[..|kept|][k] == a && Gather(values, kept)[k] == b;
    }
  }

  /** What a tuple shape ought to print. */
  function TupleDebug<T>(name: string, fields: seq<Field>, typeAttributes: seq<Attribute>, variantAttributes: seq<Attribute>,
                         config: Config, values: seq<T>): Debug<T>
    requires |values| == |fields|
  {
    var shown := ShownItems(fields, typeAttributes, variantAttributes, config, values);
    DebugTuple(name, shown, |shown| == |fields| || config.oldCompiler)
  }

  /** For tuple shapes the arm is right for every value iff no shown field comes after a hidden one. */
  lemma TupleArmIsRightIff<T(!new)>(name: string, attrs: Attrs, fields: seq<Field>, config: Config,
                                    typeAttributes: seq<Attribute>, variantAttributes: seq<Attribute>, a: T, b: T)
    requires Merged(attrs, typeAttributes, variantAttributes) && a != b
    requires GenerateFields(name, attrs, Unnamed(fields), config).Ok?
    ensures (forall values: seq<T> :: |values| == |fields| ==>
               RunArm(GenerateFields(name, attrs, Unnamed(fields), config).value, TuplePayload(values)) ==
               Some(TupleDebug(name, fields, typeAttributes, variantAttributes, config, values)))
            <==> ShownPrefix(fields, typeAttributes, variantAttributes, config)
  {
    var kept := Kept(fields, attrs, config).value;
    KeptIncreases(fields, attrs, config);
    IncreasingFits(kept, |fields|);
    InPlaceIff(fields, attrs, config, typeAttributes, variantAttributes);
    FirstAreKeptIff(kept, |fields|, a, b);
    hide Merged, Kept, RunArm, GenerateFields, ShownItems, Gather, ShownPrefix, InPlace;
    forall values: seq<T> | |values| == |fields|
      ensures RunArm(GenerateFields(name, attrs, Unnamed(fields), config).value, TuplePayload(values)) ==
              Some(TupleDebug(name, fields, typeAttributes, variantAttributes, config, values))
              <==> values[..|kept|] == Gather(values, kept)
    {
      TupleArm(name, attrs, fields, config, values);
      KeptAreShown(fields, attrs, config, typeAttributes, variantAttributes, values);
    }
  }

  // ---------- Whole types ----------

  /** A struct counts as its own only variant, without variant attributes. */
  function VariantsOf(input: Input): seq<Variant>
    requires !input.data.Union?
  {
    if input.data.Enum? then input.data.variants else [Variant(input.name, [], input.data.shape)]
  }

  datatype Value<T> = Value(variant: string, payload: Payload<T>)

  /** `match self`: the first arm whose path names the variant. */
  function RunMatch<T>(arms: seq<Arm>, value: Value<T>): Option<Debug<T>> {
    if |arms| == 0 then None
    else if arms[0].name == value.variant then RunArm(arms[0], value.payload)
    else RunMatch(arms[1..], value)
  }

  ghost predicate DistinctVariants(variants: seq<Variant>) {
    forall i, j :: 0 <= i < j < |variants| ==> variants[i].name != variants[j].name
  }

  ghost predicate WellFormed(input: Input) {
    && !input.data.Union?
    && DistinctVariants(VariantsOf(input))
    && forall k :: 0 <= k < |VariantsOf(input)| ==> VariantsOf(input)[k].shape.Named? ==> DistinctNames(VariantsOf(input)[k].shape.fields)
  }

  ghost predicate PayloadLike<T>(shape: Shape, payload: Payload<T>) {
    match payload
    case NamedPayload(values) => shape.Named? && NamedLike(shape.fields, values)
    case TuplePayload(values) => shape.Unnamed? && |values| == |shape.fields|
    case UnitPayload => shape.Unit?
  }

  /** What the value of a variant ought to print. */
  ghost function ExpectedDebug<T>(v: Variant, typeAttributes: seq<Attribute>, config: Config, payload: Payload<T>): Debug<T>
    requires PayloadLike(v.shape, payload)
  {
    match payload
    case UnitPayload => DebugUnit(v.name)
    case NamedPayload(values) =>
      var shown := ShownItems(v.shape.fields, typeAttributes, v.attributes, config, values);
      DebugStruct(v.name, shown, |shown| == |values|)
    case TuplePayload(values) => TupleDebug(v.name, v.shape.fields, typeAttributes, v.attributes, config, values)
  }

  function MergedAttrs(input: Input, v: Variant): Attrs {
    Updated(Attrs(LastSafe(v.attributes)), Attrs(LastSafe(input.attributes)))
  }

  lemma {:induction false} VariantArms(variants: seq<Variant>, typeAttrs: Attrs, config: Config, k: nat)
    requires GenerateVariants(variants, typeAttrs, config).Ok? && k < |variants|
    ensures |GenerateVariants(variants, typeAttrs, config).value| == |variants|
    ensures GenerateFields(variants[k].name, Updated(Attrs(LastSafe(variants[k].attributes)), typeAttrs), variants[k].shape, config) ==
            Ok(GenerateVariants(variants, typeAttrs, config).value[k])
  {
    hide GenerateFields;
    var n := |variants| - 1;
    if n == 0 {
    } else {
      VariantArms(variants[..n], typeAttrs, config, if k < n then k else 0);
    }
  }

  /** Each variant has its own arm, in order, generated from its attributes merged with the type's. */
  lemma BodyArms(input: Input, config: Config, k: nat)
    requires !input.data.Union? && GenerateBody(input, config).Ok? && k < |VariantsOf(input)|
    ensures |GenerateBody(input, config).value| == |VariantsOf(input)|
    ensures var v := VariantsOf(input)[k];
            GenerateFields(v.name, MergedAttrs(input, v), v.shape, config) == Ok(GenerateBody(input, config).value[k])
  {
    hide GenerateFields, LastSafe, Malformed;
    if input.data.Enum? {
      VariantArms(input.data.variants, Attrs(LastSafe(input.attributes)), config, k);
    } else {
      assert LastSafe([]) == None by {
        LastSafeOfNone();
      }
    }
  }

  lemma LastSafeOfNone()
    ensures LastSafe([]) == None
  {
  }

  lemma {:induction false} MatchPicks<T>(arms: seq<Arm>, value: Value<T>, k: nat)
    requires k < |arms| && arms[k].name == value.variant && forall i :: 0 <= i < k ==> arms[i].name != value.variant
    ensures RunMatch(arms, value) == RunArm(arms[k], value.payload)
  {
    if k == 0 {
    } else {
      MatchPicks(arms[1..], value, k - 1);
    }
  }

  lemma BodyPicks<T>(input: Input, config: Config, k: nat, payload: Payload<T>)
    requires WellFormed(input) && GenerateBody(input, config).Ok? && k < |VariantsOf(input)|
    ensures var v := VariantsOf(input)[k];
            && GenerateFields(v.name, MergedAttrs(input, v), v.shape, config).Ok?
            && RunMatch(GenerateBody(input, config).value, Value(v.name, payload)) ==
               RunArm(GenerateFields(v.name, MergedAttrs(input, v), v.shape, config).value, payload)
  {
    hide GenerateBody, RunArm, MergedAttrs;
    var arms, variants := GenerateBody(input, config).value, VariantsOf(input);
    forall i | 0 <= i < |variants|
      ensures |arms| == |variants| && arms[i].name == variants[i].name
    {
      BodyArms(input, config, i);
      ArmName(variants[i].name, MergedAttrs(input, variants[i]), variants[i].shape, config);
    }
    BodyArms(input, config, k);
    MatchPicks(arms, Value(variants[k].name, payload), k);
  }

  lemma ArmName(name: string, attrs: Attrs, shape: Shape, config: Config)
    ensures GenerateFields(name, attrs, shape, config).Ok? ==> GenerateFields(name, attrs, shape, config).value.name == name
  {
  }

  /** The condition under which a variant's arm is right. */
  ghost predicate ArmIsSound(v: Variant, typeAttributes: seq<Attribute>, config: Config) {
    && (v.shape.Named? ==> !HidesFormatter(v.shape.fields, typeAttributes, v.attributes, config))
    && (v.shape.Unnamed? ==> ShownPrefix(v.shape.fields, typeAttributes, v.attributes, config))
  }

  /**
    The derived `Debug` of every type that the macro accepts prints, for all values of a variant, exactly what the attributes
    ask for iff: in a variant with named fields no shown field is called `f`, and in a tuple variant no shown field
    comes after a hidden one.
    */
  lemma DerivedDebugIsRightIff<T(!new)>(input: Input, config: Config, k: nat, a: T, b: T)
    requires WellFormed(input) && GenerateBody(input, config).Ok? && k < |VariantsOf(input)| && a != b
    ensures var v := VariantsOf(input)[k];
            (forall payload: Payload<T> :: PayloadLike(v.shape, payload) ==>
               RunMatch(GenerateBody(input, config).value, Value(v.name, payload)) ==
               Some(ExpectedDebug(v, input.attributes, config, payload)))
            <==> ArmIsSound(v, input.attributes, config)
  {
    var v := VariantsOf(input)[k];
    var attrs := MergedAttrs(input, v);
    assert Merged(attrs, input.attributes, v.attributes);
    hide GenerateBody, RunMatch, ShownPrefix, HidesFormatter, Merged, MergedAttrs, ShownItems;
    var arm := GenerateFields(v.name, attrs, v.shape, config);
    forall payload: Payload<T>
      ensures arm.Ok? && RunMatch(GenerateBody(input, config).value, Value(v.name, payload)) == RunArm(arm.value, payload)
    {
      BodyPicks(input, config, k, payload);
    }
    BodyPicks(input, config, k, TuplePayload([a]));
    if v.shape.Unnamed? {
      TupleArmIsRightIff(v.name, attrs, v.shape.fields, config, input.attributes, v.attributes, a, b);
      TuplePayloads<T>(v, input, config, arm.value);
    } else if v.shape.Named? {
      NamedPayloads(v, attrs, input, config, a);
    }
  }

  function Sample<T>(fields: seq<Field>, value: T): (values: seq<(string, T)>)
    ensures |values| == |fields| && forall i :: 0 <= i < |fields| ==> values[i] == (fields[i].name, value)
  {
    if |fields| == 0 then [] else Sample(fields[..|fields| - 1], value) + [(fields[|fields| - 1].name, value)]
  }

  lemma NamedPayloads<T(!new)>(v: Variant, attrs: Attrs, input: Input, config: Config, a: T)
    requires v.shape.Named? && Merged(attrs, input.attributes, v.attributes) && DistinctNames(v.shape.fields)
    requires GenerateFields(v.name, attrs, v.shape, config).Ok?
    ensures (forall payload: Payload<T> :: PayloadLike(v.shape, payload) ==>
               RunArm(GenerateFields(v.name, attrs, v.shape, config).value, payload) ==
               Some(ExpectedDebug(v, input.attributes, config, payload)))
            <==> !HidesFormatter(v.shape.fields, input.attributes, v.attributes, config)
  {
    hide RunArm, GenerateFields, HidesFormatter, Merged, ShownItems, DistinctNames, Sample;
    forall payload: Payload<T> | PayloadLike(v.shape, payload)
      ensures RunArm(GenerateFields(v.name, attrs, v.shape, config).value, payload) ==
              Some(ExpectedDebug(v, input.attributes, config, payload))
              <==> !HidesFormatter(v.shape.fields, input.attributes, v.attributes, config)
    {
      NamedArmIsRightIff(v.name, attrs, v.shape.fields, config, input.attributes, v.attributes, payload.fields);
    }
    assert PayloadLike(v.shape, NamedPayload(Sample(v.shape.fields, a)));
  }

  lemma TuplePayloads<T(!new)>(v: Variant, input: Input, config: Config, arm: Arm)
    requires v.shape.Unnamed?
    ensures (forall payload: Payload<T> :: PayloadLike(v.shape, payload) ==>
               RunArm(arm, payload) == Some(ExpectedDebug(v, input.attributes, config, payload)))
            <==> (forall values: seq<T> :: |values| == |v.shape.fields| ==>
                    RunArm(arm, TuplePayload(values)) == Some(TupleDebug(v.name, v.shape.fields, input.attributes, v.attributes, config, values)))
  {
    hide RunArm, TupleDebug;
    forall values: seq<T> | |values| == |v.shape.fields|
      ensures PayloadLike(v.shape, TuplePayload(values))
      ensures ExpectedDebug(v, input.attributes, config, TuplePayload(values)) ==
              TupleDebug(v.name, v.shape.fields, input.attributes, v.attributes, config, values)
    {
    }
    forall payload: Payload<T> | PayloadLike(v.shape, payload)
      ensures payload.TuplePayload? && payload == TuplePayload(payload.values)
    {
    }
  }

  const SECOND_SAFE := [Field("0", []), Field("1", [Safe(true)])]

  lemma SecondKept<X>(config: Config, items: seq<X>)
    requires !config.debug && |items| == 2
    ensures Kept(SECOND_SAFE, Attrs(None), config) == Ok([1])
    ensures !Shown(SECOND_SAFE[0], [], [], config) && Shown(SECOND_SAFE[1], [], [], config)
    ensures ShownItems(SECOND_SAFE, [], [], config, items) == [items[1]]
  {
    var first := SECOND_SAFE[..1];
    assert first == [Field("0", [])] && first[..0] == [];
    assert [Safe(true)][..0] == [];
    assert ReadAttrs(SECOND_SAFE[1].attributes) == Ok(Attrs(Some(true)));
    assert Kept(first, Attrs(None), config) == Ok([]);
    assert Kept(SECOND_SAFE, Attrs(None), config).value == [1];
    assert ShownItems(first, [], [], config, items[..1]) == [];
  }

  /** With the first of two tuple fields hidden and the second safe, the hidden one is printed in its place. */
  lemma TupleMisprints<T>(name: string, hidden: T, safe: T, config: Config)
    requires !config.debug
    ensures GenerateFields(name, Attrs(None), Unnamed(SECOND_SAFE), config).Ok?
    ensures RunArm(GenerateFields(name, Attrs(None), Unnamed(SECOND_SAFE), config).value, TuplePayload([hidden, safe])) ==
            Some(DebugTuple(name, [hidden], config.oldCompiler))
    ensures TupleDebug(name, SECOND_SAFE, [], [], config, [hidden, safe]).values == [safe]
  {
    SecondKept(config, [hidden, safe]);
    hide Kept, RunArm, ShownItems, Numbers;
    TupleArm(name, Attrs(None), SECOND_SAFE, config, [hidden, safe]);
    assert [hidden, safe][..1] == [hidden];
  }

  // ---------- Which types are accepted ----------

  predicate FieldsReadable(fields: seq<Field>) {
    forall i :: 0 <= i < |fields| ==> Malformed(fields[i].attributes) == []
  }

  lemma {:induction false} KeptOkIff(fields: seq<Field>, attrs: Attrs, config: Config)
    ensures Kept(fields, attrs, config).Ok? <==> config.debug || FieldsReadable(fields)
  {
    hide Malformed, LastSafe, IsSafe;
    if |fields| == 0 {
    } else {
      KeptOkIff(fields[..|fields| - 1], attrs, config);
    }
  }

  predicate VariantReadable(v: Variant, config: Config) {
    Malformed(v.attributes) == [] && (v.shape.Unit? || config.debug || FieldsReadable(v.shape.fields))
  }

  lemma {:induction false} VariantsOkIff(variants: seq<Variant>, typeAttrs: Attrs, config: Config)
    ensures GenerateVariants(variants, typeAttrs, config).Ok? <==> forall k :: 0 <= k < |variants| ==> VariantReadable(variants[k], config)
  {
    hide Malformed, LastSafe, FieldsReadable, Kept, Names, Numbers;
    if |variants| == 0 {
    } else {
      var v := variants[|variants| - 1];
      VariantsOkIff(variants[..|variants| - 1], typeAttrs, config);
      if !v.shape.Unit? {
        KeptOkIff(v.shape.fields, Updated(Attrs(LastSafe(v.attributes)), typeAttrs), config);
      }
    }
  }

  /** The macro fails exactly for a union and for a malformed attribute it looks at; the `debug` feature skips those of fields. */
  lemma AcceptedIff(input: Input, config: Config)
    ensures GenerateBody(input, config).Ok? <==>
            && !input.data.Union?
            && Malformed(input.attributes) == []
            && forall k :: 0 <= k < |VariantsOf(input)| ==> VariantReadable(VariantsOf(input)[k], config)
  {
    hide Malformed, LastSafe, FieldsReadable, Kept, Names, Numbers;
    var typeAttrs := Attrs(LastSafe(input.attributes));
    match input.data {
      case Enum(variants) =>
        VariantsOkIff(variants, typeAttrs, config);
        assert VariantsOf(input) == variants;
        assert Malformed(input.attributes) == [] ==> GenerateBody(input, config) == GenerateVariants(variants, typeAttrs, config);
      case Struct(shape) =>
        if !shape.Unit? {
          KeptOkIff(shape.fields, typeAttrs, config);
        }
        MalformedOfNone();
        var v := VariantsOf(input)[0];
        assert GenerateBody(input, config).Ok? ==> VariantReadable(v, config);
        assert VariantReadable(v, config) && Malformed(input.attributes) == [] ==> GenerateBody(input, config).Ok?;
      case Union =>
    }
  }

  lemma MalformedOfNone()
    ensures Malformed([]) == []
  {
  }

  const CALLED_F := [Field("f", [Safe(true)])]

  /** A safe field called `f` is not printed: its name hides the formatter. */
  lemma FieldCalledF<T>(name: string, value: T, config: Config)
    ensures GenerateFields(name, Attrs(None), Named(CALLED_F), config).Ok?
    ensures RunArm(GenerateFields(name, Attrs(None), Named(CALLED_F), config).value, NamedPayload([("f", value)])) !=
            Some(DebugStruct(name, [("f", value)], true))
  {
    assert [Safe(true)][..0] == [];
    assert FieldsReadable(CALLED_F);
    KeptOkIff(CALLED_F, Attrs(None), config);
    assert Shown(CALLED_F[0], [], [], config);
    hide Kept, RunArm, Malformed, Shown, Names;
    var values := [("f", value)];
    NamedArmIsRightIff(name, Attrs(None), CALLED_F, config, [], [], values);
    assert ShownItems(CALLED_F, [], [], config, values) == values;
  }
}
