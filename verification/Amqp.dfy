/** AMQP values and the list form of composite types (`azure_core_amqp::value`, OASIS AMQP 1.0 Part 1 section 1.4). */
module Amqp {
  import opened Basics

  datatype Descriptor = Code(code: U64) | Name(name: string)

  /** Floats, decimals, timestamps and UUIDs are opaque: their bits or ticks. A map keeps its entries in order. */
  datatype Value =
    | Null
    | Boolean(b: bool)
    | UByte(u8: U8) | UShort(u16: U16) | UInt(u32: U32) | ULong(u64: U64)
    | Byte(i8: I8) | Short(i16: I16) | Int(i32: I32) | Long(i64: I64)
    | Float(bits32: U32) | Double(bits64: U64)
    | Char(c: char)
    | TimeStamp(time: Option<int>)
    | Uuid(uuid: nat)
    | Binary(bytes: seq<U8>)
    | String(s: string)
    | Symbol(symbol: string)
    | Decimal(octets: seq<U8>)
    | List(list: seq<Value>)
    | Map(entries: seq<(Value, Value)>)
    | Array(elements: seq<Value>)
    | Described(descriptor: Descriptor, described: Value)
    | Composite(compositeDescriptor: Descriptor, fields: seq<Value>)

  type Fields = seq<Value>

  /** The field at a position; a list that is too short has nulls there. */
  function Field(list: Fields, i: nat): Value {
    if i < |list| then list[i] else Null
  }

  function Nulls(n: nat): (nulls: Fields)
    ensures |nulls| == n && forall i :: 0 <= i < n ==> nulls[i] == Null
  {
    seq(n, _ => Null)
  }

  function TrimNulls(list: Fields): (trimmed: Fields)
    ensures |trimmed| <= |list| && trimmed == list[..|trimmed|]
    ensures |trimmed| > 0 ==> trimmed[|trimmed| - 1] != Null
    ensures forall i :: |trimmed| <= i < |list| ==> list[i] == Null
  {
    if |list| > 0 && list[|list| - 1] == Null then
      var trimmed := TrimNulls(list[..|list| - 1]);
      assert forall i :: 0 <= i < |list| - 1 ==> list[..|list| - 1][i] == list[i];
      trimmed
    else list
  }

  /** The loop at the end of every encoder: count from the back, then truncate. */
  method TruncateTrailingNulls(list: Fields) returns (truncated: Fields)
    ensures truncated == TrimNulls(list)
  {
    var trailing := 0;
    while trailing < |list| && list[|list| - 1 - trailing] == Null
      invariant 0 <= trailing <= |list|
      invariant TrimNulls(list) == TrimNulls(list[..|list| - trailing])
    {
      assert list[..|list| - trailing][..|list| - trailing - 1] == list[..|list| - trailing - 1];
      trailing := trailing + 1;
    }
    truncated := list[..|list| - trailing];
  }

  /** Two lists are read alike: as many fields, with nulls where a list is too short. */
  ghost predicate SameFields(a: Fields, b: Fields, arity: nat) {
    forall i: nat :: i < arity ==> Field(a, i) == Field(b, i)
  }

  lemma TrimKeepsFields(list: Fields, arity: nat)
    ensures SameFields(TrimNulls(list), list, arity)
  {
  }

  lemma NullsKeepFields(list: Fields, n: nat, arity: nat)
    ensures SameFields(list + Nulls(n), list, arity)
  {
  }

  /** A list is the trimmed form of `fields` iff it is trimmed, no longer than `fields`, and read the same. */
  lemma TrimmedIff(fields: Fields, list: Fields)
    ensures TrimNulls(fields) == list <==> |list| <= |fields| && TrimNulls(list) == list && SameFields(list, fields, |fields|)
  {
    TrimKeepsFields(fields, |fields|);
    TrimTwice(fields);
    if |list| <= |fields| && TrimNulls(list) == list && SameFields(list, fields, |fields|) {
      TrimDecides(list, fields);
    }
  }

  lemma TrimTwice(list: Fields)
    ensures TrimNulls(TrimNulls(list)) == TrimNulls(list)
  {
  }

  /** Two trimmed lists that read the same at every position are equal. */
  lemma TrimDecides(a: Fields, b: Fields)
    requires forall i: nat :: i < |a| || i < |b| ==> Field(a, i) == Field(b, i)
    ensures TrimNulls(a) == TrimNulls(b)
  {
    hide TrimNulls;
    var x, y := TrimNulls(a), TrimNulls(b);
    assert |x| > 0 ==> Field(a, |x| - 1) == Field(b, |x| - 1);
    assert |y| > 0 ==> Field(a, |y| - 1) == Field(b, |y| - 1);
    assert |x| == |y|;
    forall i | 0 <= i < |x|
      ensures x[i] == y[i]
    {
      assert Field(a, i) == Field(b, i);
    }
  }
}
