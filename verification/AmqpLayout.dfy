/**
  The four composite types and their lists, field by field, as OASIS AMQP 1.0 lays them out (Part 3 sections 3.5.4,
  3.5.3, 3.2.1 and 3.2.4): what stands at which index, in which wire type, and which contents a reader refuses.

  The durability of a terminus is sent as an unsigned byte, as the source does; the standard says unsigned integer.
  */
module AmqpLayout {
  import opened Basics
  import opened Amqp

  datatype Durability = NoDurability | Configuration | UnsettledState
  datatype ExpiryPolicy = LinkDetach | SessionEnd | ConnectionClose | Never
  datatype DistributionMode = Move | Copy
  datatype Outcome = Accepted | Rejected | Released | Modified

  datatype Target = Target(
    address: Option<string>, durable: Option<Durability>, expiryPolicy: Option<ExpiryPolicy>, timeout: Option<U32>,
    dynamic: Option<bool>, dynamicNodeProperties: Option<seq<(string, Value)>>, capabilities: Option<seq<Value>>)

  datatype Source = Source(
    address: Option<string>, durable: Option<Durability>, expiryPolicy: Option<ExpiryPolicy>, timeout: Option<U32>,
    dynamic: Option<bool>, dynamicNodeProperties: Option<seq<(string, Value)>>, distributionMode: Option<DistributionMode>,
    filter: Option<seq<(string, Value)>>, defaultOutcome: Option<Outcome>, outcomes: Option<seq<string>>,
    capabilities: Option<seq<string>>)

  /** The time to live in nanoseconds: `Duration` is signed and finer than a millisecond. */
  datatype Header = Header(durable: bool, priority: U8, timeToLive: Option<int>, firstAcquirer: bool, deliveryCount: U32)

  datatype MessageId = StringId(s: string) | UuidId(uuid: nat) | BinaryId(bytes: seq<U8>) | UlongId(u64: U64)

  datatype Properties = Properties(
    messageId: Option<MessageId>, userId: Option<seq<U8>>, to: Option<string>, subject: Option<string>, replyTo: Option<string>,
    correlationId: Option<MessageId>, contentType: Option<string>, contentEncoding: Option<string>,
    absoluteExpiryTime: Option<Option<int>>, creationTime: Option<Option<int>>, groupId: Option<string>,
    groupSequence: Option<U32>, replyToGroupId: Option<string>)

  // ---------- Single fields ----------

  /** Field `i` is `x` in its wire form iff `x` is there. In a list that is sent, it is null iff nothing is there. */
  ghost predicate At<T(!new)>(list: Fields, i: nat, field: Option<T>, wire: T -> Value, sent: bool) {
    && (forall x :: Field(list, i) == wire(x) <==> field == Some(x))
    && (sent ==> (Field(list, i) == Null <==> field == None))
  }

  function StringWire(s: string): Value { String(s) }
  function SymbolWire(s: string): Value { Symbol(s) }
  function UIntWire(n: U32): Value { UInt(n) }
  function UByteWire(n: U8): Value { UByte(n) }
  function BooleanWire(b: bool): Value { Boolean(b) }
  function BinaryWire(bytes: seq<U8>): Value { Binary(bytes) }
  function TimeWire(t: Option<int>): Value { TimeStamp(t) }
  function ArrayWire(elements: seq<Value>): Value { Array(elements) }

  function DurabilityWire(d: Durability): Value {
    match d
    case NoDurability => UByte(0)
    case Configuration => UByte(1)
    case UnsettledState => UByte(2)
  }

  function PolicyWire(p: ExpiryPolicy): Value {
    match p
    case LinkDetach => Symbol("link-detach")
    case SessionEnd => Symbol("session-end")
    case ConnectionClose => Symbol("connection-close")
    case Never => Symbol("never")
  }

  function ModeWire(m: DistributionMode): Value {
    match m
    case Move => Symbol("move")
    case Copy => Symbol("copy")
  }

  function OutcomeWire(o: Outcome): Value {
    match o
    case Accepted => Symbol("amqp:accepted:list")
    case Rejected => Symbol("amqp:rejected:list")
    case Released => Symbol("amqp:released:list")
    case Modified => Symbol("amqp:modified:list")
  }

  function IdWire(id: MessageId): Value {
    match id
    case StringId(s) => String(s)
    case UuidId(u) => Uuid(u)
    case BinaryId(b) => Binary(b)
    case UlongId(n) => ULong(n)
  }

  function StringMapWire(m: seq<(string, Value)>): Value {
    Map(seq(|m|, i requires 0 <= i < |m| => (String(m[i].0), m[i].1)))
  }

  function SymbolMapWire(m: seq<(string, Value)>): Value {
    Map(seq(|m|, i requires 0 <= i < |m| => (Symbol(m[i].0), m[i].1)))
  }

  function SymbolsWire(symbols: seq<string>): Value {
    Array(seq(|symbols|, i requires 0 <= i < |symbols| => Symbol(symbols[i])))
  }

  // ---------- Contents that are refused ----------

  predicate BadDurability(v: Value) {
    v.UByte? && v.u8 > 2
  }

  predicate BadPolicy(v: Value) {
    v.Symbol? && v.symbol != "link-detach" && v.symbol != "session-end" && v.symbol != "connection-close" && v.symbol != "never"
  }

  predicate BadMode(v: Value) {
    v.Symbol? && v.symbol != "move" && v.symbol != "copy"
  }

  predicate BadOutcome(v: Value) {
    && v.Symbol? && v.symbol != "amqp:accepted:list" && v.symbol != "amqp:rejected:list"
    && v.symbol != "amqp:released:list" && v.symbol != "amqp:modified:list"
  }

  predicate BadStringMap(v: Value) {
    v.Map? && exists i :: 0 <= i < |v.entries| && !v.entries[i].0.String?
  }

  predicate BadSymbolMap(v: Value) {
    v.Map? && exists i :: 0 <= i < |v.entries| && !v.entries[i].0.Symbol?
  }

  predicate BadSymbols(v: Value) {
    v.Array? && exists i :: 0 <= i < |v.elements| && !v.elements[i].Symbol?
  }

  // ---------- Whole lists ----------

  /** No longer than the type has fields, and without trailing nulls. */
  predicate Trimmed(list: Fields, arity: nat) {
    |list| <= arity && (|list| > 0 ==> list[|list| - 1] != Null)
  }

  ghost predicate TargetLayout(list: Fields, t: Target, sent: bool) {
    && At(list, 0, t.address, StringWire, sent)
    && At(list, 1, t.durable, DurabilityWire, sent)
    && At(list, 2, t.expiryPolicy, PolicyWire, sent)
    && At(list, 3, t.timeout, UIntWire, sent)
    && At(list, 4, t.dynamic, BooleanWire, sent)
    && At(list, 5, t.dynamicNodeProperties, StringMapWire, sent)
    && At(list, 6, t.capabilities, ArrayWire, sent)
  }

  predicate BadTarget(list: Fields) {
    BadDurability(Field(list, 1)) || BadPolicy(Field(list, 2)) || BadStringMap(Field(list, 5))
  }

  ghost predicate SourceLayout(list: Fields, s: Source, sent: bool) {
    && At(list, 0, s.address, StringWire, sent)
    && At(list, 1, s.durable, DurabilityWire, sent)
    && At(list, 2, s.expiryPolicy, PolicyWire, sent)
    && At(list, 3, s.timeout, UIntWire, sent)
    && At(list, 4, s.dynamic, BooleanWire, sent)
    && At(list, 5, s.dynamicNodeProperties, SymbolMapWire, sent)
    && At(list, 6, s.distributionMode, ModeWire, sent)
    && At(list, 7, s.filter, SymbolMapWire, sent)
    && At(list, 8, s.defaultOutcome, OutcomeWire, sent)
    && At(list, 9, s.outcomes, SymbolsWire, sent)
    && At(list, 10, s.capabilities, SymbolsWire, sent)
  }

  predicate BadSource(list: Fields) {
    || BadDurability(Field(list, 1)) || BadPolicy(Field(list, 2)) || BadSymbolMap(Field(list, 5)) || BadMode(Field(list, 6))
    || BadSymbolMap(Field(list, 7)) || BadOutcome(Field(list, 8)) || BadSymbols(Field(list, 9)) || BadSymbols(Field(list, 10))
  }

  /** `millis` is the time with the rest below a millisecond cut off, toward zero. */
  predicate CutsOff(nanos: int, millis: int) {
    var rest := nanos - millis * 1_000_000;
    if nanos >= 0 then 0 <= rest < 1_000_000 else -1_000_000 < rest <= 0
  }

  /** Defaults are not sent; a time to live is sent in whole milliseconds, wrapped around at 2^32. */
  ghost predicate HeaderSent(list: Fields, h: Header) {
    && At(list, 0, if h.durable then Some(true) else None, BooleanWire, true)
    && At(list, 1, if h.priority != 4 then Some(h.priority) else None, UByteWire, true)
    && (h.timeToLive.None? ==> Field(list, 2) == Null)
    && (h.timeToLive.Some? ==>
          && Field(list, 2).UInt?
          && exists millis :: CutsOff(h.timeToLive.value, millis) && (millis - Field(list, 2).u32) % 0x1_0000_0000 == 0)
    && At(list, 3, if h.firstAcquirer then Some(true) else None, BooleanWire, true)
    && At(list, 4, if h.deliveryCount != 0 then Some(h.deliveryCount) else None, UIntWire, true)
  }

  /** A field that is not there, or of another type, means the default. */
  ghost predicate HeaderGot(list: Fields, h: Header) {
    && (h.durable <==> Field(list, 0) == Boolean(true))
    && (forall n: U8 :: Field(list, 1) == UByte(n) ==> h.priority == n) && (!Field(list, 1).UByte? ==> h.priority == 4)
    && (forall n: U32 :: Field(list, 2) == UInt(n) ==> h.timeToLive == Some(n * 1_000_000)) && (!Field(list, 2).UInt? ==> h.timeToLive == None)
    && (h.firstAcquirer <==> Field(list, 3) == Boolean(true))
    && (forall n: U32 :: Field(list, 4) == UInt(n) ==> h.deliveryCount == n) && (!Field(list, 4).UInt? ==> h.deliveryCount == 0)
  }

  ghost predicate PropertiesLayout(list: Fields, p: Properties, sent: bool) {
    && At(list, 0, p.messageId, IdWire, sent)
    && At(list, 1, p.userId, BinaryWire, sent)
    && At(list, 2, p.to, StringWire, sent)
    && At(list, 3, p.subject, StringWire, sent)
    && At(list, 4, p.replyTo, StringWire, sent)
    && At(list, 5, p.correlationId, IdWire, sent)
    && At(list, 6, p.contentType, SymbolWire, sent)
    && At(list, 7, p.contentEncoding, SymbolWire, sent)
    && At(list, 8, p.absoluteExpiryTime, TimeWire, sent)
    && At(list, 9, p.creationTime, TimeWire, sent)
    && At(list, 10, p.groupId, StringWire, sent)
    && At(list, 11, p.groupSequence, UIntWire, sent)
    && At(list, 12, p.replyToGroupId, StringWire, sent)
  }
}
