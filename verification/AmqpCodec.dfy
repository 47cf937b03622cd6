/**
  List encoders and decoders of the AMQP link target, link source, message header and message
  properties (`azure_core_amqp::messaging`; OASIS AMQP 1.0 Part 3 sections 3.5.4, 3.5.3, 3.2.1, 3.2.4).

  A decoder that panics is modelled as returning `None`. The specification functions read a list only
  through `Field`, position by position; the methods go through the list step by step as the source does.
  */
module AmqpCodec {
  import opened Basics
  import opened Amqp
  import opened AmqpLayout
  import opened AmqpFields

  // ---------- Link target ----------

  function TargetFields(t: Target): Fields {
    [StoreString(t.address), StoreDurability(t.durable), StorePolicy(t.expiryPolicy), StoreUInt(t.timeout), StoreBoolean(t.dynamic),
     StoreStringMap(t.dynamicNodeProperties), if t.capabilities.Some? then Array(t.capabilities.value) else Null]
  }

  function ReadTarget(list: Fields): Option<Target> {
    var durable, policy, properties := ReadDurability(Field(list, 1)), ReadPolicy(Field(list, 2)), ReadStringMap(Field(list, 5));
    if durable.Panics? || policy.Panics? || properties.Panics? then None
    else
      Some(Target(ReadString(Field(list, 0)), durable.value, policy.value, ReadUInt(Field(list, 3)), ReadBoolean(Field(list, 4)),
                  properties.value, if Field(list, 6).Array? then Some(Field(list, 6).elements) else None))
  }

  /** Decoding takes each field from its index, and panics exactly on refused contents. */
  lemma TargetTaken(list: Fields)
    ensures ReadTarget(list).None? <==> BadTarget(list)
    ensures ReadTarget(list).Some? ==> TargetLayout(list, ReadTarget(list).value, false)
  {
    var t := if ReadTarget(list).Some? then ReadTarget(list).value else Target(None, None, None, None, None, None, None);
    StringAt(list, 0, t.address);
    DurabilityAt(list, 1, t.durable);
    PolicyAt(list, 2, t.expiryPolicy);
    UIntAt(list, 3, t.timeout);
    BooleanAt(list, 4, t.dynamic);
    StringMapAt(list, 5, t.dynamicNodeProperties);
    hide At, Field, ReadDurability, ReadPolicy, ReadStringMap, ReadString, ReadUInt, ReadBoolean, BadDurability, BadPolicy, BadStringMap;
    ArrayAt(list, 6, t.capabilities);
  }

  /** Encoding puts each field at its index, and null for what is absent. */
  lemma TargetSent(t: Target, list: Fields)
    requires SameFields(list, TargetFields(t), 7)
    ensures TargetLayout(list, t, true)
  {
    StringAt(list, 0, t.address);
    DurabilityAt(list, 1, t.durable);
    PolicyAt(list, 2, t.expiryPolicy);
    UIntAt(list, 3, t.timeout);
    BooleanAt(list, 4, t.dynamic);
    StringMapAt(list, 5, t.dynamicNodeProperties);
    ArrayAt(list, 6, t.capabilities);
    hide At, StoreDurability, StorePolicy, StoreStringMap, StoreString, StoreUInt, StoreBoolean;
  }

  method EncodeTarget(t: Target) returns (list: Fields)
    ensures list == TrimNulls(TargetFields(t))
    ensures Trimmed(list, 7) && TargetLayout(list, t, true)
  {
    list := Nulls(7);
    list := list[0 := StoreString(t.address)];
    list := list[1 := StoreDurability(t.durable)];
    list := list[2 := StorePolicy(t.expiryPolicy)];
    list := list[3 := StoreUInt(t.timeout)];
    list := list[4 := StoreBoolean(t.dynamic)];
    list := list[5 := StoreStringMap(t.dynamicNodeProperties)];
    list := list[6 := if t.capabilities.Some? then Array(t.capabilities.value) else Null];
    assert list == TargetFields(t);
    list := TruncateTrailingNulls(list);
    TrimKeepsFields(TargetFields(t), 7);
    TargetSent(t, list);
  }

  method DecodeDurable(list: Fields) returns (durable: Read<Durability>)
    ensures durable == ReadDurability(Field(list, 1))
  {
    durable := Read(None);
    if |list| >= 2 && list[1].UByte? {
      match list[1].u8 {
        case 0 => durable := Read(Some(NoDurability));
        case 1 => durable := Read(Some(Configuration));
        case 2 => durable := Read(Some(UnsettledState));
        case _ => durable := Panics;
      }
    }
  }

  method DecodeTarget(list: Fields) returns (target: Option<Target>)
    ensures target == ReadTarget(list)
    ensures target.None? <==> BadTarget(list)
    ensures target.Some? ==> TargetLayout(list, target.value, false)
  {
    TargetTaken(list);
    hide PolicyOf, StringKeys, DurabilityOf;
    var address: Option<string>, policy: Option<ExpiryPolicy>, timeout: Option<U32>, dynamic: Option<bool> := None, None, None, None;
    var properties: Option<seq<(string, Value)>>, capabilities: Option<seq<Value>> := None, None;
    if |list| >= 1 && list[0].String? {
      address := Some(list[0].s);
    }
    var durable := DecodeDurable(list);
    if durable.Panics? {
      return None;
    }
    if |list| >= 3 && list[2].Symbol? {
      policy := PolicyOf(list[2].symbol);
      if policy.None? {
        return None;
      }
    }
    if |list| >= 4 && list[3].UInt? {
      timeout := Some(list[3].u32);
    }
    if |list| >= 5 && list[4].Boolean? {
      dynamic := Some(list[4].b);
    }
    if |list| >= 6 && list[5].Map? {
      properties := StringKeys(list[5].entries);
      if properties.None? {
        return None;
      }
    }
    if |list| >= 7 && list[6].Array? {
      capabilities := Some(list[6].elements);
    }
    return Some(Target(address, durable.value, policy, timeout, dynamic, properties, capabilities));
  }

  /** Only the first seven fields matter, and a missing field is a null. */
  lemma TargetReadsSame(a: Fields, b: Fields)
    requires SameFields(a, b, 7)
    ensures ReadTarget(a) == ReadTarget(b)
  {
  }

  /** decode(encode(t)) == t for every target. */
  lemma TargetRoundTrip(t: Target)
    ensures ReadTarget(TrimNulls(TargetFields(t))) == Some(t)
  {
    EnumerationsRoundTrip(t.durable, t.expiryPolicy, None, None);
    CollectionsRoundTrip(t.dynamicNodeProperties, None, None);
    assert ReadTarget(TargetFields(t)) == Some(t) by {
      hide ReadDurability, ReadPolicy, ReadStringMap, StoreDurability, StorePolicy, StoreStringMap;
    }
    TrimKeepsFields(TargetFields(t), 7);
    TargetReadsSame(TrimNulls(TargetFields(t)), TargetFields(t));
  }

  // ---------- Link source ----------

  function SourceFields(s: Source): Fields {
    [StoreString(s.address), StoreDurability(s.durable), StorePolicy(s.expiryPolicy), StoreUInt(s.timeout), StoreBoolean(s.dynamic),
     StoreSymbolMap(s.dynamicNodeProperties), StoreMode(s.distributionMode), StoreSymbolMap(s.filter), StoreOutcome(s.defaultOutcome),
     StoreSymbols(s.outcomes), StoreSymbols(s.capabilities)]
  }

  function ReadSource(list: Fields): Option<Source> {
    var durable, policy, properties := ReadDurability(Field(list, 1)), ReadPolicy(Field(list, 2)), ReadSymbolMap(Field(list, 5));
    var mode, filter, outcome := ReadMode(Field(list, 6)), ReadSymbolMap(Field(list, 7)), ReadOutcome(Field(list, 8));
    var outcomes, capabilities := ReadSymbols(Field(list, 9)), ReadSymbols(Field(list, 10));
    if durable.Panics? || policy.Panics? || properties.Panics? || mode.Panics? || filter.Panics? || outcome.Panics? || outcomes.Panics? || capabilities.Panics?
    then None
    else
      Some(Source(ReadString(Field(list, 0)), durable.value, policy.value, ReadUInt(Field(list, 3)), ReadBoolean(Field(list, 4)),
                  properties.value, mode.value, filter.value, outcome.value, outcomes.value, capabilities.value))
  }

  lemma SourceTaken(list: Fields)
    ensures ReadSource(list).None? <==> BadSource(list)
    ensures ReadSource(list).Some? ==> SourceLayout(list, ReadSource(list).value, false)
  {
    var s := if ReadSource(list).Some? then ReadSource(list).value else Source(None, None, None, None, None, None, None, None, None, None, None);
    hide At, Field, ReadDurability, ReadPolicy, ReadSymbolMap, ReadString, ReadUInt, ReadBoolean, ReadMode, ReadOutcome, ReadSymbols;
    hide BadDurability, BadPolicy, BadSymbolMap, BadMode, BadOutcome, BadSymbols;
    StringAt(list, 0, s.address);
    DurabilityAt(list, 1, s.durable);
    PolicyAt(list, 2, s.expiryPolicy);
    UIntAt(list, 3, s.timeout);
    BooleanAt(list, 4, s.dynamic);
    SymbolMapAt(list, 5, s.dynamicNodeProperties);
    ModeAt(list, 6, s.distributionMode);
    SymbolMapAt(list, 7, s.filter);
    OutcomeAt(list, 8, s.defaultOutcome);
    SymbolsAt(list, 9, s.outcomes);
    SymbolsAt(list, 10, s.capabilities);
  }

  lemma SourceSent(s: Source, list: Fields)
    requires SameFields(list, SourceFields(s), 11)
    ensures SourceLayout(list, s, true)
  {
    StringAt(list, 0, s.address);
    DurabilityAt(list, 1, s.durable);
    PolicyAt(list, 2, s.expiryPolicy);
    UIntAt(list, 3, s.timeout);
    BooleanAt(list, 4, s.dynamic);
    SymbolMapAt(list, 5, s.dynamicNodeProperties);
    ModeAt(list, 6, s.distributionMode);
    SymbolMapAt(list, 7, s.filter);
    OutcomeAt(list, 8, s.defaultOutcome);
    SymbolsAt(list, 9, s.outcomes);
    SymbolsAt(list, 10, s.capabilities);
    hide At, StoreDurability, StorePolicy, StoreSymbolMap, StoreString, StoreUInt, StoreBoolean, StoreMode, StoreOutcome, StoreSymbols;
  }

  method EncodeSource(s: Source) returns (list: Fields)
    ensures list == TrimNulls(SourceFields(s))
    ensures Trimmed(list, 11) && SourceLayout(list, s, true)
  {
    list := Nulls(11);
    list := list[0 := StoreString(s.address)];
    list := list[1 := StoreDurability(s.durable)];
    list := list[2 := StorePolicy(s.expiryPolicy)];
    list := list[3 := StoreUInt(s.timeout)];
    list := list[4 := StoreBoolean(s.dynamic)];
    list := list[5 := StoreSymbolMap(s.dynamicNodeProperties)];
    list := list[6 := StoreMode(s.distributionMode)];
    list := list[7 := StoreSymbolMap(s.filter)];
    list := list[8 := StoreOutcome(s.defaultOutcome)];
    list := list[9 := StoreSymbols(s.outcomes)];
    list := list[10 := StoreSymbols(s.capabilities)];
    assert list == SourceFields(s);
    list := TruncateTrailingNulls(list);
    TrimKeepsFields(SourceFields(s), 11);
    SourceSent(s, list);
  }

  method DecodeSymbolMap(list: Fields, i: nat) returns (entries: Read<seq<(string, Value)>>)
    ensures entries == ReadSymbolMap(Field(list, i))
  {
    entries := Read(None);
    if |list| >= i + 1 && list[i].Map? {
      entries := Checked(SymbolKeys(list[i].entries));
    }
  }

  method DecodeSymbols(list: Fields, i: nat) returns (symbols: Read<seq<string>>)
    ensures symbols == ReadSymbols(Field(list, i))
  {
    symbols := Read(None);
    if |list| >= i + 1 && list[i].Array? {
      symbols := Checked(Symbols(list[i].elements));
    }
  }

  method DecodeSource(list: Fields) returns (source: Option<Source>)
    ensures source == ReadSource(list)
    ensures source.None? <==> BadSource(list)
    ensures source.Some? ==> SourceLayout(list, source.value, false)
  {
    SourceTaken(list);
    hide PolicyOf, ModeOf, OutcomeOf, DurabilityOf, ReadSymbolMap, ReadSymbols;
    var address: Option<string>, policy: Option<ExpiryPolicy>, timeout: Option<U32>, dynamic: Option<bool> := None, None, None, None;
    var mode: Option<DistributionMode>, outcome: Option<Outcome> := None, None;
    if |list| >= 1 && list[0].String? {
      address := Some(list[0].s);
    }
    var durable := DecodeDurable(list);
    if durable.Panics? {
      return None;
    }
    if |list| >= 3 && list[2].Symbol? {
      policy := PolicyOf(list[2].symbol);
      if policy.None? {
        return None;
      }
    }
    if |list| >= 4 && list[3].UInt? {
      timeout := Some(list[3].u32);
    }
    if |list| >= 5 && list[4].Boolean? {
      dynamic := Some(list[4].b);
    }
    var properties := DecodeSymbolMap(list, 5);
    if properties.Panics? {
      return None;
    }
    if |list| >= 7 && list[6].Symbol? {
      mode := ModeOf(list[6].symbol);
      if mode.None? {
        return None;
      }
    }
    var filter := DecodeSymbolMap(list, 7);
    if filter.Panics? {
      return None;
    }
    if |list| >= 9 && list[8].Symbol? {
      outcome := OutcomeOf(list[8].symbol);
      if outcome.None? {
        return None;
      }
    }
    var outcomes := DecodeSymbols(list, 9);
    if outcomes.Panics? {
      return None;
    }
    var capabilities := DecodeSymbols(list, 10);
    if capabilities.Panics? {
      return None;
    }
    return Some(Source(address, durable.value, policy, timeout, dynamic, properties.value, mode, filter.value, outcome, outcomes.value, capabilities.value));
  }

  lemma SourceReadsSame(a: Fields, b: Fields)
    requires SameFields(a, b, 11)
    ensures ReadSource(a) == ReadSource(b)
  {
  }

  /** decode(encode(s)) == s for every source. */
  lemma SourceRoundTrip(s: Source)
    ensures ReadSource(TrimNulls(SourceFields(s))) == Some(s)
  {
    EnumerationsRoundTrip(s.durable, s.expiryPolicy, s.distributionMode, s.defaultOutcome);
    CollectionsRoundTrip(None, s.dynamicNodeProperties, s.outcomes);
    CollectionsRoundTrip(None, s.filter, s.capabilities);
    assert ReadSource(SourceFields(s)) == Some(s) by {
      hide ReadDurability, ReadPolicy, ReadSymbolMap, ReadMode, ReadOutcome, ReadSymbols;
      hide StoreDurability, StorePolicy, StoreSymbolMap, StoreMode, StoreOutcome, StoreSymbols;
    }
    TrimKeepsFields(SourceFields(s), 11);
    SourceReadsSame(TrimNulls(SourceFields(s)), SourceFields(s));
  }

  // ---------- Message header ----------

  const DEFAULT_HEADER := Header(false, 4, None, false, 0)
  const NANOS_PER_MILLI := 1_000_000
  const TWO_32 := 0x1_0000_0000

  /** `whole_milliseconds`: truncated toward zero. */
  function WholeMilliseconds(nanos: int): int {
    if nanos >= 0 then nanos / NANOS_PER_MILLI else -((-nanos) / NANOS_PER_MILLI)
  }

  /** `as u32` */
  function WrapU32(n: int): U32 {
    n % TWO_32
  }

  function StoreTtl(ttl: Option<int>): Value {
    if ttl.Some? then UInt(WrapU32(WholeMilliseconds(ttl.value))) else Null
  }

  /** Default values are stored as null. */
  function HeaderFields(h: Header): Fields {
    [if h.durable then Boolean(true) else Null,
     if h.priority != 4 then UByte(h.priority) else Null,
     StoreTtl(h.timeToLive),
     if h.firstAcquirer then Boolean(true) else Null,
     if h.deliveryCount != 0 then UInt(h.deliveryCount) else Null]
  }

  function ReadHeader(list: Fields): Header {
    Header(Field(list, 0) == Boolean(true),
           if Field(list, 1).UByte? then Field(list, 1).u8 else 4,
           if Field(list, 2).UInt? then Some(Field(list, 2).u32 * NANOS_PER_MILLI) else None,
           Field(list, 3) == Boolean(true),
           if Field(list, 4).UInt? then Field(list, 4).u32 else 0)
  }

  lemma HeaderTaken(list: Fields)
    ensures HeaderGot(list, ReadHeader(list))
  {
  }

  lemma TtlSent(nanos: int)
    ensures CutsOff(nanos, WholeMilliseconds(nanos))
    ensures (WholeMilliseconds(nanos) - WrapU32(WholeMilliseconds(nanos))) % TWO_32 == 0
  {
  }

  lemma HeaderLaidOut(h: Header, list: Fields)
    requires SameFields(list, HeaderFields(h), 5)
    ensures HeaderSent(list, h)
  {
    assert Field(list, 0) == HeaderFields(h)[0] && Field(list, 1) == HeaderFields(h)[1] && Field(list, 2) == HeaderFields(h)[2];
    assert Field(list, 3) == HeaderFields(h)[3] && Field(list, 4) == HeaderFields(h)[4];
    hide WholeMilliseconds, WrapU32, CutsOff;
    if h.timeToLive.Some? {
      TtlSent(h.timeToLive.value);
    }
  }

  method EncodeHeader(h: Header) returns (list: Fields)
    ensures list == TrimNulls(HeaderFields(h))
    ensures Trimmed(list, 5) && HeaderSent(list, h)
  {
    list := Nulls(5);
    if h.durable {
      list := list[0 := Boolean(h.durable)];
    }
    if h.priority != 4 {
      list := list[1 := UByte(h.priority)];
    }
    list := list[2 := StoreTtl(h.timeToLive)];
    if h.firstAcquirer {
      list := list[3 := Boolean(h.firstAcquirer)];
    }
    if h.deliveryCount != 0 {
      list := list[4 := UInt(h.deliveryCount)];
    }
    assert list == HeaderFields(h);
    list := TruncateTrailingNulls(list);
    TrimKeepsFields(HeaderFields(h), 5);
    HeaderLaidOut(h, list);
  }

  method DecodeHeader(list: Fields) returns (header: Header)
    ensures header == ReadHeader(list)
    ensures HeaderGot(list, header)
  {
    HeaderTaken(list);
    header := DEFAULT_HEADER;
    if |list| >= 1 && list[0].Boolean? {
      header := header.(durable := list[0].b);
    }
    if |list| >= 2 && list[1].UByte? {
      header := header.(priority := list[1].u8);
    }
    if |list| >= 3 && list[2].UInt? {
      header := header.(timeToLive := Some(list[2].u32 * NANOS_PER_MILLI));
    }
    if |list| >= 4 && list[3].Boolean? {
      header := header.(firstAcquirer := list[3].b);
    }
    if |list| >= 5 && list[4].UInt? {
      header := header.(deliveryCount := list[4].u32);
    }
  }

  lemma HeaderReadsSame(a: Fields, b: Fields)
    requires SameFields(a, b, 5)
    ensures ReadHeader(a) == ReadHeader(b)
  {
  }

  /** Absent, or a whole number of milliseconds that fits in 32 bits. */
  predicate TtlFits(ttl: Option<int>) {
    ttl.None? || (ttl.value % NANOS_PER_MILLI == 0 && 0 <= ttl.value < TWO_32 * NANOS_PER_MILLI)
  }

  /** decode(encode(h)) == h exactly for the headers whose time to live fits. */
  lemma HeaderRoundTripIff(h: Header)
    ensures ReadHeader(TrimNulls(HeaderFields(h))) == h <==> TtlFits(h.timeToLive)
  {
    TrimKeepsFields(HeaderFields(h), 5);
    HeaderReadsSame(TrimNulls(HeaderFields(h)), HeaderFields(h));
  }

  /** A time to live of 2^32 milliseconds comes back as zero. */
  lemma HeaderWraps()
    ensures ReadHeader(TrimNulls(HeaderFields(DEFAULT_HEADER.(timeToLive := Some(TWO_32 * NANOS_PER_MILLI))))).timeToLive == Some(0)
  {
    var h := DEFAULT_HEADER.(timeToLive := Some(TWO_32 * NANOS_PER_MILLI));
    TrimKeepsFields(HeaderFields(h), 5);
    HeaderReadsSame(TrimNulls(HeaderFields(h)), HeaderFields(h));
  }

  // ---------- Message properties ----------

  function PropertiesFields(p: Properties): Fields {
    [StoreId(p.messageId), StoreBinary(p.userId), StoreString(p.to), StoreString(p.subject), StoreString(p.replyTo),
     StoreId(p.correlationId), StoreSymbol(p.contentType), StoreSymbol(p.contentEncoding), StoreTime(p.absoluteExpiryTime),
     StoreTime(p.creationTime), StoreString(p.groupId), StoreUInt(p.groupSequence), StoreString(p.replyToGroupId)]
  }

  function ReadProperties(list: Fields): Properties {
    Properties(ReadId(Field(list, 0)), ReadBinary(Field(list, 1)), ReadString(Field(list, 2)), ReadString(Field(list, 3)), ReadString(Field(list, 4)),
               ReadId(Field(list, 5)), ReadSymbol(Field(list, 6)), ReadSymbol(Field(list, 7)), ReadTime(Field(list, 8)),
               ReadTime(Field(list, 9)), ReadString(Field(list, 10)), ReadUInt(Field(list, 11)), ReadString(Field(list, 12)))
  }

  lemma PropertiesTaken(list: Fields)
    ensures PropertiesLayout(list, ReadProperties(list), false)
  {
    var p := ReadProperties(list);
    hide At, Field, ReadId, ReadBinary, ReadString, ReadSymbol, ReadTime, ReadUInt;
    IdAt(list, 0, p.messageId);
    BinaryAt(list, 1, p.userId);
    StringAt(list, 2, p.to);
    StringAt(list, 3, p.subject);
    StringAt(list, 4, p.replyTo);
    IdAt(list, 5, p.correlationId);
    SymbolAt(list, 6, p.contentType);
    SymbolAt(list, 7, p.contentEncoding);
    TimeAt(list, 8, p.absoluteExpiryTime);
    TimeAt(list, 9, p.creationTime);
    StringAt(list, 10, p.groupId);
    UIntAt(list, 11, p.groupSequence);
    StringAt(list, 12, p.replyToGroupId);
  }

  lemma PropertiesSent(p: Properties, list: Fields)
    requires SameFields(list, PropertiesFields(p), 13)
    ensures PropertiesLayout(list, p, true)
  {
    hide At, StoreId, StoreBinary, StoreString, StoreSymbol, StoreTime, StoreUInt;
    IdAt(list, 0, p.messageId);
    BinaryAt(list, 1, p.userId);
    StringAt(list, 2, p.to);
    StringAt(list, 3, p.subject);
    StringAt(list, 4, p.replyTo);
    IdAt(list, 5, p.correlationId);
    SymbolAt(list, 6, p.contentType);
    SymbolAt(list, 7, p.contentEncoding);
    TimeAt(list, 8, p.absoluteExpiryTime);
    TimeAt(list, 9, p.creationTime);
    StringAt(list, 10, p.groupId);
    UIntAt(list, 11, p.groupSequence);
    StringAt(list, 12, p.replyToGroupId);
  }

  method EncodeProperties(p: Properties) returns (list: Fields)
    ensures list == TrimNulls(PropertiesFields(p))
    ensures Trimmed(list, 13) && PropertiesLayout(list, p, true)
  {
    list := Nulls(13);
    list := list[0 := StoreId(p.messageId)];
    list := list[1 := StoreBinary(p.userId)];
    list := list[2 := StoreString(p.to)];
    list := list[3 := StoreString(p.subject)];
    list := list[4 := StoreString(p.replyTo)];
    list := list[5 := StoreId(p.correlationId)];
    list := list[6 := StoreSymbol(p.contentType)];
    list := list[7 := StoreSymbol(p.contentEncoding)];
    list := list[8 := StoreTime(p.absoluteExpiryTime)];
    list := list[9 := StoreTime(p.creationTime)];
    list := list[10 := StoreString(p.groupId)];
    list := list[11 := StoreUInt(p.groupSequence)];
    list := list[12 := StoreString(p.replyToGroupId)];
    assert list == PropertiesFields(p);
    list := TruncateTrailingNulls(list);
    TrimKeepsFields(PropertiesFields(p), 13);
    PropertiesSent(p, list);
  }

  method DecodeString(list: Fields, i: nat) returns (v: Option<string>)
    ensures v == ReadString(Field(list, i))
  {
    v := None;
    if |list| >= i + 1 && list[i].String? {
      v := Some(list[i].s);
    }
  }

  method DecodeSymbol(list: Fields, i: nat) returns (v: Option<string>)
    ensures v == ReadSymbol(Field(list, i))
  {
    v := None;
    if |list| >= i + 1 && list[i].Symbol? {
      v := Some(list[i].symbol);
    }
  }

  method DecodeTime(list: Fields, i: nat) returns (v: Option<Option<int>>)
    ensures v == ReadTime(Field(list, i))
  {
    v := None;
    if |list| >= i + 1 && list[i].TimeStamp? {
      v := Some(list[i].time);
    }
  }

  method DecodeId(list: Fields, i: nat) returns (v: Option<MessageId>)
    ensures v == ReadId(Field(list, i))
  {
    v := None;
    if |list| >= i + 1 {
      match list[i] {
        case ULong(n) => v := Some(UlongId(n));
        case Uuid(u) => v := Some(UuidId(u));
        case Binary(b) => v := Some(BinaryId(b));
        case String(s) => v := Some(StringId(s));
        case _ =>
      }
    }
  }

  method DecodeProperties(list: Fields) returns (p: Properties)
    ensures p == ReadProperties(list)
    ensures PropertiesLayout(list, p, false)
  {
    PropertiesTaken(list);
    hide ReadId, ReadString, ReadSymbol, ReadTime;
    var messageId := DecodeId(list, 0);
    var userId: Option<seq<U8>> := None;
    if |list| >= 2 && list[1].Binary? {
      userId := Some(list[1].bytes);
    }
    var to := DecodeString(list, 2);
    var subject := DecodeString(list, 3);
    var replyTo := DecodeString(list, 4);
    var correlationId := DecodeId(list, 5);
    var contentType := DecodeSymbol(list, 6);
    var contentEncoding := DecodeSymbol(list, 7);
    var absoluteExpiryTime := DecodeTime(list, 8);
    var creationTime := DecodeTime(list, 9);
    var groupId := DecodeString(list, 10);
    var groupSequence: Option<U32> := None;
    if |list| >= 12 && list[11].UInt? {
      groupSequence := Some(list[11].u32);
    }
    var replyToGroupId := DecodeString(list, 12);
    return Properties(messageId, userId, to, subject, replyTo, correlationId, contentType, contentEncoding,
                      absoluteExpiryTime, creationTime, groupId, groupSequence, replyToGroupId);
  }

  lemma PropertiesReadsSame(a: Fields, b: Fields)
    requires SameFields(a, b, 13)
    ensures ReadProperties(a) == ReadProperties(b)
  {
  }

  /** decode(encode(p)) == p for all properties. */
  lemma PropertiesRoundTrip(p: Properties)
    ensures ReadProperties(TrimNulls(PropertiesFields(p))) == p
  {
    IdRoundTrip(p.messageId);
    IdRoundTrip(p.correlationId);
    assert ReadProperties(PropertiesFields(p)) == p by {
      hide ReadId, StoreId;
    }
    TrimKeepsFields(PropertiesFields(p), 13);
    PropertiesReadsSame(TrimNulls(PropertiesFields(p)), PropertiesFields(p));
  }

  // ---------- Laws of all four codecs ----------

  /** Adding trailing nulls, or dropping them, never changes what is decoded, a panic included. */
  lemma TrailingNullsIgnored(list: Fields, n: nat)
    ensures ReadTarget(list + Nulls(n)) == ReadTarget(list) == ReadTarget(TrimNulls(list))
    ensures ReadSource(list + Nulls(n)) == ReadSource(list) == ReadSource(TrimNulls(list))
    ensures ReadHeader(list + Nulls(n)) == ReadHeader(list) == ReadHeader(TrimNulls(list))
    ensures ReadProperties(list + Nulls(n)) == ReadProperties(list) == ReadProperties(TrimNulls(list))
  {
    hide ReadTarget, ReadSource, ReadHeader, ReadProperties;
    NullsKeepFields(list, n, 13);
    TrimKeepsFields(list, 13);
    TargetReadsSame(list + Nulls(n), list);
    TargetReadsSame(TrimNulls(list), list);
    SourceReadsSame(list + Nulls(n), list);
    SourceReadsSame(TrimNulls(list), list);
    HeaderReadsSame(list + Nulls(n), list);
    HeaderReadsSame(TrimNulls(list), list);
    PropertiesReadsSame(list + Nulls(n), list);
    PropertiesReadsSame(TrimNulls(list), list);
  }

  /** Every encoded list is empty or ends in a non-null, and is no longer than the type's arity. */
  lemma EncodedLists(t: Target, s: Source, h: Header, p: Properties)
    ensures Trimmed(TrimNulls(TargetFields(t)), 7) && Trimmed(TrimNulls(SourceFields(s)), 11)
    ensures Trimmed(TrimNulls(HeaderFields(h)), 5) && Trimmed(TrimNulls(PropertiesFields(p)), 13)
  {
    hide StoreString, StoreDurability, StorePolicy, StoreUInt, StoreBoolean, StoreStringMap, StoreSymbolMap, StoreMode;
    hide StoreOutcome, StoreSymbols, StoreTtl, StoreId, StoreBinary, StoreTime, StoreSymbol;
    assert |TargetFields(t)| == 7 && |SourceFields(s)| == 11 && |HeaderFields(h)| == 5 && |PropertiesFields(p)| == 13;
  }
}
