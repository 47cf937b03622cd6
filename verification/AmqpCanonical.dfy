/**
  Which lists are in the encoders' own form: decoding one and encoding the result gives it back.
  */
module AmqpCanonical {
  import opened Basics
  import opened Amqp
  import opened AmqpLayout
  import opened AmqpFields
  import opened AmqpCodec

  predicate IsIdOrNull(v: Value) {
    v.Null? || v.ULong? || v.Uuid? || v.Binary? || v.String?
  }

  /** Every position holds a null or a value of the type expected there. */
  predicate TargetTyped(list: Fields) {
    && (Field(list, 0).Null? || Field(list, 0).String?) && (Field(list, 1).Null? || Field(list, 1).UByte?)
    && (Field(list, 2).Null? || Field(list, 2).Symbol?) && (Field(list, 3).Null? || Field(list, 3).UInt?)
    && (Field(list, 4).Null? || Field(list, 4).Boolean?) && (Field(list, 5).Null? || Field(list, 5).Map?)
    && (Field(list, 6).Null? || Field(list, 6).Array?)
  }

  predicate SourceTyped(list: Fields) {
    && (Field(list, 0).Null? || Field(list, 0).String?) && (Field(list, 1).Null? || Field(list, 1).UByte?)
    && (Field(list, 2).Null? || Field(list, 2).Symbol?) && (Field(list, 3).Null? || Field(list, 3).UInt?)
    && (Field(list, 4).Null? || Field(list, 4).Boolean?) && (Field(list, 5).Null? || Field(list, 5).Map?)
    && (Field(list, 6).Null? || Field(list, 6).Symbol?) && (Field(list, 7).Null? || Field(list, 7).Map?)
    && (Field(list, 8).Null? || Field(list, 8).Symbol?) && (Field(list, 9).Null? || Field(list, 9).Array?)
    && (Field(list, 10).Null? || Field(list, 10).Array?)
  }

  predicate HeaderTyped(list: Fields) {
    && (Field(list, 0).Null? || Field(list, 0) == Boolean(true)) && (Field(list, 1).Null? || (Field(list, 1).UByte? && Field(list, 1).u8 != 4))
    && (Field(list, 2).Null? || Field(list, 2).UInt?) && (Field(list, 3).Null? || Field(list, 3) == Boolean(true))
    && (Field(list, 4).Null? || (Field(list, 4).UInt? && Field(list, 4).u32 != 0))
  }

  predicate PropertiesTyped(list: Fields) {
    && IsIdOrNull(Field(list, 0)) && (Field(list, 1).Null? || Field(list, 1).Binary?) && (Field(list, 2).Null? || Field(list, 2).String?)
    && (Field(list, 3).Null? || Field(list, 3).String?) && (Field(list, 4).Null? || Field(list, 4).String?) && IsIdOrNull(Field(list, 5))
    && (Field(list, 6).Null? || Field(list, 6).Symbol?) && (Field(list, 7).Null? || Field(list, 7).Symbol?)
    && (Field(list, 8).Null? || Field(list, 8).TimeStamp?) && (Field(list, 9).Null? || Field(list, 9).TimeStamp?)
    && (Field(list, 10).Null? || Field(list, 10).String?) && (Field(list, 11).Null? || Field(list, 11).UInt?)
    && (Field(list, 12).Null? || Field(list, 12).String?)
  }

  lemma {:induction false} StringKeysStoreBack(entries: seq<(Value, Value)>)
    ensures StringKeys(entries).Some? ==> ToStringMap(StringKeys(entries).value) == entries
  {
    if |entries| == 0 {
    } else {
      StringKeysStoreBack(entries[1..]);
      if StringKeys(entries).Some? {
        var rest := StringKeys(entries[1..]).value;
        assert ([(entries[0].0.s, entries[0].1)] + rest)[1..] == rest;
        assert entries == [entries[0]] + entries[1..];
      }
    }
  }

  lemma {:induction false} SymbolKeysStoreBack(entries: seq<(Value, Value)>)
    ensures SymbolKeys(entries).Some? ==> ToSymbolMap(SymbolKeys(entries).value) == entries
  {
    if |entries| == 0 {
    } else {
      SymbolKeysStoreBack(entries[1..]);
      if SymbolKeys(entries).Some? {
        var rest := SymbolKeys(entries[1..]).value;
        assert ([(entries[0].0.symbol, entries[0].1)] + rest)[1..] == rest;
        assert entries == [entries[0]] + entries[1..];
      }
    }
  }

  lemma {:induction false} SymbolsStoreBack(elements: seq<Value>)
    ensures Symbols(elements).Some? ==> ToSymbols(Symbols(elements).value) == elements
  {
    if |elements| == 0 {
    } else {
      SymbolsStoreBack(elements[1..]);
      if Symbols(elements).Some? {
        var rest := Symbols(elements[1..]).value;
        assert ([elements[0].symbol] + rest)[1..] == rest;
        assert elements == [elements[0]] + elements[1..];
      }
    }
  }

  /** A map or array field that decodes is stored back as it was, unless its type was ignored. */
  lemma CollectionsStoreBack(v: Value)
    ensures ReadStringMap(v).Read? ==> (StoreStringMap(ReadStringMap(v).value) == v <==> v.Null? || v.Map?)
    ensures ReadSymbolMap(v).Read? ==> (StoreSymbolMap(ReadSymbolMap(v).value) == v <==> v.Null? || v.Map?)
    ensures ReadSymbols(v).Read? ==> (StoreSymbols(ReadSymbols(v).value) == v <==> v.Null? || v.Array?)
  {
    if v.Map? {
      StringKeysStoreBack(v.entries);
      SymbolKeysStoreBack(v.entries);
    }
    if v.Array? {
      SymbolsStoreBack(v.elements);
    }
  }

  lemma EnumerationsStoreBack(v: Value)
    ensures ReadDurability(v).Read? ==> (StoreDurability(ReadDurability(v).value) == v <==> v.Null? || v.UByte?)
    ensures ReadPolicy(v).Read? ==> (StorePolicy(ReadPolicy(v).value) == v <==> v.Null? || v.Symbol?)
    ensures ReadMode(v).Read? ==> (StoreMode(ReadMode(v).value) == v <==> v.Null? || v.Symbol?)
    ensures ReadOutcome(v).Read? ==> (StoreOutcome(ReadOutcome(v).value) == v <==> v.Null? || v.Symbol?)
  {
  }

  lemma SimpleStoreBack(v: Value)
    ensures StoreString(ReadString(v)) == v <==> v.Null? || v.String?
    ensures StoreSymbol(ReadSymbol(v)) == v <==> v.Null? || v.Symbol?
    ensures StoreUInt(ReadUInt(v)) == v <==> v.Null? || v.UInt?
    ensures StoreBoolean(ReadBoolean(v)) == v <==> v.Null? || v.Boolean?
    ensures StoreId(ReadId(v)) == v <==> IsIdOrNull(v)
    ensures StoreBinary(ReadBinary(v)) == v <==> v.Null? || v.Binary?
    ensures StoreTime(ReadTime(v)) == v <==> v.Null? || v.TimeStamp?
  {
  }

  /** Decode then encode gives the same list iff the list is trimmed, short enough and well-typed. */
  lemma CanonicalTarget(list: Fields)
    requires ReadTarget(list).Some?
    ensures TrimNulls(TargetFields(ReadTarget(list).value)) == list <==> Trimmed(list, 7) && TargetTyped(list)
  {
    var fields := TargetFields(ReadTarget(list).value);
    assert SameFields(list, fields, 7) <==> TargetTyped(list) by {
      TargetStoresBack(list);
    }
    TrimmedIff(fields, list);
    hide TargetFields, ReadTarget, TargetTyped;
  }

  lemma TargetStoresBack(list: Fields)
    requires ReadTarget(list).Some?
    ensures SameFields(list, TargetFields(ReadTarget(list).value), 7) <==> TargetTyped(list)
  {
    hide ReadString, StoreString, ReadUInt, StoreUInt, ReadBoolean, StoreBoolean, ReadDurability, StoreDurability;
    hide ReadPolicy, StorePolicy, ReadStringMap, StoreStringMap;
    var fields := TargetFields(ReadTarget(list).value);
    SimpleStoreBack(Field(list, 0));
    EnumerationsStoreBack(Field(list, 1));
    EnumerationsStoreBack(Field(list, 2));
    SimpleStoreBack(Field(list, 3));
    SimpleStoreBack(Field(list, 4));
    CollectionsStoreBack(Field(list, 5));
    SameFields7(list, fields);
  }

  lemma SameFields7(a: Fields, b: Fields)
    ensures SameFields(a, b, 7) <==>
              Field(a, 0) == Field(b, 0) && Field(a, 1) == Field(b, 1) && Field(a, 2) == Field(b, 2) && Field(a, 3) == Field(b, 3)
              && Field(a, 4) == Field(b, 4) && Field(a, 5) == Field(b, 5) && Field(a, 6) == Field(b, 6)
  {
  }

  lemma CanonicalSource(list: Fields)
    requires ReadSource(list).Some?
    ensures TrimNulls(SourceFields(ReadSource(list).value)) == list <==> Trimmed(list, 11) && SourceTyped(list)
  {
    var fields := SourceFields(ReadSource(list).value);
    assert SameFields(list, fields, 11) <==> SourceTyped(list) by {
      SourceStoresBack(list);
    }
    TrimmedIff(fields, list);
    hide SourceFields, ReadSource, SourceTyped;
  }

  lemma SourceStoresBack(list: Fields)
    requires ReadSource(list).Some?
    ensures SameFields(list, SourceFields(ReadSource(list).value), 11) <==> SourceTyped(list)
  {
    hide ReadString, StoreString, ReadUInt, StoreUInt, ReadBoolean, StoreBoolean, ReadDurability, StoreDurability;
    hide ReadPolicy, StorePolicy, ReadSymbolMap, StoreSymbolMap, ReadMode, StoreMode, ReadOutcome, StoreOutcome, ReadSymbols, StoreSymbols;
    var fields := SourceFields(ReadSource(list).value);
    SimpleStoreBack(Field(list, 0));
    EnumerationsStoreBack(Field(list, 1));
    EnumerationsStoreBack(Field(list, 2));
    SimpleStoreBack(Field(list, 3));
    SimpleStoreBack(Field(list, 4));
    CollectionsStoreBack(Field(list, 5));
    EnumerationsStoreBack(Field(list, 6));
    CollectionsStoreBack(Field(list, 7));
    EnumerationsStoreBack(Field(list, 8));
    CollectionsStoreBack(Field(list, 9));
    CollectionsStoreBack(Field(list, 10));
    SameFields11(list, fields);
  }

  lemma SameFields11(a: Fields, b: Fields)
    ensures SameFields(a, b, 11) <==>
              Field(a, 0) == Field(b, 0) && Field(a, 1) == Field(b, 1) && Field(a, 2) == Field(b, 2) && Field(a, 3) == Field(b, 3)
              && Field(a, 4) == Field(b, 4) && Field(a, 5) == Field(b, 5) && Field(a, 6) == Field(b, 6) && Field(a, 7) == Field(b, 7)
              && Field(a, 8) == Field(b, 8) && Field(a, 9) == Field(b, 9) && Field(a, 10) == Field(b, 10)
  {
  }

  /** Besides the types, a canonical header leaves out the values that are defaults. */
  lemma CanonicalHeader(list: Fields)
    ensures TrimNulls(HeaderFields(ReadHeader(list))) == list <==> Trimmed(list, 5) && HeaderTyped(list)
  {
    var fields := HeaderFields(ReadHeader(list));
    assert SameFields(list, fields, 5) <==> HeaderTyped(list) by {
      HeaderStoresBack(list);
    }
    TrimmedIff(fields, list);
    hide HeaderFields, ReadHeader, HeaderTyped;
  }

  lemma HeaderStoresBack(list: Fields)
    ensures SameFields(list, HeaderFields(ReadHeader(list)), 5) <==> HeaderTyped(list)
  {
  }

  lemma CanonicalProperties(list: Fields)
    ensures TrimNulls(PropertiesFields(ReadProperties(list))) == list <==> Trimmed(list, 13) && PropertiesTyped(list)
  {
    var fields := PropertiesFields(ReadProperties(list));
    assert SameFields(list, fields, 13) <==> PropertiesTyped(list) by {
      PropertiesStoresBack(list);
    }
    TrimmedIff(fields, list);
    hide PropertiesFields, ReadProperties, PropertiesTyped;
  }

  lemma PropertiesStoresBack(list: Fields)
    ensures SameFields(list, PropertiesFields(ReadProperties(list)), 13) <==> PropertiesTyped(list)
  {
    hide ReadString, StoreString, ReadUInt, StoreUInt, ReadSymbol, StoreSymbol, ReadId, StoreId, ReadBinary, StoreBinary, ReadTime, StoreTime;
    hide IsIdOrNull;
    var fields := PropertiesFields(ReadProperties(list));
    SimpleStoreBack(Field(list, 0));
    SimpleStoreBack(Field(list, 1));
    SimpleStoreBack(Field(list, 2));
    SimpleStoreBack(Field(list, 3));
    SimpleStoreBack(Field(list, 4));
    SimpleStoreBack(Field(list, 5));
    SimpleStoreBack(Field(list, 6));
    SimpleStoreBack(Field(list, 7));
    SimpleStoreBack(Field(list, 8));
    SimpleStoreBack(Field(list, 9));
    SimpleStoreBack(Field(list, 10));
    SimpleStoreBack(Field(list, 11));
    SimpleStoreBack(Field(list, 12));
    SameFields13(list, fields);
  }

  lemma SameFields13(a: Fields, b: Fields)
    ensures SameFields(a, b, 13) <==>
              Field(a, 0) == Field(b, 0) && Field(a, 1) == Field(b, 1) && Field(a, 2) == Field(b, 2) && Field(a, 3) == Field(b, 3)
              && Field(a, 4) == Field(b, 4) && Field(a, 5) == Field(b, 5) && Field(a, 6) == Field(b, 6) && Field(a, 7) == Field(b, 7)
              && Field(a, 8) == Field(b, 8) && Field(a, 9) == Field(b, 9) && Field(a, 10) == Field(b, 10) && Field(a, 11) == Field(b, 11)
              && Field(a, 12) == Field(b, 12)
  {
  }

  /** Encoding again what was decoded from an encoded header gives the same list, even when the header itself is not recovered. */
  lemma HeaderReencodes(h: Header)
    ensures TrimNulls(HeaderFields(ReadHeader(TrimNulls(HeaderFields(h))))) == TrimNulls(HeaderFields(h))
  {
    TrimKeepsFields(HeaderFields(h), 5);
    HeaderReadsSame(TrimNulls(HeaderFields(h)), HeaderFields(h));
  }

  /** Decoding and encoding once more changes nothing, for every list that decodes. */
  lemma ReencodeIdempotent(list: Fields)
    ensures ReadTarget(list).Some? ==>
              var once := TrimNulls(TargetFields(ReadTarget(list).value));
              ReadTarget(once).Some? && TrimNulls(TargetFields(ReadTarget(once).value)) == once
    ensures ReadSource(list).Some? ==>
              var once := TrimNulls(SourceFields(ReadSource(list).value));
              ReadSource(once).Some? && TrimNulls(SourceFields(ReadSource(once).value)) == once
    ensures var once := TrimNulls(HeaderFields(ReadHeader(list))); TrimNulls(HeaderFields(ReadHeader(once))) == once
    ensures var once := TrimNulls(PropertiesFields(ReadProperties(list))); TrimNulls(PropertiesFields(ReadProperties(once))) == once
  {
    hide TrimNulls, ReadTarget, ReadSource, ReadHeader, ReadProperties, TargetFields, SourceFields, HeaderFields, PropertiesFields;
    if ReadTarget(list).Some? {
      TargetRoundTrip(ReadTarget(list).value);
    }
    if ReadSource(list).Some? {
      SourceRoundTrip(ReadSource(list).value);
    }
    HeaderReencodes(ReadHeader(list));
    PropertiesRoundTrip(ReadProperties(list));
  }
}
