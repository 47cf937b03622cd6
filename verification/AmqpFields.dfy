/**
  How single fields of the composite types are stored and read, and that this is the wire form of the layout.

  A read that panics is a result of its own; a value of the wrong type is ignored.
  */
module AmqpFields {
  import opened Basics
  import opened Amqp
  import opened AmqpLayout

  // ---------- Enumerations ----------

  function DurabilityCode(d: Durability): U8 {
    match d
    case NoDurability => 0
    case Configuration => 1
    case UnsettledState => 2
  }

  function DurabilityOf(code: U8): Option<Durability> {
    if code == 0 then Some(NoDurability) else if code == 1 then Some(Configuration) else if code == 2 then Some(UnsettledState) else None
  }

  function PolicySymbol(p: ExpiryPolicy): string {
    match p
    case LinkDetach => "link-detach"
    case SessionEnd => "session-end"
    case ConnectionClose => "connection-close"
    case Never => "never"
  }

  function PolicyOf(symbol: string): Option<ExpiryPolicy> {
    if symbol == "link-detach" then Some(LinkDetach)
    else if symbol == "session-end" then Some(SessionEnd)
    else if symbol == "connection-close" then Some(ConnectionClose)
    else if symbol == "never" then Some(Never)
    else None
  }

  function ModeSymbol(m: DistributionMode): string {
    match m
    case Move => "move"
    case Copy => "copy"
  }

  function ModeOf(symbol: string): Option<DistributionMode> {
    if symbol == "move" then Some(Move) else if symbol == "copy" then Some(Copy) else None
  }

  function OutcomeSymbol(o: Outcome): string {
    match o
    case Accepted => "amqp:accepted:list"
    case Rejected => "amqp:rejected:list"
    case Released => "amqp:released:list"
    case Modified => "amqp:modified:list"
  }

  function OutcomeOf(symbol: string): Option<Outcome> {
    if symbol == "amqp:accepted:list" then Some(Accepted)
    else if symbol == "amqp:rejected:list" then Some(Rejected)
    else if symbol == "amqp:released:list" then Some(Released)
    else if symbol == "amqp:modified:list" then Some(Modified)
    else None
  }

  /** Each enumeration survives its wire form. */
  lemma SymbolsRoundTrip(d: Durability, p: ExpiryPolicy, m: DistributionMode, o: Outcome)
    ensures DurabilityOf(DurabilityCode(d)) == Some(d)
    ensures PolicyOf(PolicySymbol(p)) == Some(p)
    ensures ModeOf(ModeSymbol(m)) == Some(m)
    ensures OutcomeOf(OutcomeSymbol(o)) == Some(o)
  {
    assert |"link-detach"| == 11 && |"session-end"| == 11 && |"connection-close"| == 16 && |"never"| == 5;
    assert "link-detach"[0] == 'l' && "session-end"[0] == 's';
    assert "move"[0] == 'm' && "copy"[0] == 'c';
    assert "amqp:accepted:list"[5] == 'a' && "amqp:rejected:list"[5] == 'r' && "amqp:released:list"[5] == 'r' && "amqp:modified:list"[5] == 'm';
    assert "amqp:rejected:list"[7] == 'j' && "amqp:released:list"[7] == 'l';
  }

  // ---------- Single fields ----------

  /** What a field decodes to; wrong types are ignored, wrong contents panic. */
  datatype Read<T> = Read(value: Option<T>) | Panics

  function Checked<T>(value: Option<T>): Read<T> {
    if value.Some? then Read(value) else Panics
  }

  function ReadDurability(v: Value): Read<Durability> {
    if v.UByte? then Checked(DurabilityOf(v.u8)) else Read(None)
  }

  function ReadPolicy(v: Value): Read<ExpiryPolicy> {
    if v.Symbol? then Checked(PolicyOf(v.symbol)) else Read(None)
  }

  function ReadMode(v: Value): Read<DistributionMode> {
    if v.Symbol? then Checked(ModeOf(v.symbol)) else Read(None)
  }

  function ReadOutcome(v: Value): Read<Outcome> {
    if v.Symbol? then Checked(OutcomeOf(v.symbol)) else Read(None)
  }

  function StringKeys(entries: seq<(Value, Value)>): Option<seq<(string, Value)>> {
    if |entries| == 0 then Some([])
    else
      var rest := StringKeys(entries[1..]);
      if entries[0].0.String? && rest.Some? then Some([(entries[0].0.s, entries[0].1)] + rest.value) else None
  }

  function SymbolKeys(entries: seq<(Value, Value)>): Option<seq<(string, Value)>> {
    if |entries| == 0 then Some([])
    else
      var rest := SymbolKeys(entries[1..]);
      if entries[0].0.Symbol? && rest.Some? then Some([(entries[0].0.symbol, entries[0].1)] + rest.value) else None
  }

  function Symbols(elements: seq<Value>): Option<seq<string>> {
    if |elements| == 0 then Some([])
    else
      var rest := Symbols(elements[1..]);
      if elements[0].Symbol? && rest.Some? then Some([elements[0].symbol] + rest.value) else None
  }

  function ReadStringMap(v: Value): Read<seq<(string, Value)>> {
    if v.Map? then Checked(StringKeys(v.entries)) else Read(None)
  }

  function ReadSymbolMap(v: Value): Read<seq<(string, Value)>> {
    if v.Map? then Checked(SymbolKeys(v.entries)) else Read(None)
  }

  function ReadSymbols(v: Value): Read<seq<string>> {
    if v.Array? then Checked(Symbols(v.elements)) else Read(None)
  }

  function ToStringMap(m: seq<(string, Value)>): seq<(Value, Value)> {
    if |m| == 0 then [] else [(String(m[0].0), m[0].1)] + ToStringMap(m[1..])
  }

  function ToSymbolMap(m: seq<(string, Value)>): seq<(Value, Value)> {
    if |m| == 0 then [] else [(Symbol(m[0].0), m[0].1)] + ToSymbolMap(m[1..])
  }

  function ToSymbols(symbols: seq<string>): seq<Value> {
    if |symbols| == 0 then [] else [Symbol(symbols[0])] + ToSymbols(symbols[1..])
  }

  lemma {:induction false} StringMapRoundTrip(m: seq<(string, Value)>)
    ensures StringKeys(ToStringMap(m)) == Some(m)
  {
    if |m| == 0 {
    } else {
      StringMapRoundTrip(m[1..]);
      assert ToStringMap(m)[1..] == ToStringMap(m[1..]);
      assert m == [m[0]] + m[1..];
    }
  }

  lemma {:induction false} SymbolMapRoundTrip(m: seq<(string, Value)>)
    ensures SymbolKeys(ToSymbolMap(m)) == Some(m)
  {
    if |m| == 0 {
    } else {
      SymbolMapRoundTrip(m[1..]);
      assert ToSymbolMap(m)[1..] == ToSymbolMap(m[1..]);
      assert m == [m[0]] + m[1..];
    }
  }

  lemma {:induction false} SymbolsArrayRoundTrip(symbols: seq<string>)
    ensures Symbols(ToSymbols(symbols)) == Some(symbols)
  {
    if |symbols| == 0 {
    } else {
      SymbolsArrayRoundTrip(symbols[1..]);
      assert ToSymbols(symbols)[1..] == ToSymbols(symbols[1..]);
      assert symbols == [symbols[0]] + symbols[1..];
    }
  }

  function ReadString(v: Value): Option<string> {
    if v.String? then Some(v.s) else None
  }

  function ReadSymbol(v: Value): Option<string> {
    if v.Symbol? then Some(v.symbol) else None
  }

  function ReadUInt(v: Value): Option<U32> {
    if v.UInt? then Some(v.u32) else None
  }

  function ReadBoolean(v: Value): Option<bool> {
    if v.Boolean? then Some(v.b) else None
  }

  /** An absent value is stored as null. */
  function StoreString(v: Option<string>): Value {
    if v.Some? then String(v.value) else Null
  }

  function StoreSymbol(v: Option<string>): Value {
    if v.Some? then Symbol(v.value) else Null
  }

  function StoreUInt(v: Option<U32>): Value {
    if v.Some? then UInt(v.value) else Null
  }

  function StoreBoolean(v: Option<bool>): Value {
    if v.Some? then Boolean(v.value) else Null
  }

  function StoreDurability(v: Option<Durability>): Value {
    if v.Some? then UByte(DurabilityCode(v.value)) else Null
  }

  function StorePolicy(v: Option<ExpiryPolicy>): Value {
    if v.Some? then Symbol(PolicySymbol(v.value)) else Null
  }

  function StoreMode(v: Option<DistributionMode>): Value {
    if v.Some? then Symbol(ModeSymbol(v.value)) else Null
  }

  function StoreOutcome(v: Option<Outcome>): Value {
    if v.Some? then Symbol(OutcomeSymbol(v.value)) else Null
  }

  function StoreStringMap(v: Option<seq<(string, Value)>>): Value {
    if v.Some? then Map(ToStringMap(v.value)) else Null
  }

  function StoreSymbolMap(v: Option<seq<(string, Value)>>): Value {
    if v.Some? then Map(ToSymbolMap(v.value)) else Null
  }

  function StoreSymbols(v: Option<seq<string>>): Value {
    if v.Some? then Array(ToSymbols(v.value)) else Null
  }

  function StoreId(id: Option<MessageId>): Value {
    match id
    case None => Null
    case Some(StringId(s)) => String(s)
    case Some(UuidId(u)) => Uuid(u)
    case Some(BinaryId(b)) => Binary(b)
    case Some(UlongId(n)) => ULong(n)
  }

  function ReadId(v: Value): Option<MessageId> {
    match v
    case ULong(n) => Some(UlongId(n))
    case Uuid(u) => Some(UuidId(u))
    case Binary(b) => Some(BinaryId(b))
    case String(s) => Some(StringId(s))
    case _ => None
  }

  function StoreBinary(v: Option<seq<U8>>): Value {
    if v.Some? then Binary(v.value) else Null
  }

  function ReadBinary(v: Value): Option<seq<U8>> {
    if v.Binary? then Some(v.bytes) else None
  }

  function StoreTime(v: Option<Option<int>>): Value {
    if v.Some? then TimeStamp(v.value) else Null
  }

  function ReadTime(v: Value): Option<Option<int>> {
    if v.TimeStamp? then Some(v.time) else None
  }

  lemma EnumerationsRoundTrip(d: Option<Durability>, p: Option<ExpiryPolicy>, m: Option<DistributionMode>, o: Option<Outcome>)
    ensures ReadDurability(StoreDurability(d)) == Read(d)
    ensures ReadPolicy(StorePolicy(p)) == Read(p)
    ensures ReadMode(StoreMode(m)) == Read(m)
    ensures ReadOutcome(StoreOutcome(o)) == Read(o)
  {
    SymbolsRoundTrip(if d.Some? then d.value else NoDurability, if p.Some? then p.value else Never,
                     if m.Some? then m.value else Move, if o.Some? then o.value else Accepted);
    hide PolicyOf, PolicySymbol, ModeOf, ModeSymbol, OutcomeOf, OutcomeSymbol;
  }

  lemma CollectionsRoundTrip(s: Option<seq<(string, Value)>>, m: Option<seq<(string, Value)>>, a: Option<seq<string>>)
    ensures ReadStringMap(StoreStringMap(s)) == Read(s)
    ensures ReadSymbolMap(StoreSymbolMap(m)) == Read(m)
    ensures ReadSymbols(StoreSymbols(a)) == Read(a)
  {
    if s.Some? {
      StringMapRoundTrip(s.value);
    }
    if m.Some? {
      SymbolMapRoundTrip(m.value);
    }
    if a.Some? {
      SymbolsArrayRoundTrip(a.value);
    }
  }

  lemma IdRoundTrip(id: Option<MessageId>)
    ensures ReadId(StoreId(id)) == id
  {
  }

  // ---------- Single fields in the layout ----------

  lemma StringAt(list: Fields, i: nat, field: Option<string>)
    ensures field == ReadString(Field(list, i)) ==> At(list, i, field, StringWire, false)
    ensures Field(list, i) == StoreString(field) ==> At(list, i, field, StringWire, true)
  {
  }

  lemma SymbolAt(list: Fields, i: nat, field: Option<string>)
    ensures field == ReadSymbol(Field(list, i)) ==> At(list, i, field, SymbolWire, false)
    ensures Field(list, i) == StoreSymbol(field) ==> At(list, i, field, SymbolWire, true)
  {
  }

  lemma UIntAt(list: Fields, i: nat, field: Option<U32>)
    ensures field == ReadUInt(Field(list, i)) ==> At(list, i, field, UIntWire, false)
    ensures Field(list, i) == StoreUInt(field) ==> At(list, i, field, UIntWire, true)
  {
  }

  lemma BooleanAt(list: Fields, i: nat, field: Option<bool>)
    ensures field == ReadBoolean(Field(list, i)) ==> At(list, i, field, BooleanWire, false)
    ensures Field(list, i) == StoreBoolean(field) ==> At(list, i, field, BooleanWire, true)
  {
  }

  lemma DurabilityAt(list: Fields, i: nat, field: Option<Durability>)
    ensures ReadDurability(Field(list, i)) == Read(field) ==> At(list, i, field, DurabilityWire, false)
    ensures ReadDurability(Field(list, i)).Panics? <==> BadDurability(Field(list, i))
    ensures Field(list, i) == StoreDurability(field) ==> At(list, i, field, DurabilityWire, true)
  {
  }

  lemma PolicyAt(list: Fields, i: nat, field: Option<ExpiryPolicy>)
    ensures ReadPolicy(Field(list, i)) == Read(field) ==> At(list, i, field, PolicyWire, false)
    ensures ReadPolicy(Field(list, i)).Panics? <==> BadPolicy(Field(list, i))
    ensures Field(list, i) == StorePolicy(field) ==> At(list, i, field, PolicyWire, true)
  {
    forall p: ExpiryPolicy
      ensures PolicyOf(PolicySymbol(p)) == Some(p) && PolicyWire(p) == Symbol(PolicySymbol(p))
    {
      SymbolsRoundTrip(NoDurability, p, Move, Accepted);
    }
  }

  lemma ModeAt(list: Fields, i: nat, field: Option<DistributionMode>)
    ensures ReadMode(Field(list, i)) == Read(field) ==> At(list, i, field, ModeWire, false)
    ensures ReadMode(Field(list, i)).Panics? <==> BadMode(Field(list, i))
    ensures Field(list, i) == StoreMode(field) ==> At(list, i, field, ModeWire, true)
  {
    forall m: DistributionMode
      ensures ModeOf(ModeSymbol(m)) == Some(m) && ModeWire(m) == Symbol(ModeSymbol(m))
    {
      SymbolsRoundTrip(NoDurability, Never, m, Accepted);
    }
  }

  lemma OutcomeAt(list: Fields, i: nat, field: Option<Outcome>)
    ensures ReadOutcome(Field(list, i)) == Read(field) ==> At(list, i, field, OutcomeWire, false)
    ensures ReadOutcome(Field(list, i)).Panics? <==> BadOutcome(Field(list, i))
    ensures Field(list, i) == StoreOutcome(field) ==> At(list, i, field, OutcomeWire, true)
  {
    forall o: Outcome
      ensures OutcomeOf(OutcomeSymbol(o)) == Some(o) && OutcomeWire(o) == Symbol(OutcomeSymbol(o))
    {
      SymbolsRoundTrip(NoDurability, Never, Move, o);
    }
  }

  lemma {:induction false} StringKeysIff(entries: seq<(Value, Value)>)
    ensures StringKeys(entries).None? <==> BadStringMap(Map(entries))
    ensures StringKeys(entries).Some? ==> StringMapWire(StringKeys(entries).value) == Map(entries)
  {
    if |entries| == 0 {
    } else {
      StringKeysIff(entries[1..]);
      if BadStringMap(Map(entries)) && entries[0].0.String? {
        var i :| 0 <= i < |entries| && !entries[i].0.String?;
        assert !entries[1..][i - 1].0.String?;
      }
      if BadStringMap(Map(entries[1..])) {
        var i :| 0 <= i < |entries[1..]| && !entries[1..][i].0.String?;
        assert !entries[i + 1].0.String?;
      }
    }
  }

  lemma {:induction false} SymbolKeysIff(entries: seq<(Value, Value)>)
    ensures SymbolKeys(entries).None? <==> BadSymbolMap(Map(entries))
    ensures SymbolKeys(entries).Some? ==> SymbolMapWire(SymbolKeys(entries).value) == Map(entries)
  {
    if |entries| == 0 {
    } else {
      SymbolKeysIff(entries[1..]);
      if BadSymbolMap(Map(entries)) && entries[0].0.Symbol? {
        var i :| 0 <= i < |entries| && !entries[i].0.Symbol?;
        assert !entries[1..][i - 1].0.Symbol?;
      }
      if BadSymbolMap(Map(entries[1..])) {
        var i :| 0 <= i < |entries[1..]| && !entries[1..][i].0.Symbol?;
        assert !entries[i + 1].0.Symbol?;
      }
    }
  }

  lemma {:induction false} SymbolsIff(elements: seq<Value>)
    ensures Symbols(elements).None? <==> BadSymbols(Array(elements))
    ensures Symbols(elements).Some? ==> SymbolsWire(Symbols(elements).value) == Array(elements)
  {
    if |elements| == 0 {
    } else {
      SymbolsIff(elements[1..]);
      if BadSymbols(Array(elements)) && elements[0].Symbol? {
        var i :| 0 <= i < |elements| && !elements[i].Symbol?;
        assert !elements[1..][i - 1].Symbol?;
      }
      if BadSymbols(Array(elements[1..])) {
        var i :| 0 <= i < |elements[1..]| && !elements[1..][i].Symbol?;
        assert !elements[i + 1].Symbol?;
      }
    }
  }

  lemma StringMapInjective(a: seq<(string, Value)>, b: seq<(string, Value)>)
    ensures StringMapWire(a) == StringMapWire(b) <==> a == b
  {
    if StringMapWire(a) == StringMapWire(b) {
      assert |a| == |StringMapWire(a).entries| == |b|;
      forall i | 0 <= i < |a|
        ensures a[i] == b[i]
      {
        assert StringMapWire(a).entries[i] == StringMapWire(b).entries[i];
      }
    }
  }

  lemma SymbolMapInjective(a: seq<(string, Value)>, b: seq<(string, Value)>)
    ensures SymbolMapWire(a) == SymbolMapWire(b) <==> a == b
  {
    if SymbolMapWire(a) == SymbolMapWire(b) {
      assert |a| == |SymbolMapWire(a).entries| == |b|;
      forall i | 0 <= i < |a|
        ensures a[i] == b[i]
      {
        assert SymbolMapWire(a).entries[i] == SymbolMapWire(b).entries[i];
      }
    }
  }

  lemma SymbolsInjective(a: seq<string>, b: seq<string>)
    ensures SymbolsWire(a) == SymbolsWire(b) <==> a == b
  {
    if SymbolsWire(a) == SymbolsWire(b) {
      assert |a| == |SymbolsWire(a).elements| == |b|;
      forall i | 0 <= i < |a|
        ensures a[i] == b[i]
      {
        assert SymbolsWire(a).elements[i] == SymbolsWire(b).elements[i];
      }
    }
  }

  lemma StringMapAt(list: Fields, i: nat, field: Option<seq<(string, Value)>>)
    ensures ReadStringMap(Field(list, i)) == Read(field) ==> At(list, i, field, StringMapWire, false)
    ensures ReadStringMap(Field(list, i)).Panics? <==> BadStringMap(Field(list, i))
    ensures Field(list, i) == StoreStringMap(field) ==> At(list, i, field, StringMapWire, true)
  {
    var v := Field(list, i);
    if v.Map? {
      StringKeysIff(v.entries);
    }
    if field.Some? {
      StringMapRoundTrip(field.value);
      StringKeysIff(ToStringMap(field.value));
    }
    forall x: seq<(string, Value)>
      ensures field.Some? ==> (StringMapWire(field.value) == StringMapWire(x) <==> field.value == x)
      ensures v == StringMapWire(x) && ReadStringMap(v).Read? ==> ReadStringMap(v).value.Some?
    {
      if field.Some? {
        StringMapInjective(field.value, x);
      }
    }
    hide StringKeys, ToStringMap, StringMapWire, BadStringMap;
  }

  lemma SymbolMapAt(list: Fields, i: nat, field: Option<seq<(string, Value)>>)
    ensures ReadSymbolMap(Field(list, i)) == Read(field) ==> At(list, i, field, SymbolMapWire, false)
    ensures ReadSymbolMap(Field(list, i)).Panics? <==> BadSymbolMap(Field(list, i))
    ensures Field(list, i) == StoreSymbolMap(field) ==> At(list, i, field, SymbolMapWire, true)
  {
    var v := Field(list, i);
    if v.Map? {
      SymbolKeysIff(v.entries);
    }
    if field.Some? {
      SymbolMapRoundTrip(field.value);
      SymbolKeysIff(ToSymbolMap(field.value));
    }
    forall x: seq<(string, Value)>
      ensures field.Some? ==> (SymbolMapWire(field.value) == SymbolMapWire(x) <==> field.value == x)
      ensures v == SymbolMapWire(x) && ReadSymbolMap(v).Read? ==> ReadSymbolMap(v).value.Some?
    {
      if field.Some? {
        SymbolMapInjective(field.value, x);
      }
    }
    hide SymbolKeys, ToSymbolMap, SymbolMapWire, BadSymbolMap;
  }

  lemma SymbolsAt(list: Fields, i: nat, field: Option<seq<string>>)
    ensures ReadSymbols(Field(list, i)) == Read(field) ==> At(list, i, field, SymbolsWire, false)
    ensures ReadSymbols(Field(list, i)).Panics? <==> BadSymbols(Field(list, i))
    ensures Field(list, i) == StoreSymbols(field) ==> At(list, i, field, SymbolsWire, true)
  {
    var v := Field(list, i);
    if v.Array? {
      SymbolsIff(v.elements);
    }
    if field.Some? {
      SymbolsArrayRoundTrip(field.value);
      SymbolsIff(ToSymbols(field.value));
    }
    forall x: seq<string>
      ensures field.Some? ==> (SymbolsWire(field.value) == SymbolsWire(x) <==> field.value == x)
      ensures v == SymbolsWire(x) && ReadSymbols(v).Read? ==> ReadSymbols(v).value.Some?
    {
      if field.Some? {
        SymbolsInjective(field.value, x);
      }
    }
    hide Symbols, ToSymbols, SymbolsWire, BadSymbols;
  }

  lemma BinaryAt(list: Fields, i: nat, field: Option<seq<U8>>)
    ensures field == ReadBinary(Field(list, i)) ==> At(list, i, field, BinaryWire, false)
    ensures Field(list, i) == StoreBinary(field) ==> At(list, i, field, BinaryWire, true)
  {
  }

  lemma TimeAt(list: Fields, i: nat, field: Option<Option<int>>)
    ensures field == ReadTime(Field(list, i)) ==> At(list, i, field, TimeWire, false)
    ensures Field(list, i) == StoreTime(field) ==> At(list, i, field, TimeWire, true)
  {
  }

  lemma IdAt(list: Fields, i: nat, field: Option<MessageId>)
    ensures field == ReadId(Field(list, i)) ==> At(list, i, field, IdWire, false)
    ensures Field(list, i) == StoreId(field) ==> At(list, i, field, IdWire, true)
  {
  }

  lemma ArrayAt(list: Fields, i: nat, field: Option<seq<Value>>)
    ensures field == (if Field(list, i).Array? then Some(Field(list, i).elements) else None) ==> At(list, i, field, ArrayWire, false)
    ensures Field(list, i) == (if field.Some? then Array(field.value) else Null) ==> At(list, i, field, ArrayWire, true)
  {
  }
}
