/**
  The vector-backed ordered map of AMQP (`azure_core_amqp::value::AmqpOrderedMap`).

  Inserting always appends, so a key can occur more than once. Over every run of inserts and removes the map
  is a first-in first-out queue per key; it is a map in the usual sense exactly when no present key is inserted again.
  */
module OrderedMap {
  import opened Basics

  class AmqpOrderedMap<K(==), V> {
    var inner: seq<(K, V)>

    constructor ()
      ensures inner == []
    {
      inner := [];
    }

    method Insert(key: K, value: V)
      modifies this
      ensures inner == Step(old(inner), Op.Insert(key, value))
    {
      inner := inner + [(key, value)];
    }

    /** `find_map`: the value of the first entry with the key. */
    function Get(key: K): (value: Option<V>)
      reads this
      ensures value == Head(Values(inner, key))
    {
      Lookup(inner, key)
    }

    function Len(): nat
      reads this
    {
      |inner|
    }

    predicate IsEmpty()
      reads this
      ensures IsEmpty() <==> Len() == 0
    {
      inner == []
    }

    method Remove(key: K) returns (value: Option<V>)
      modifies this
      ensures inner == Step(old(inner), Op.Remove(key))
      ensures value == Head(Values(old(inner), key))
    {
      var index := Position(inner, key);
      LookupIsHead(inner, key);
      if index == |inner| {
        return None;
      }
      value := Some(inner[index].1);
      inner := inner[..index] + inner[index + 1..];
    }

    predicate ContainsKey(key: K)
      reads this
      ensures ContainsKey(key) <==> Get(key).Some?
    {
      LookupIsHead(inner, key);
      Position(inner, key) < |inner|
    }
  }

  // ---------- One operation ----------

  /** Index of the first entry with the key, or the length. */
  function Position<K(==), V>(inner: seq<(K, V)>, key: K): (index: nat)
    ensures index <= |inner|
    ensures forall i :: 0 <= i < index ==> inner[i].0 != key
    ensures index < |inner| ==> inner[index].0 == key
  {
    if |inner| == 0 then 0
    else if inner[0].0 == key then 0
    else
      var rest := Position(inner[1..], key);
      assert forall i :: 0 < i < rest + 1 ==> inner[i] == inner[1..][i - 1];
      1 + rest
  }

  function Lookup<K(==), V>(inner: seq<(K, V)>, key: K): (value: Option<V>)
    ensures value == Head(Values(inner, key))
  {
    LookupIsHead(inner, key);
    var index := Position(inner, key);
    if index < |inner| then Some(inner[index].1) else None
  }

  function Head<V>(values: seq<V>): Option<V> {
    if |values| == 0 then None else Some(values[0])
  }

  function Rest<V>(values: seq<V>): seq<V> {
    if |values| == 0 then [] else values[1..]
  }

  lemma RestOfLonger<V>(values: seq<V>, last: V)
    ensures Rest(values + [last]) == if |values| == 0 then [] else Rest(values) + [last]
  {
  }

  /** The values stored under a key, oldest first. */
  function Values<K(==), V>(inner: seq<(K, V)>, key: K): seq<V> {
    if |inner| == 0 then []
    else
      var before := Values(inner[..|inner| - 1], key);
      if inner[|inner| - 1].0 == key then before + [inner[|inner| - 1].1] else before
  }

  /** The entries under other keys, in order. */
  function Others<K(==), V>(inner: seq<(K, V)>, key: K): seq<(K, V)> {
    if |inner| == 0 then []
    else
      var before := Others(inner[..|inner| - 1], key);
      if inner[|inner| - 1].0 == key then before else before + [inner[|inner| - 1]]
  }

  lemma {:induction false} LookupIsHead<K, V>(inner: seq<(K, V)>, key: K)
    ensures Position(inner, key) < |inner| ==> Head(Values(inner, key)) == Some(inner[Position(inner, key)].1)
    ensures Position(inner, key) == |inner| ==> Values(inner, key) == []
  {
    if |inner| == 0 {
    } else {
      LookupIsHead(inner[..|inner| - 1], key);
      PositionOfPrefix(inner, key);
    }
  }

  /** The position in a sequence is the position in all but its last entry, if found there. */
  lemma PositionOfPrefix<K, V>(inner: seq<(K, V)>, key: K)
    requires |inner| > 0
    ensures Position(inner[..|inner| - 1], key) < |inner| - 1 ==> Position(inner, key) == Position(inner[..|inner| - 1], key)
    ensures Position(inner[..|inner| - 1], key) == |inner| - 1 ==>
              Position(inner, key) == if inner[|inner| - 1].0 == key then |inner| - 1 else |inner|
  {
    hide Position;
    var p, q := Position(inner[..|inner| - 1], key), Position(inner, key);
    assert p < |inner| - 1 ==> inner[p] == inner[..|inner| - 1][p];
    assert q < |inner| - 1 ==> inner[q] == inner[..|inner| - 1][q];
    assert q < p ==> q < |inner| - 1;
  }

  datatype Op<K, V> = Insert(key: K, value: V) | Remove(key: K)

  function RemoveFirst<K(==), V>(inner: seq<(K, V)>, key: K): seq<(K, V)> {
    var index := Position(inner, key);
    if index == |inner| then inner else Cut(inner, index)
  }

  function Step<K(==), V>(inner: seq<(K, V)>, op: Op<K, V>): seq<(K, V)> {
    match op
    case Insert(key, value) => inner + [(key, value)]
    case Remove(key) => RemoveFirst(inner, key)
  }

  function Cut<T>(s: seq<T>, i: nat): seq<T>
    requires i < |s|
  {
    s[..i] + s[i + 1..]
  }

  lemma CutLonger<T>(s: seq<T>, x: T, i: nat)
    requires i <= |s|
    ensures Cut(s + [x], i) == if i < |s| then Cut(s, i) + [x] else s
  {
  }

  lemma RemoveFirstOfLonger<K, V>(inner: seq<(K, V)>, last: (K, V), key: K)
    ensures RemoveFirst(inner + [last], key) ==
            if Position(inner, key) < |inner| then RemoveFirst(inner, key) + [last]
            else if last.0 == key then inner
            else inner + [last]
  {
    hide Position, Cut;
    assert (inner + [last])[..|inner|] == inner;
    PositionOfPrefix(inner + [last], key);
    CutLonger(inner, last, Position(inner, key));
  }

  // ---------- Runs ----------

  function Run<K(==), V>(ops: seq<Op<K, V>>): seq<(K, V)> {
    if |ops| == 0 then [] else Step(Run(ops[..|ops| - 1]), ops[|ops| - 1])
  }

  /** Everything ever inserted, in order. */
  function Inserts<K, V>(ops: seq<Op<K, V>>): seq<(K, V)> {
    if |ops| == 0 then []
    else
      var before, op := Inserts(ops[..|ops| - 1]), ops[|ops| - 1];
      if op.Insert? then before + [(op.key, op.value)] else before
  }

  function Count<K(==), V>(entries: seq<(K, V)>, key: K): nat {
    if |entries| == 0 then 0
    else Count(entries[..|entries| - 1], key) + if entries[|entries| - 1].0 == key then 1 else 0
  }

  /** How many removes of the key found one: a remove succeeds while inserts of the key outnumber successful removes. */
  function Taken<K(==), V>(ops: seq<Op<K, V>>, key: K): nat {
    if |ops| == 0 then 0
    else
      var before, op := ops[..|ops| - 1], ops[|ops| - 1];
      Taken(before, key) + if op == Remove(key) && Taken(before, key) < Count(Inserts(before), key) then 1 else 0
  }

  /** The entries that are not among the first `Taken(ops, key)` of their key. */
  function Survivors<K(==), V>(entries: seq<(K, V)>, ops: seq<Op<K, V>>): seq<(K, V)> {
    if |entries| == 0 then []
    else
      var before, last := entries[..|entries| - 1], entries[|entries| - 1];
      if Count(before, last.0) >= Taken(ops, last.0) then Survivors(before, ops) + [last] else Survivors(before, ops)
  }

  ghost predicate SameTaken<K(!new), V>(a: seq<Op<K, V>>, b: seq<Op<K, V>>, except: set<K>) {
    forall key :: key !in except ==> Taken(a, key) == Taken(b, key)
  }

  lemma {:induction false} SurvivorsDependOnTaken<K(!new), V>(entries: seq<(K, V)>, a: seq<Op<K, V>>, b: seq<Op<K, V>>, except: set<K>)
    requires SameTaken(a, b, except)
    requires forall key :: key in except ==> Count(entries, key) <= Taken(a, key) && Count(entries, key) <= Taken(b, key)
    ensures Survivors(entries, a) == Survivors(entries, b)
  {
    if |entries| == 0 {
    } else {
      SurvivorsDependOnTaken(entries[..|entries| - 1], a, b, except);
    }
  }

  lemma {:induction false} TakenBounded<K, V>(ops: seq<Op<K, V>>, key: K)
    ensures Taken(ops, key) <= Count(Inserts(ops), key)
  {
    if |ops| == 0 {
    } else {
      TakenBounded(ops[..|ops| - 1], key);
      CountInserts(ops, key);
    }
  }

  lemma CountInserts<K, V>(ops: seq<Op<K, V>>, key: K)
    requires |ops| > 0
    ensures Count(Inserts(ops), key) ==
            Count(Inserts(ops[..|ops| - 1]), key) + if ops[|ops| - 1].Insert? && ops[|ops| - 1].key == key then 1 else 0
  {
    var before, op := Inserts(ops[..|ops| - 1]), ops[|ops| - 1];
    if op.Insert? {
      assert (before + [(op.key, op.value)])[..|before|] == before;
    }
  }

  /** How many of a key survive. */
  lemma {:induction false} CountSurvivors<K, V>(entries: seq<(K, V)>, ops: seq<Op<K, V>>, key: K)
    ensures Count(Survivors(entries, ops), key) == if Count(entries, key) <= Taken(ops, key) then 0 else Count(entries, key) - Taken(ops, key)
  {
    if |entries| == 0 {
    } else {
      var before, last := entries[..|entries| - 1], entries[|entries| - 1];
      CountSurvivors(before, ops, key);
      assert (Survivors(before, ops) + [last])[..|Survivors(before, ops)|] == Survivors(before, ops);
    }
  }

  lemma {:induction false} CountIsPresence<K, V>(entries: seq<(K, V)>, key: K)
    ensures Count(entries, key) > 0 <==> Position(entries, key) < |entries|
  {
    if |entries| == 0 {
    } else {
      CountIsPresence(entries[..|entries| - 1], key);
      PositionOfPrefix(entries, key);
    }
  }

  /** One more taken from a key removes its first survivor. */
  lemma {:induction false} TakeOneMore<K(!new), V>(entries: seq<(K, V)>, a: seq<Op<K, V>>, b: seq<Op<K, V>>, key: K)
    requires SameTaken(a, b, {key}) && Taken(b, key) == Taken(a, key) + 1 && Taken(a, key) < Count(entries, key)
    ensures Survivors(entries, b) == RemoveFirst(Survivors(entries, a), key)
  {
    var before, last := entries[..|entries| - 1], entries[|entries| - 1];
    CountSurvivors(before, a, key);
    CountIsPresence(Survivors(before, a), key);
    RemoveFirstOfLonger(Survivors(before, a), last, key);
    if Taken(a, key) < Count(before, key) {
      TakeOneMore(before, a, b, key);
    } else {
      SurvivorsDependOnTaken(before, a, b, {key});
    }
  }

  /**
    After every run, the map holds exactly the inserted entries whose rank among the inserts of their key
    is at least the number taken from that key, in insertion order.
    */
  lemma {:induction false} RunIsSurvivors<K(!new), V>(ops: seq<Op<K, V>>)
    ensures Run(ops) == Survivors(Inserts(ops), ops)
  {
    if |ops| == 0 {
    } else {
      var before, op := ops[..|ops| - 1], ops[|ops| - 1];
      RunIsSurvivors(before);
      if op.Insert? {
        assert SameTaken(before, ops, {});
        SurvivorsDependOnTaken(Inserts(before), before, ops, {});
        TakenBounded(before, op.key);
        assert (Inserts(before) + [(op.key, op.value)])[..|Inserts(before)|] == Inserts(before);
      } else {
        CountSurvivors(Inserts(before), before, op.key);
        CountIsPresence(Run(before), op.key);
        if Taken(before, op.key) < Count(Inserts(before), op.key) {
          assert SameTaken(before, ops, {op.key});
          TakeOneMore(Inserts(before), before, ops, op.key);
        } else {
          assert SameTaken(before, ops, {});
          SurvivorsDependOnTaken(Inserts(before), before, ops, {});
        }
      }
    }
  }

  lemma {:induction false} ValuesCount<K, V>(entries: seq<(K, V)>, key: K)
    ensures |Values(entries, key)| == Count(entries, key)
  {
    if |entries| == 0 {
    } else {
      ValuesCount(entries[..|entries| - 1], key);
    }
  }

  lemma {:induction false} ValuesOfSurvivors<K, V>(entries: seq<(K, V)>, ops: seq<Op<K, V>>, key: K)
    ensures Values(Survivors(entries, ops), key) ==
            if |Values(entries, key)| <= Taken(ops, key) then [] else Values(entries, key)[Taken(ops, key)..]
  {
    if |entries| == 0 {
    } else {
      var before, last := entries[..|entries| - 1], entries[|entries| - 1];
      ValuesOfSurvivors(before, ops, key);
      ValuesCount(before, key);
      assert (Survivors(before, ops) + [last])[..|Survivors(before, ops)|] == Survivors(before, ops);
    }
  }

  /**
    First in, first out per key: after every run the values under a key are the values inserted under it, without
    as many of the oldest as were taken. So `Get` gives the oldest one left and `Remove` takes it.
    */
  lemma Fifo<K(!new), V>(ops: seq<Op<K, V>>, key: K)
    ensures Taken(ops, key) <= |Values(Inserts(ops), key)|
    ensures Values(Run(ops), key) == Values(Inserts(ops), key)[Taken(ops, key)..]
  {
    RunIsSurvivors(ops);
    TakenBounded(ops, key);
    ValuesCount(Inserts(ops), key);
    ValuesOfSurvivors(Inserts(ops), ops, key);
  }

  lemma PartsOfLonger<K, V>(inner: seq<(K, V)>, last: (K, V), key: K)
    ensures Others(inner + [last], key) == if last.0 == key then Others(inner, key) else Others(inner, key) + [last]
    ensures Values(inner + [last], key) == if last.0 == key then Values(inner, key) + [last.1] else Values(inner, key)
  {
    assert (inner + [last])[..|inner|] == inner;
  }

  lemma {:induction false} RemoveFirstParts<K, V>(inner: seq<(K, V)>, key: K)
    ensures Others(RemoveFirst(inner, key), key) == Others(inner, key)
    ensures Values(RemoveFirst(inner, key), key) == Rest(Values(inner, key))
  {
    if |inner| == 0 {
      assert Position(inner, key) == 0;
      return;
    }
    hide Others, Values, Position, RemoveFirst, Rest;
    var before, last := inner[..|inner| - 1], inner[|inner| - 1];
    RemoveFirstParts(before, key);
    RemoveFirstOfLonger(before, last, key);
    assert before + [last] == inner;
    PartsOfLonger(before, last, key);
    LookupIsHead(before, key);
    if Position(before, key) < |before| {
      PartsOfLonger(RemoveFirst(before, key), last, key);
    }
    RestOfLonger(Values(before, key), last.1);
  }

  /** One operation leaves the entries of all other keys, and their order, alone. */
  lemma StepKeepsOthers<K, V>(inner: seq<(K, V)>, op: Op<K, V>)
    ensures Others(Step(inner, op), op.key) == Others(inner, op.key)
    ensures op.Insert? ==> Values(Step(inner, op), op.key) == Values(inner, op.key) + [op.value]
    ensures op.Remove? ==> Values(Step(inner, op), op.key) == Rest(Values(inner, op.key))
  {
    if op.Insert? {
      assert (inner + [(op.key, op.value)])[..|inner|] == inner;
    } else {
      RemoveFirstParts(inner, op.key);
    }
  }

  /** Number of removes that returned a value. */
  function Successes<K(==), V>(ops: seq<Op<K, V>>): nat {
    if |ops| == 0 then 0
    else
      var before, op := ops[..|ops| - 1], ops[|ops| - 1];
      Successes(before) + if op.Remove? && Lookup(Run(before), op.key).Some? then 1 else 0
  }

  /** Length is inserts minus successful removes. */
  lemma {:induction false} LengthOfRun<K, V>(ops: seq<Op<K, V>>)
    ensures |Run(ops)| + Successes(ops) == |Inserts(ops)|
  {
    if |ops| == 0 {
    } else {
      LengthOfRun(ops[..|ops| - 1]);
    }
  }

  // ---------- As a map ----------

  /** What `Get` answers, as a map. */
  function AsMap<K(==), V>(inner: seq<(K, V)>): map<K, V> {
    if |inner| == 0 then map[]
    else
      var before, last := AsMap(inner[..|inner| - 1]), inner[|inner| - 1];
      if last.0 in before then before else before[last.0 := last.1]
  }

  function MapStep<K(==), V>(m: map<K, V>, op: Op<K, V>): map<K, V> {
    match op
    case Insert(key, value) => m[key := value]
    case Remove(key) => m - {key}
  }

  /** The same run on a mathematical map. */
  function MapRun<K(==), V>(ops: seq<Op<K, V>>): map<K, V> {
    if |ops| == 0 then map[] else MapStep(MapRun(ops[..|ops| - 1]), ops[|ops| - 1])
  }

  function MapGet<K, V>(m: map<K, V>, key: K): Option<V> {
    if key in m then Some(m[key]) else None
  }

  lemma {:induction false} AsMapGet<K, V>(inner: seq<(K, V)>, key: K)
    ensures MapGet(AsMap(inner), key) == Lookup(inner, key)
  {
    hide Lookup;
    if |inner| == 0 {
    } else {
      AsMapGet(inner[..|inner| - 1], key);
    }
  }

  lemma AsMapIff<K(!new), V>(inner: seq<(K, V)>, m: map<K, V>)
    ensures AsMap(inner) == m <==> forall key :: Lookup(inner, key) == MapGet(m, key)
  {
    hide AsMap, Lookup;
    forall key
      ensures MapGet(AsMap(inner), key) == Lookup(inner, key)
    {
      AsMapGet(inner, key);
    }
    if forall key :: Lookup(inner, key) == MapGet(m, key) {
      assert forall key :: key in m <==> MapGet(m, key).Some?;
      assert forall key :: key in AsMap(inner) <==> MapGet(AsMap(inner), key).Some?;
    }
  }

  lemma {:induction false} ValuesOfOthers<K, V>(inner: seq<(K, V)>, key: K, other: K)
    requires key != other
    ensures Values(Others(inner, key), other) == Values(inner, other)
  {
    if |inner| == 0 {
    } else {
      var before, last := Others(inner[..|inner| - 1], key), inner[|inner| - 1];
      ValuesOfOthers(inner[..|inner| - 1], key, other);
      assert (before + [last])[..|before|] == before;
    }
  }

  lemma StepLookup<K, V>(inner: seq<(K, V)>, op: Op<K, V>, key: K)
    ensures key != op.key ==> Values(Step(inner, op), key) == Values(inner, key)
    ensures key == op.key && op.Insert? ==> Values(Step(inner, op), key) == Values(inner, key) + [op.value]
    ensures key == op.key && op.Remove? ==> |Values(Step(inner, op), key)| == if |Values(inner, key)| == 0 then 0 else |Values(inner, key)| - 1
  {
    StepKeepsOthers(inner, op);
    if key != op.key {
      ValuesOfOthers(inner, op.key, key);
      ValuesOfOthers(Step(inner, op), op.key, key);
    }
  }

  /** No key is inserted while it is present. */
  predicate NoReinsert<K(==), V>(ops: seq<Op<K, V>>) {
    |ops| == 0 || (NoReinsert(ops[..|ops| - 1]) && (ops[|ops| - 1].Insert? ==> ops[|ops| - 1].key !in MapRun(ops[..|ops| - 1])))
  }

  /** The map view is right now, and stays right whichever key is removed next. */
  ghost predicate Agrees<K(!new), V>(inner: seq<(K, V)>, m: map<K, V>) {
    && AsMap(inner) == m
    && forall key :: AsMap(Step(inner, Op.Remove(key))) == MapStep(m, Op.Remove(key))
  }

  ghost predicate AlwaysAgrees<K(!new), V>(ops: seq<Op<K, V>>) {
    Agrees(Run(ops), MapRun(ops)) && (|ops| > 0 ==> AlwaysAgrees(ops[..|ops| - 1]))
  }

  ghost predicate AtMostOnce<K(!new), V>(inner: seq<(K, V)>) {
    forall key :: |Values(inner, key)| <= 1
  }

  /** The view survives a remove of every key exactly when no key is stored twice. */
  lemma AgreesIff<K(!new), V>(inner: seq<(K, V)>, m: map<K, V>)
    ensures Agrees(inner, m) <==> AsMap(inner) == m && AtMostOnce(inner)
  {
    hide AsMap, Values, Step;
    AsMapIff(inner, m);
    forall key
      ensures AsMap(inner) == m ==> (AsMap(Step(inner, Op.Remove(key))) == MapStep(m, Op.Remove(key)) <==> |Values(inner, key)| <= 1)
    {
      AsMapIff(Step(inner, Op.Remove(key)), MapStep(m, Op.Remove(key)));
      if AsMap(inner) == m {
        RemoveLookups(inner, m, key);
      }
    }
  }

  lemma RemoveLookups<K(!new), V>(inner: seq<(K, V)>, m: map<K, V>, key: K)
    requires forall k :: Lookup(inner, k) == MapGet(m, k)
    ensures (forall k :: Lookup(Step(inner, Op.Remove(key)), k) == MapGet(MapStep(m, Op.Remove(key)), k)) <==> |Values(inner, key)| <= 1
  {
    hide Values, Step;
    var op: Op<K, V> := Op.Remove(key);
    forall k
      ensures k != key ==> Lookup(Step(inner, op), k) == MapGet(MapStep(m, op), k)
    {
      StepLookup(inner, op, k);
    }
    StepLookup(inner, op, key);
    assert Lookup(Step(inner, op), key) == MapGet(MapStep(m, op), key) <==> |Values(inner, key)| <= 1;
  }

  lemma InsertLookups<K(!new), V>(inner: seq<(K, V)>, m: map<K, V>, op: Op<K, V>)
    requires op.Insert? && op.key !in m && AsMap(inner) == m && AtMostOnce(inner)
    ensures AsMap(Step(inner, op)) == MapStep(m, op) && AtMostOnce(Step(inner, op))
  {
    hide AsMap, Values, Step;
    AsMapIff(inner, m);
    forall key
      ensures Lookup(Step(inner, op), key) == MapGet(MapStep(m, op), key) && |Values(Step(inner, op), key)| <= 1
    {
      StepLookup(inner, op, key);
      assert Lookup(inner, key) == MapGet(m, key);
    }
    AsMapIff(Step(inner, op), MapStep(m, op));
  }

  lemma RemoveKeeps<K(!new), V>(inner: seq<(K, V)>, m: map<K, V>, op: Op<K, V>)
    requires op.Remove? && Agrees(inner, m)
    ensures Agrees(Step(inner, op), MapStep(m, op))
  {
    hide AsMap, Values, Step;
    AgreesIff(inner, m);
    forall key
      ensures |Values(Step(inner, op), key)| <= 1
    {
      StepLookup(inner, op, key);
    }
    assert AsMap(Step(inner, op)) == MapStep(m, op) by {
      assert op == Op.Remove(op.key);
    }
    AgreesIff(Step(inner, op), MapStep(m, op));
  }

  /** The vector behaves as a map, now and after any remove at any time of the run, iff no present key is ever inserted again. */
  lemma {:induction false} MapRefinement<K(!new), V>(ops: seq<Op<K, V>>)
    ensures AlwaysAgrees(ops) <==> NoReinsert(ops)
  {
    if |ops| == 0 {
      AgreesIff(Run(ops), MapRun(ops));
      return;
    }
    hide Step, MapStep, Agrees, AsMap, Values, AtMostOnce;
    var before, op := ops[..|ops| - 1], ops[|ops| - 1];
    MapRefinement(before);
    AgreesIff(Run(before), MapRun(before));
    AgreesIff(Run(ops), MapRun(ops));
    if op.Insert? {
      if op.key in MapRun(before) {
        ReinsertBreaks(Run(before), MapRun(before), op);
      } else if Agrees(Run(before), MapRun(before)) {
        InsertLookups(Run(before), MapRun(before), op);
      }
    } else if Agrees(Run(before), MapRun(before)) {
      RemoveKeeps(Run(before), MapRun(before), op);
    }
  }

  lemma {:induction false} SizeOfMap<K(!new), V>(inner: seq<(K, V)>)
    requires AtMostOnce(inner)
    ensures |AsMap(inner)| == |inner|
  {
    if |inner| == 0 {
    } else {
      var before, last := inner[..|inner| - 1], inner[|inner| - 1];
      forall key
        ensures |Values(before, key)| <= |Values(inner, key)| <= 1
      {
      }
      SizeOfMap(before);
      AsMapGet(before, last.0);
      assert |Values(inner, last.0)| <= 1;
    }
  }

  /** Without reinsertion the length is the size of the map. */
  lemma LenIsMapSize<K(!new), V>(ops: seq<Op<K, V>>)
    requires NoReinsert(ops)
    ensures |Run(ops)| == |MapRun(ops)|
  {
    MapRefinement(ops);
    AgreesIff(Run(ops), MapRun(ops));
    SizeOfMap(Run(ops));
  }

  lemma ReinsertBreaks<K(!new), V>(inner: seq<(K, V)>, m: map<K, V>, op: Op<K, V>)
    requires op.Insert? && op.key in m
    ensures AsMap(inner) == m ==> !AtMostOnce(Step(inner, op))
  {
    hide AsMap, Values, Step;
    if AsMap(inner) == m {
      AsMapIff(inner, m);
      assert Lookup(inner, op.key) == MapGet(m, op.key);
      StepLookup(inner, op, op.key);
      assert |Values(Step(inner, op), op.key)| > 1;
    }
  }

  /** Inserting a key twice keeps the first value in front; the second appears after one remove. */
  lemma DuplicateKey<K, V>(key: K, first: V, second: V)
    requires first != second
    ensures var twice := Run([Op.Insert(key, first), Op.Insert(key, second)]);
            && Lookup(twice, key) == Some(first)
            && Lookup(Step(twice, Op.Remove(key)), key) == Some(second)
  {
    var ops: seq<Op<K, V>> := [Op.Insert(key, first), Op.Insert(key, second)];
    assert ops[..1] == [Op.Insert(key, first)] && ops[..1][..0] == [];
    assert Run(ops[..1][..0]) == [];
    assert Run(ops[..1]) == [(key, first)];
    assert Run(ops) == [(key, first), (key, second)];
    assert RemoveFirst([(key, first), (key, second)], key) == [(key, second)];
  }
}
