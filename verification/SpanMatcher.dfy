/**
  The span-trace matcher of `azure_core_test::tracing`.

  A failed assertion, an `unwrap` of `None` and an index out of bounds all end the test, so each is
  modelled as a rejection. The greedy matcher (`CheckSpans`) is proved equal to the step function
  `Run`, and `Run` is proved equivalent to an existential specification that mentions no cursor:
  a valid assignment of recorded spans to expected spans in which every wildcard group is separated
  from its successor.
  */
module SpanMatcher {
  import opened Basics

  type Uuid = nat
  type SpanId = seq<nat>

  datatype SpanKind = Internal | Client | Server | Producer | Consumer
  datatype SpanStatus = Unset | Error(description: string)

  datatype Float = NaN | Infinity(negative: bool) | Finite(value: real)
  datatype AttributeArray = Bools(bools: seq<bool>) | I64s(ints: seq<int>) | F64s(floats: seq<Float>) | Strings(strings: seq<string>)
  datatype AttributeValue = Bool(b: bool) | I64(i: int) | F64(f: Float) | String(s: string) | Array(a: AttributeArray)
  datatype Attribute = Attribute(key: string, value: AttributeValue)

  /** What the mock tracer has recorded about a span when the check starts. */
  datatype Span = Span(
    name: string, kind: SpanKind, parent: Option<SpanId>, id: SpanId,
    attributes: seq<Attribute>, status: SpanStatus, isOpen: bool)

  datatype ExpectedSpan = ExpectedSpan(
    name: string, status: SpanStatus, spanId: Uuid, parentId: Option<Uuid>, kind: SpanKind,
    attributes: seq<Attribute>, isWildcard: bool)

  const ANY := String("<ANY>")

  /** Rust's derived `==`: structural, except that a NaN differs from itself. */
  predicate ValueEq(a: AttributeValue, b: AttributeValue) {
    a == b && !(a.F64? && a.f.NaN?) && !(a.Array? && a.a.F64s? && NaN in a.a.floats)
  }

  // ---------- One span against one expectation ----------

  /** The expected entry that governs `key` is the first one with that key. */
  ghost predicate GovernedBy(expected: seq<Attribute>, key: string, k: nat) {
    && k < |expected| && expected[k].key == key
    && forall j :: 0 <= j < k ==> expected[j].key != key
  }

  ghost predicate AttributeAccepted(attr: Attribute, expected: seq<Attribute>) {
    exists k: nat :: GovernedBy(expected, attr.key, k) &&
                     (expected[k].value == ANY || ValueEq(attr.value, expected[k].value))
  }

  ghost predicate AttributesMatch(actual: seq<Attribute>, expected: seq<Attribute>) {
    && (forall i :: 0 <= i < |actual| ==> AttributeAccepted(actual[i], expected))
    && (forall k :: 0 <= k < |expected| ==> HasKey(actual, expected[k].key))
  }

  predicate HasKey(attributes: seq<Attribute>, key: string) {
    exists i :: 0 <= i < |attributes| && attributes[i].key == key
  }

  predicate SameShape(span: Span, expected: ExpectedSpan) {
    span.name == expected.name && span.kind == expected.kind && span.status == expected.status
  }

  /** The parent the expectation names has already been matched, and to `id`. */
  predicate ParentIs(expected: ExpectedSpan, parents: map<Uuid, SpanId>, id: SpanId) {
    && expected.parentId.Some?
    && expected.parentId.value in parents
    && parents[expected.parentId.value] == id
  }

  predicate ParentMatches(span: Span, expected: ExpectedSpan, parents: map<Uuid, SpanId>) {
    if span.parent.None? then expected.parentId.None? else ParentIs(expected, parents, span.parent.value)
  }

  ghost predicate Matches(span: Span, expected: ExpectedSpan, parents: map<Uuid, SpanId>) {
    && SameShape(span, expected)
    && ParentMatches(span, expected, parents)
    && AttributesMatch(span.attributes, expected.attributes)
  }

  /** The comparison reaches an `unwrap` of a parent that is not expected or not yet matched. */
  predicate Unwraps(span: Span, expected: ExpectedSpan, parents: map<Uuid, SpanId>) {
    && SameShape(span, expected)
    && span.parent.Some?
    && (expected.parentId.None? || expected.parentId.value !in parents)
  }

  datatype Verdict = Match | Mismatch | Panic

  /** Both matchers run the same attribute loops; the source writes them out twice. */
  method CompareAttributes(actual: seq<Attribute>, expected: seq<Attribute>) returns (same: bool)
    ensures same <==> AttributesMatch(actual, expected)
  {
    for i := 0 to |actual|
      invariant forall j :: 0 <= j < i ==> AttributeAccepted(actual[j], expected)
    {
      var attr := actual[i];
      var found := false;
      for k := 0 to |expected|
        invariant !found && forall j :: 0 <= j < k ==> expected[j].key != attr.key
      {
        if attr.key == expected[k].key {
          assert GovernedBy(expected, attr.key, k);
          if expected[k].value != ANY && !ValueEq(attr.value, expected[k].value) {
            assert forall n: nat :: GovernedBy(expected, attr.key, n) ==> n == k;
            assert !AttributeAccepted(actual[i], expected);
            return false;
          }
          found := true;
          break;
        }
      }
      if !found {
        return false;
      }
    }
    for k := 0 to |expected|
      invariant forall j :: 0 <= j < k ==> HasKey(actual, expected[j].key)
    {
      if !HasKey(actual, expected[k].key) {
        return false;
      }
    }
    return true;
  }

  /** `compare_span_information`: it never looks at whether the span has ended. */
  method CompareSpan(actual: Span, expected: ExpectedSpan, parents: map<Uuid, SpanId>) returns (verdict: Verdict)
    ensures verdict.Panic? <==> Unwraps(actual, expected, parents)
    ensures verdict.Match? <==> Matches(actual, expected, parents)
  {
    if actual.name != expected.name || actual.kind != expected.kind || actual.status != expected.status {
      return Mismatch;
    }
    match actual.parent {
      case None =>
        if expected.parentId.Some? {
          return Mismatch;
        }
      case Some(parent) =>
        if expected.parentId.None? || expected.parentId.value !in parents {
          return Panic;
        }
        if parent != parents[expected.parentId.value] {
          return Mismatch;
        }
    }
    var same := CompareAttributes(actual.attributes, expected.attributes);
    return if same then Match else Mismatch;
  }

  /** `check_span_information` completes exactly when the comparison matches and the span has ended. */
  method CheckSpan(span: Span, expected: ExpectedSpan, parents: map<Uuid, SpanId>) returns (completes: bool)
    ensures completes <==> Matches(span, expected, parents) && !span.isOpen
  {
    if span.name != expected.name || span.kind != expected.kind || span.status != expected.status {
      return false;
    }
    match span.parent {
      case None =>
        if expected.parentId.Some? {
          return false;
        }
      case Some(parent) =>
        if expected.parentId.None? || expected.parentId.value !in parents || parent != parents[expected.parentId.value] {
          return false;
        }
    }
    var same := CompareAttributes(span.attributes, expected.attributes);
    return same && !span.isOpen;
  }

  // ---------- The greedy matcher as a step function ----------

  datatype State = State(cursor: nat, parents: map<Uuid, SpanId>)

  /** One turn of the loop over recorded spans; `None` is a rejection. */
  ghost function Step(spans: seq<Span>, expected: seq<ExpectedSpan>, i: nat, st: State): Option<State>
    requires i < |spans|
  {
    if st.cursor >= |expected| then None
    else
      var e := expected[st.cursor];
      if !Matches(spans[i], e, st.parents) || spans[i].isOpen then None
      else
        var parents := st.parents[e.spanId := spans[i].id];
        if !e.isWildcard || i + 1 == |spans| then Some(State(st.cursor + 1, parents))
        else if Unwraps(spans[i + 1], e, parents) then None
        else if Matches(spans[i + 1], e, parents) then Some(State(st.cursor, parents))
        else Some(State(st.cursor + 1, parents))
  }

  ghost function Run(spans: seq<Span>, expected: seq<ExpectedSpan>, n: nat): Option<State>
    requires n <= |spans|
  {
    if n == 0 then Some(State(0, map[]))
    else
      match Run(spans, expected, n - 1)
      case None => None
      case Some(st) => Step(spans, expected, n - 1, st)
  }

  predicate NoWildcards(expected: seq<ExpectedSpan>) {
    forall k :: 0 <= k < |expected| ==> !expected[k].isWildcard
  }

  ghost predicate Accepts(spans: seq<Span>, expected: seq<ExpectedSpan>) {
    && (NoWildcards(expected) ==> |spans| == |expected|)
    && Run(spans, expected, |spans|).Some?
    && Run(spans, expected, |spans|).value.cursor == |expected|
  }

  /** A rejected prefix is never recovered from. */
  lemma {:induction false} RejectedStays(spans: seq<Span>, expected: seq<ExpectedSpan>, i: nat, n: nat)
    requires i <= n <= |spans|
    ensures Run(spans, expected, i).None? ==> Run(spans, expected, n).None?
    decreases n
  {
    if i < n {
      RejectedStays(spans, expected, i, n - 1);
    }
  }

  /** The body of `check_instrumentation_result` for one tracer. */
  method CheckSpans(spans: seq<Span>, expected: seq<ExpectedSpan>) returns (accepted: bool)
    ensures accepted <==> Accepts(spans, expected)
  {
    if NoWildcards(expected) && |spans| != |expected| {
      return false;
    }
    var parents: map<Uuid, SpanId> := map[];
    var cursor := 0;
    for i := 0 to |spans|
      invariant Run(spans, expected, i) == Some(State(cursor, parents))
    {
      ghost var st := State(cursor, parents);
      assert Run(spans, expected, i + 1) == Step(spans, expected, i, st);
      if cursor >= |expected| {
        RejectedStays(spans, expected, i + 1, |spans|);
        return false;
      }
      var completes := CheckSpan(spans[i], expected[cursor], parents);
      if !completes {
        RejectedStays(spans, expected, i + 1, |spans|);
        return false;
      }
      parents := parents[expected[cursor].spanId := spans[i].id];
      if expected[cursor].isWildcard {
        if |spans| > i + 1 {
          var verdict := CompareSpan(spans[i + 1], expected[cursor], parents);
          if verdict.Panic? {
            RejectedStays(spans, expected, i + 1, |spans|);
            return false;
          }
          if verdict.Mismatch? {
            cursor := cursor + 1;
          }
        } else {
          cursor := cursor + 1;
        }
      } else {
        cursor := cursor + 1;
      }
    }
    return cursor == |expected|;
  }

  // ---------- The existential specification ----------

  /** `a[i]` is the expectation that recorded span `i` is charged to. */
  type Assignment = seq<nat>

  ghost predicate InRange(spans: seq<Span>, expected: seq<ExpectedSpan>, a: Assignment) {
    |a| == |spans| && forall i :: 0 <= i < |a| ==> a[i] < |expected|
  }

  /** The parent ids known after the first `n` spans have been charged: the latest span wins. */
  ghost function Parents(spans: seq<Span>, expected: seq<ExpectedSpan>, a: Assignment, n: nat): map<Uuid, SpanId>
    requires InRange(spans, expected, a) && n <= |spans|
  {
    if n == 0 then map[]
    else Parents(spans, expected, a, n - 1)[expected[a[n - 1]].spanId := spans[n - 1].id]
  }

  /** Span `j` is the latest of the first `n` spans charged to an expectation with identifier `u`. */
  ghost predicate LatestFor(expected: seq<ExpectedSpan>, a: Assignment, n: nat, u: Uuid, j: nat)
    requires n <= |a| && forall i :: 0 <= i < |a| ==> a[i] < |expected|
  {
    && j < n && expected[a[j]].spanId == u
    && forall l :: j < l < n ==> expected[a[l]].spanId != u
  }

  /** What the parent map means: the id of the latest earlier span charged to the named expectation. */
  lemma {:induction false} ParentsSpec(spans: seq<Span>, expected: seq<ExpectedSpan>, a: Assignment, n: nat, u: Uuid)
    requires InRange(spans, expected, a) && n <= |spans|
    ensures u in Parents(spans, expected, a, n) ==>
              exists j: nat :: LatestFor(expected, a, n, u, j) && Parents(spans, expected, a, n)[u] == spans[j].id
    ensures u !in Parents(spans, expected, a, n) ==> forall j :: 0 <= j < n ==> expected[a[j]].spanId != u
  {
    if n == 0 {
    } else {
      ParentsSpec(spans, expected, a, n - 1, u);
      if expected[a[n - 1]].spanId == u {
        assert LatestFor(expected, a, n, u, n - 1);
      } else if u in Parents(spans, expected, a, n - 1) {
        var j: nat :| LatestFor(expected, a, n - 1, u, j) && Parents(spans, expected, a, n - 1)[u] == spans[j].id;
        assert LatestFor(expected, a, n, u, j);
      }
    }
  }

  /** Monotone, onto, and shared only by wildcards. */
  ghost predicate Covers(expected: seq<ExpectedSpan>, a: Assignment)
    requires forall i :: 0 <= i < |a| ==> a[i] < |expected|
  {
    && (forall i, j :: 0 <= i < j < |a| ==> a[i] <= a[j])
    && (forall k: nat :: k < |expected| ==> k in a)
    && (forall i, j :: 0 <= i < j < |a| && a[i] == a[j] ==> expected[a[i]].isWildcard)
  }

  /** Span `i` has ended and matches its expectation under the parents known before it. */
  ghost predicate ChargedAt(spans: seq<Span>, expected: seq<ExpectedSpan>, a: Assignment, i: nat)
    requires InRange(spans, expected, a) && i < |spans|
  {
    Matches(spans[i], expected[a[i]], Parents(spans, expected, a, i)) && !spans[i].isOpen
  }

  ghost predicate Valid(spans: seq<Span>, expected: seq<ExpectedSpan>, a: Assignment) {
    && InRange(spans, expected, a)
    && Covers(expected, a)
    && forall i: nat :: i < |spans| ==> ChargedAt(spans, expected, a, i)
  }

  /** The first span after a wildcard group neither matches that wildcard nor trips an `unwrap`. */
  ghost predicate SeparatedAt(spans: seq<Span>, expected: seq<ExpectedSpan>, a: Assignment, i: nat)
    requires InRange(spans, expected, a) && i + 1 < |spans|
  {
    expected[a[i]].isWildcard && a[i + 1] != a[i] ==>
      && !Matches(spans[i + 1], expected[a[i]], Parents(spans, expected, a, i + 1))
      && !Unwraps(spans[i + 1], expected[a[i]], Parents(spans, expected, a, i + 1))
  }

  ghost predicate Separated(spans: seq<Span>, expected: seq<ExpectedSpan>, a: Assignment)
    requires InRange(spans, expected, a)
  {
    forall i: nat :: i + 1 < |spans| ==> SeparatedAt(spans, expected, a, i)
  }

  /** A monotone onto assignment moves in steps of at most one. */
  lemma CoversUnitStep(expected: seq<ExpectedSpan>, a: Assignment, i: nat)
    requires forall j :: 0 <= j < |a| ==> a[j] < |expected|
    requires Covers(expected, a) && i + 1 < |a|
    ensures a[i + 1] == a[i] || a[i + 1] == a[i] + 1
  {
    if a[i] + 1 < |expected| {
      assert a[i] + 1 in a;
      var m :| 0 <= m < |a| && a[m] == a[i] + 1;
      assert i < m;
    }
  }

  /** It starts at the first expectation and ends at the last. */
  lemma CoversEnds(expected: seq<ExpectedSpan>, a: Assignment)
    requires forall j :: 0 <= j < |a| ==> a[j] < |expected|
    requires Covers(expected, a)
    ensures |a| == 0 ==> |expected| == 0
    ensures |a| > 0 ==> a[0] == 0 && a[|a| - 1] == |expected| - 1
  {
    assert |expected| > 0 ==> 0 in a && |expected| - 1 in a;
    if |a| > 0 {
      assert 0 <= a[0] < |expected|;
    }
  }

  /** Without wildcards it is the identity, so the lengths agree. */
  lemma {:induction false} IdentityWithoutWildcards(expected: seq<ExpectedSpan>, a: Assignment, n: nat)
    requires forall i :: 0 <= i < |a| ==> a[i] < |expected|
    requires Covers(expected, a) && NoWildcards(expected) && n < |a|
    ensures a[n] == n
  {
    if n == 0 {
      CoversEnds(expected, a);
    } else {
      IdentityWithoutWildcards(expected, a, n - 1);
      CoversUnitStep(expected, a, n - 1);
      assert a[n - 1] != a[n];
    }
  }

  /** On a valid, separated assignment one turn moves the cursor as the assignment does. */
  lemma StepFollows(spans: seq<Span>, expected: seq<ExpectedSpan>, a: Assignment, i: nat)
    requires Valid(spans, expected, a) && Separated(spans, expected, a)
    requires i < |spans|
    ensures Step(spans, expected, i, State(a[i], Parents(spans, expected, a, i))) ==
            Some(State(if i + 1 < |spans| then a[i + 1] else |expected|, Parents(spans, expected, a, i + 1)))
  {
    CoversEnds(expected, a);
    var before, after := Parents(spans, expected, a, i), Parents(spans, expected, a, i + 1);
    assert after == before[expected[a[i]].spanId := spans[i].id];
    assert ChargedAt(spans, expected, a, i);
    if i + 1 < |spans| {
      assert SeparatedAt(spans, expected, a, i);
      CoversUnitStep(expected, a, i);
      if a[i + 1] == a[i] {
        assert ChargedAt(spans, expected, a, i + 1);
        assert expected[a[i]].isWildcard;
      }
    }
  }

  /** Completeness: the greedy cursor follows a valid, separated assignment exactly. */
  lemma {:induction false} RunFollows(spans: seq<Span>, expected: seq<ExpectedSpan>, a: Assignment, n: nat)
    requires Valid(spans, expected, a) && Separated(spans, expected, a)
    requires n <= |spans|
    ensures Run(spans, expected, n) ==
            Some(State(if n < |spans| then a[n] else |expected|, Parents(spans, expected, a, n)))
  {
    hide Matches, Unwraps;
    CoversEnds(expected, a);
    if n == 0 {
    } else {
      RunFollows(spans, expected, a, n - 1);
      StepFollows(spans, expected, a, n - 1);
    }
  }

  ghost function CursorAt(spans: seq<Span>, expected: seq<ExpectedSpan>, i: nat): nat
    requires i <= |spans|
  {
    if Run(spans, expected, i).Some? then Run(spans, expected, i).value.cursor else 0
  }

  /** The assignment read off a run. */
  ghost function Cursors(spans: seq<Span>, expected: seq<ExpectedSpan>): Assignment {
    seq(|spans|, i requires 0 <= i < |spans| => CursorAt(spans, expected, i))
  }

  lemma CursorsInRange(spans: seq<Span>, expected: seq<ExpectedSpan>)
    requires Run(spans, expected, |spans|).Some?
    ensures InRange(spans, expected, Cursors(spans, expected))
  {
    hide Matches, Unwraps;
    var a := Cursors(spans, expected);
    forall i | 0 <= i < |a|
      ensures a[i] < |expected|
    {
      RejectedStays(spans, expected, i + 1, |spans|);
    }
  }

  lemma {:induction false} RunParents(spans: seq<Span>, expected: seq<ExpectedSpan>, n: nat)
    requires n <= |spans| && Run(spans, expected, |spans|).Some?
    ensures var a := Cursors(spans, expected);
            && InRange(spans, expected, a)
            && Run(spans, expected, n).Some?
            && Run(spans, expected, n).value.parents == Parents(spans, expected, a, n)
  {
    hide Matches, Unwraps;
    CursorsInRange(spans, expected);
    RejectedStays(spans, expected, n, |spans|);
    if n == 0 {
    } else {
      RunParents(spans, expected, n - 1);
    }
  }

  /** Every turn keeps the cursor or advances it by one, and keeps it only on a wildcard. */
  lemma CursorStep(spans: seq<Span>, expected: seq<ExpectedSpan>, i: nat)
    requires i < |spans| && Run(spans, expected, |spans|).Some?
    ensures var c, c' := CursorAt(spans, expected, i), CursorAt(spans, expected, i + 1);
            c < |expected| && (c' == c + 1 || (c' == c && expected[c].isWildcard))
  {
    hide Matches, Unwraps;
    RejectedStays(spans, expected, i + 1, |spans|);
  }

  lemma {:induction false} CursorMonotone(spans: seq<Span>, expected: seq<ExpectedSpan>, i: nat, j: nat)
    requires i < j <= |spans| && Run(spans, expected, |spans|).Some?
    ensures var c, c' := CursorAt(spans, expected, i), CursorAt(spans, expected, j);
            c < |expected| && c <= c' && (c == c' ==> expected[c].isWildcard)
    decreases j
  {
    hide CursorAt;
    CursorStep(spans, expected, j - 1);
    if i < j - 1 {
      CursorMonotone(spans, expected, i, j - 1);
    }
  }

  /** A cursor that has passed `k` stood on `k` at some earlier turn. */
  lemma {:induction false} CursorVisits(spans: seq<Span>, expected: seq<ExpectedSpan>, n: nat, k: nat) returns (i: nat)
    requires n <= |spans| && Run(spans, expected, |spans|).Some?
    requires k < CursorAt(spans, expected, n)
    ensures i < n && CursorAt(spans, expected, i) == k
  {
    hide Matches, Unwraps;
    if n == 0 {
      assert false;
    }
    CursorStep(spans, expected, n - 1);
    if CursorAt(spans, expected, n - 1) == k {
      i := n - 1;
    } else {
      i := CursorVisits(spans, expected, n - 1, k);
    }
  }

  /** What one turn of an accepting run has checked. */
  lemma AcceptedTurn(spans: seq<Span>, expected: seq<ExpectedSpan>, i: nat)
    requires i < |spans| && Run(spans, expected, |spans|).Some?
    ensures var a := Cursors(spans, expected);
            && InRange(spans, expected, a)
            && ChargedAt(spans, expected, a, i)
            && (i + 1 < |spans| ==> SeparatedAt(spans, expected, a, i))
  {
    hide Matches, Unwraps;
    RunParents(spans, expected, i);
    RunParents(spans, expected, i + 1);
  }

  /** Soundness: an accepting run yields a valid and separated assignment. */
  lemma AcceptedHasAssignment(spans: seq<Span>, expected: seq<ExpectedSpan>) returns (a: Assignment)
    requires Accepts(spans, expected)
    ensures Valid(spans, expected, a) && Separated(spans, expected, a)
  {
    a := Cursors(spans, expected);
    RunParents(spans, expected, 0);
    forall i, j | 0 <= i < j < |a|
      ensures a[i] <= a[j] && (a[i] == a[j] ==> expected[a[i]].isWildcard)
    {
      CursorMonotone(spans, expected, i, j);
    }
    forall k: nat | k < |expected|
      ensures k in a
    {
      var i := CursorVisits(spans, expected, |spans|, k);
      assert a[i] == k;
    }
    forall i: nat | i < |spans|
      ensures ChargedAt(spans, expected, a, i)
      ensures i + 1 < |spans| ==> SeparatedAt(spans, expected, a, i)
    {
      AcceptedTurn(spans, expected, i);
    }
  }

  /** The greedy matcher accepts exactly the traces with a valid and separated assignment. */
  lemma AcceptsIff(spans: seq<Span>, expected: seq<ExpectedSpan>)
    ensures Accepts(spans, expected) <==>
            exists a :: Valid(spans, expected, a) && Separated(spans, expected, a)
  {
    if Accepts(spans, expected) {
      var a := AcceptedHasAssignment(spans, expected);
    }
    forall a | Valid(spans, expected, a) && Separated(spans, expected, a)
      ensures Accepts(spans, expected)
    {
      RunFollows(spans, expected, a, |spans|);
      CoversEnds(expected, a);
      if NoWildcards(expected) && |a| > 0 {
        IdentityWithoutWildcards(expected, a, |a| - 1);
      }
    }
  }

  /** Without separation greedy rejects a trace that has a valid assignment: the wildcard swallows its successor. */
  lemma GreedyRejectsAssignable() returns (spans: seq<Span>, expected: seq<ExpectedSpan>, a: Assignment)
    ensures Valid(spans, expected, a) && !Accepts(spans, expected)
  {
    var get := Span("get", Client, None, [0], [], Unset, false);
    var wild := ExpectedSpan("get", Unset, 0, None, Client, [], true);
    spans, expected, a := [get, get.(id := [1])], [wild, wild.(spanId := 1, isWildcard := false)], [0, 1];
    assert a[0] == 0 && a[1] == 1;
    var parents: map<Uuid, SpanId> := map[0 := [0]];
    assert Run(spans, expected, 1) == Step(spans, expected, 0, State(0, map[])) == Some(State(0, parents));
    assert Run(spans, expected, 2) == Step(spans, expected, 1, State(0, parents)) == Some(State(1, parents[0 := [1]]));
  }

  // ---------- All tracers ----------

  datatype Tracer = Tracer(name: string, version: Option<string>, namespace: Option<string>, spans: seq<Span>)
  datatype ExpectedTracer = ExpectedTracer(name: string, version: Option<string>, namespace: Option<string>, spans: seq<ExpectedSpan>)

  ghost predicate TracerAccepted(tracer: Tracer, expected: ExpectedTracer) {
    && tracer.name == expected.name && tracer.version == expected.version && tracer.namespace == expected.namespace
    && exists a :: Valid(tracer.spans, expected.spans, a) && Separated(tracer.spans, expected.spans, a)
  }

  /** `check_instrumentation_result` returns exactly when every tracer is accepted in order. */
  method CheckInstrumentation(tracers: seq<Tracer>, expected: seq<ExpectedTracer>) returns (accepted: bool)
    ensures accepted <==> |tracers| == |expected| && forall t :: 0 <= t < |tracers| ==> TracerAccepted(tracers[t], expected[t])
  {
    if |tracers| != |expected| {
      return false;
    }
    for t := 0 to |expected|
      invariant forall u :: 0 <= u < t ==> TracerAccepted(tracers[u], expected[u])
    {
      if tracers[t].name != expected[t].name || tracers[t].version != expected[t].version || tracers[t].namespace != expected[t].namespace {
        assert !TracerAccepted(tracers[t], expected[t]);
        return false;
      }
      var good := CheckSpans(tracers[t].spans, expected[t].spans);
      AcceptsIff(tracers[t].spans, expected[t].spans);
      if !good {
        assert !TracerAccepted(tracers[t], expected[t]);
        return false;
      }
    }
    return true;
  }
}
