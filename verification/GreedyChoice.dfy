/**
  For which expectations greedy matching loses nothing.

  The matcher never gives back a span it has charged to a wildcard. It still decides, for every trace the mock
  tracer records, whether a valid assignment exists, unless a wildcard can be confused with the expectation after
  it; whether it can is read off the two expectations.
  */
module GreedyChoice {
  import opened Basics
  import opened SpanMatcher

  // ---------- Traces as the mock tracer records them ----------

  /** Every span draws an id of its own. */
  predicate DistinctIds(spans: seq<Span>) {
    forall i, j :: 0 <= i < j < |spans| ==> spans[i].id != spans[j].id
  }

  /** A parent is a span that was started earlier, or one that this tracer did not start. */
  predicate Recorded(spans: seq<Span>) {
    && DistinctIds(spans)
    && forall i, j :: 0 <= i <= j < |spans| ==> spans[i].parent != Some(spans[j].id)
  }

  predicate Injective(known: map<Uuid, SpanId>) {
    forall p, q :: p in known && q in known && known[p] == known[q] ==> p == q
  }

  /** With distinct ids, expectations that name different parents are met by different spans. */
  lemma ParentsDiffer(spans: seq<Span>, expected: seq<ExpectedSpan>, a: Assignment, n: nat)
    requires InRange(spans, expected, a) && n <= |spans| && DistinctIds(spans)
    ensures Injective(Parents(spans, expected, a, n))
  {
    var known := Parents(spans, expected, a, n);
    forall p, q | p in known && q in known && known[p] == known[q]
      ensures p == q
    {
      ParentsSpec(spans, expected, a, n, p);
      ParentsSpec(spans, expected, a, n, q);
      var i: nat :| LatestFor(expected, a, n, p, i) && known[p] == spans[i].id;
      var j: nat :| LatestFor(expected, a, n, q, j) && known[q] == spans[j].id;
      assert i == j;
    }
  }

  // ---------- Attributes of two expectations ----------

  /** The value expected for a key: that of the first entry with the key. */
  function Governing(attributes: seq<Attribute>, key: string): (value: Option<AttributeValue>)
    ensures value.Some? <==> HasKey(attributes, key)
  {
    if |attributes| == 0 then None
    else if attributes[0].key == key then
      assert HasKey(attributes, key);
      Some(attributes[0].value)
    else
      assert HasKey(attributes, key) <==> HasKey(attributes[1..], key) by {
        RestHasKey(attributes, key);
      }
      Governing(attributes[1..], key)
  }

  lemma RestHasKey(attributes: seq<Attribute>, key: string)
    requires |attributes| > 0 && attributes[0].key != key
    ensures HasKey(attributes, key) <==> HasKey(attributes[1..], key)
  {
    if HasKey(attributes, key) {
      var i :| 0 <= i < |attributes| && attributes[i].key == key;
      assert attributes[1..][i - 1].key == key;
    }
    if HasKey(attributes[1..], key) {
      var i :| 0 <= i < |attributes[1..]| && attributes[1..][i].key == key;
      assert attributes[i + 1].key == key;
    }
  }

  lemma {:induction false} GoverningAt(attributes: seq<Attribute>, key: string, k: nat)
    requires GovernedBy(attributes, key, k)
    ensures Governing(attributes, key) == Some(attributes[k].value)
  {
    if k == 0 {
    } else {
      GoverningAt(attributes[1..], key, k - 1);
    }
  }

  lemma {:induction false} GoverningExists(attributes: seq<Attribute>, key: string) returns (k: nat)
    requires HasKey(attributes, key)
    ensures GovernedBy(attributes, key, k)
  {
    if attributes[0].key == key {
      k := 0;
    } else {
      RestHasKey(attributes, key);
      var i := GoverningExists(attributes[1..], key);
      k := i + 1;
    }
  }

  lemma AcceptedIff(attr: Attribute, expected: seq<Attribute>)
    ensures AttributeAccepted(attr, expected) <==>
            var value := Governing(expected, attr.key); value.Some? && (value.value == ANY || ValueEq(attr.value, value.value))
  {
    if AttributeAccepted(attr, expected) {
      var k: nat :| GovernedBy(expected, attr.key, k) && (expected[k].value == ANY || ValueEq(attr.value, expected[k].value));
      GoverningAt(expected, attr.key, k);
    }
    if Governing(expected, attr.key).Some? {
      var k := GoverningExists(expected, attr.key);
      GoverningAt(expected, attr.key, k);
    }
  }

  /** The same keys, and no key for which two different values are demanded. */
  predicate Compatible(a: seq<Attribute>, b: seq<Attribute>) {
    && (forall i :: 0 <= i < |a| ==> HasKey(b, a[i].key))
    && (forall i :: 0 <= i < |b| ==> HasKey(a, b[i].key))
    && (forall i :: 0 <= i < |b| ==> Agreeing(a, b, b[i].key))
  }

  predicate Agreeing(a: seq<Attribute>, b: seq<Attribute>, key: string) {
    var u, v := Governing(a, key), Governing(b, key);
    u.Some? && v.Some? ==> u.value == ANY || v.value == ANY || ValueEq(v.value, u.value)
  }

  lemma MatchesBoth(actual: seq<Attribute>, a: seq<Attribute>, b: seq<Attribute>)
    requires AttributesMatch(actual, a) && AttributesMatch(actual, b)
    ensures Compatible(a, b)
  {
    forall i | 0 <= i < |a|
      ensures HasKey(b, a[i].key)
    {
      KeyMatched(actual, a, b, i);
    }
    forall i | 0 <= i < |b|
      ensures HasKey(a, b[i].key) && Agreeing(a, b, b[i].key)
    {
      KeyMatched(actual, b, a, i);
    }
  }

  lemma KeyMatched(actual: seq<Attribute>, a: seq<Attribute>, b: seq<Attribute>, i: nat)
    requires AttributesMatch(actual, a) && AttributesMatch(actual, b) && i < |a|
    ensures HasKey(b, a[i].key) && Agreeing(b, a, a[i].key)
  {
    assert HasKey(actual, a[i].key);
    var k :| 0 <= k < |actual| && actual[k].key == a[i].key;
    AcceptedIff(actual[k], a);
    AcceptedIff(actual[k], b);
  }

  // ---------- What can be confused ----------

  /** A span charged to `f` may match the wildcard `e` before it too, or trip an `unwrap`. */
  predicate Confused(e: ExpectedSpan, f: ExpectedSpan) {
    && e.isWildcard && e.name == f.name && e.kind == f.kind && e.status == f.status
    && (if e.parentId == f.parentId then Compatible(e.attributes, f.attributes) else e.parentId.None?)
  }

  predicate Confusable(expected: seq<ExpectedSpan>) {
    exists k: nat :: k + 1 < |expected| && Confused(expected[k], expected[k + 1])
  }

  lemma ConfusedBy(e: ExpectedSpan, f: ExpectedSpan, first: Span, next: Span, before: map<Uuid, SpanId>, known: map<Uuid, SpanId>)
    requires e.isWildcard && Matches(first, e, before) && before.Keys <= known.Keys && Matches(next, f, known) && Injective(known)
    requires Matches(next, e, known) || Unwraps(next, e, known)
    ensures Confused(e, f)
  {
    if Matches(next, e, known) {
      MatchesBoth(next.attributes, e.attributes, f.attributes);
    }
    hide AttributesMatch, Compatible;
  }

  lemma SeparatedWithout(spans: seq<Span>, expected: seq<ExpectedSpan>, a: Assignment, i: nat)
    requires Valid(spans, expected, a) && i + 1 < |spans| && !Confusable(expected) && DistinctIds(spans)
    ensures SeparatedAt(spans, expected, a, i)
  {
    hide Matches, Unwraps, Confused, Injective;
    ParentsDiffer(spans, expected, a, i + 1);
    CoversUnitStep(expected, a, i);
    if !SeparatedAt(spans, expected, a, i) {
      var k := a[i];
      assert ChargedAt(spans, expected, a, i) && ChargedAt(spans, expected, a, i + 1);
      ConfusedBy(expected[k], expected[k + 1], spans[i], spans[i + 1], Parents(spans, expected, a, i), Parents(spans, expected, a, i + 1));
    }
  }

  // ---------- Which lists have an assignable trace ----------

  predicate KnownBefore(expected: seq<ExpectedSpan>, j: nat, id: Uuid)
    requires j <= |expected|
  {
    exists i :: 0 <= i < j && expected[i].spanId == id
  }

  /** No value is demanded that differs from itself. */
  predicate Reachable(attributes: seq<Attribute>) {
    forall i :: 0 <= i < |attributes| ==>
                  var value := Governing(attributes, attributes[i].key); value.Some? ==> value.value == ANY || ValueEq(value.value, value.value)
  }

  /** Every parent is that of an earlier expectation, and every attribute can be met. */
  predicate Satisfiable(expected: seq<ExpectedSpan>) {
    forall j :: 0 <= j < |expected| ==>
                  && Reachable(expected[j].attributes)
                  && (expected[j].parentId.Some? ==> KnownBefore(expected, j, expected[j].parentId.value))
  }

  lemma ReachableIfMatched(actual: seq<Attribute>, expected: seq<Attribute>)
    requires AttributesMatch(actual, expected)
    ensures Reachable(expected)
  {
    forall i | 0 <= i < |expected|
      ensures var value := Governing(expected, expected[i].key); value.Some? ==> value.value == ANY || ValueEq(value.value, value.value)
    {
      assert HasKey(actual, expected[i].key);
      var k :| 0 <= k < |actual| && actual[k].key == expected[i].key;
      AcceptedIff(actual[k], expected);
    }
  }

  /** The first span charged to an expectation. */
  lemma {:induction false} FirstCharged(expected: seq<ExpectedSpan>, a: Assignment, k: nat, n: nat) returns (i: nat)
    requires forall m :: 0 <= m < |a| ==> a[m] < |expected|
    requires Covers(expected, a) && n < |a| && a[n] == k
    ensures i <= n && a[i] == k && forall m :: 0 <= m < i ==> a[m] < k
  {
    if n == 0 || a[n - 1] != k {
      i := n;
    } else {
      i := FirstCharged(expected, a, k, n - 1);
    }
  }

  lemma SatisfiableIfValid(spans: seq<Span>, expected: seq<ExpectedSpan>, a: Assignment)
    requires Valid(spans, expected, a)
    ensures Satisfiable(expected)
  {
    forall j: nat | j < |expected|
      ensures Reachable(expected[j].attributes)
      ensures expected[j].parentId.Some? ==> KnownBefore(expected, j, expected[j].parentId.value)
    {
      assert j in a;
      var n :| 0 <= n < |a| && a[n] == j;
      var i := FirstCharged(expected, a, j, n);
      assert ChargedAt(spans, expected, a, i);
      ReachableIfMatched(spans[i].attributes, expected[j].attributes);
      if expected[j].parentId.Some? {
        var id := expected[j].parentId.value;
        ParentsSpec(spans, expected, a, i, id);
        var m: nat :| LatestFor(expected, a, i, id, m);
        assert expected[a[m]].spanId == id;
      }
    }
  }

  // ---------- A trace on which confusion is fatal ----------

  /** The expected attributes with the values that govern them. */
  function Canonical(all: seq<Attribute>, n: nat): (attributes: seq<Attribute>)
    requires n <= |all|
    ensures |attributes| == n
    ensures forall i :: 0 <= i < n ==> attributes[i].key == all[i].key && Governing(all, all[i].key) == Some(attributes[i].value)
  {
    if n == 0 then []
    else
      assert HasKey(all, all[n - 1].key);
      Canonical(all, n - 1) + [Attribute(all[n - 1].key, Governing(all, all[n - 1].key).value)]
  }

  lemma CanonicalMatches(all: seq<Attribute>)
    requires Reachable(all)
    ensures AttributesMatch(Canonical(all, |all|), all)
  {
    var attributes := Canonical(all, |all|);
    hide Canonical;
    forall i | 0 <= i < |attributes|
      ensures AttributeAccepted(attributes[i], all) && HasKey(attributes, all[i].key)
    {
      AcceptedIff(attributes[i], all);
    }
  }

  /** Attributes with the keys of `b` that meet both lists: the value one demands where the other takes any. */
  function Shared(a: seq<Attribute>, b: seq<Attribute>, n: nat): (attributes: seq<Attribute>)
    requires n <= |b| && forall i :: 0 <= i < |b| ==> HasKey(a, b[i].key)
    ensures |attributes| == n
    ensures forall i :: 0 <= i < n ==> attributes[i] == SharedAt(a, b, b[i].key)
  {
    if n == 0 then [] else Shared(a, b, n - 1) + [SharedAt(a, b, b[n - 1].key)]
  }

  function SharedAt(a: seq<Attribute>, b: seq<Attribute>, key: string): Attribute {
    var u, v := Governing(a, key), Governing(b, key);
    Attribute(key, if v.Some? && v.value != ANY then v.value else if u.Some? then u.value else ANY)
  }

  lemma SharedHasKey(a: seq<Attribute>, b: seq<Attribute>, i: nat)
    requires Compatible(a, b) && i < |a|
    ensures HasKey(Shared(a, b, |b|), a[i].key)
  {
    assert HasKey(b, a[i].key);
    var k :| 0 <= k < |b| && b[k].key == a[i].key;
    assert Shared(a, b, |b|)[k].key == a[i].key;
  }

  lemma SharedMatches(a: seq<Attribute>, b: seq<Attribute>)
    requires Compatible(a, b) && Reachable(a) && Reachable(b)
    ensures var attributes := Shared(a, b, |b|); AttributesMatch(attributes, a) && AttributesMatch(attributes, b)
  {
    var attributes := Shared(a, b, |b|);
    hide Shared, AttributeAccepted, Reachable;
    forall i | 0 <= i < |attributes|
      ensures AttributeAccepted(attributes[i], a) && AttributeAccepted(attributes[i], b) && HasKey(attributes, b[i].key)
    {
      SharedAccepted(a, b, i);
      assert attributes[i].key == b[i].key;
    }
    forall i | 0 <= i < |a|
      ensures HasKey(attributes, a[i].key)
    {
      SharedHasKey(a, b, i);
    }
  }

  lemma SharedAccepted(a: seq<Attribute>, b: seq<Attribute>, i: nat)
    requires Compatible(a, b) && Reachable(a) && Reachable(b) && i < |b|
    ensures AttributeAccepted(SharedAt(a, b, b[i].key), a) && AttributeAccepted(SharedAt(a, b, b[i].key), b)
  {
    var key := b[i].key;
    assert HasKey(a, key) && HasKey(b, key) && Agreeing(a, b, key);
    var k :| 0 <= k < |a| && a[k].key == key;
    AcceptedIff(SharedAt(a, b, key), a);
    AcceptedIff(SharedAt(a, b, key), b);
  }

  /** The one after wildcard `k` meets the wildcard too if it can. */
  function WitnessAttributes(expected: seq<ExpectedSpan>, k: nat, j: nat): seq<Attribute>
    requires j < |expected|
  {
    var b := expected[j].attributes;
    if j == k + 1 && Compatible(expected[k].attributes, b) then Shared(expected[k].attributes, b, |b|) else Canonical(b, |b|)
  }

  function WitnessId(j: nat): SpanId {
    [j]
  }

  /** The id of the latest of the first `n` spans of the trace that stands for the expectation `id`. */
  function LatestId(expected: seq<ExpectedSpan>, n: nat, id: Uuid): SpanId
    requires n <= |expected|
  {
    if n == 0 then []
    else if expected[n - 1].spanId == id then WitnessId(n - 1)
    else LatestId(expected, n - 1, id)
  }

  lemma {:induction false} LatestIsEarlier(expected: seq<ExpectedSpan>, n: nat, id: Uuid, j: nat)
    requires n <= |expected| && n <= j
    ensures LatestId(expected, n, id) != WitnessId(j)
  {
    if n == 0 {
    } else {
      LatestIsEarlier(expected, n - 1, id, j);
    }
  }

  /** One closed span for each expectation, each with its own id. */
  function Witness(expected: seq<ExpectedSpan>, k: nat, j: nat): Span
    requires j < |expected|
  {
    var f := expected[j];
    var parent := if f.parentId.Some? then Some(LatestId(expected, j, f.parentId.value)) else None;
    Span(f.name, f.kind, parent, WitnessId(j), WitnessAttributes(expected, k, j), f.status, false)
  }

  function Trace(expected: seq<ExpectedSpan>, k: nat, n: nat): (spans: seq<Span>)
    requires n <= |expected|
    ensures |spans| == n
  {
    if n == 0 then [] else Trace(expected, k, n - 1) + [Witness(expected, k, n - 1)]
  }

  lemma {:induction false} TraceAt(expected: seq<ExpectedSpan>, k: nat, n: nat, j: nat)
    requires j < n <= |expected|
    ensures Trace(expected, k, n)[j] == Witness(expected, k, j)
  {
    hide Witness;
    if j == n - 1 {
    } else {
      TraceAt(expected, k, n - 1, j);
    }
  }

  function Identity(n: nat): (a: Assignment)
    ensures |a| == n && forall i :: 0 <= i < n ==> a[i] == i
  {
    if n == 0 then [] else Identity(n - 1) + [n - 1]
  }

  lemma {:induction false} TraceParents(expected: seq<ExpectedSpan>, k: nat, n: nat, id: Uuid)
    requires n <= |expected|
    ensures var spans, a := Trace(expected, k, |expected|), Identity(|expected|);
            && InRange(spans, expected, a)
            && (id in Parents(spans, expected, a, n) <==> KnownBefore(expected, n, id))
            && (id in Parents(spans, expected, a, n) ==> Parents(spans, expected, a, n)[id] == LatestId(expected, n, id))
  {
    hide Trace, Identity, WitnessAttributes;
    if n == 0 {
    } else {
      TraceAt(expected, k, |expected|, n - 1);
      TraceParents(expected, k, n - 1, id);
      assert expected[n - 1].spanId == id ==> KnownBefore(expected, n, id);
    }
  }

  lemma WitnessMatches(expected: seq<ExpectedSpan>, k: nat, j: nat)
    requires j < |expected| && Satisfiable(expected)
    ensures AttributesMatch(Witness(expected, k, j).attributes, expected[j].attributes)
    ensures j == k + 1 && Compatible(expected[k].attributes, expected[j].attributes) ==>
              AttributesMatch(Witness(expected, k, j).attributes, expected[k].attributes)
  {
    hide Canonical, Shared, AttributesMatch, Reachable;
    if j == k + 1 && Compatible(expected[k].attributes, expected[j].attributes) {
      SharedMatches(expected[k].attributes, expected[j].attributes);
    } else {
      CanonicalMatches(expected[j].attributes);
    }
  }

  lemma TraceCharged(expected: seq<ExpectedSpan>, k: nat, j: nat)
    requires j < |expected| && Satisfiable(expected)
    ensures var spans, a := Trace(expected, k, |expected|), Identity(|expected|);
            InRange(spans, expected, a) && ChargedAt(spans, expected, a, j)
  {
    WitnessMatches(expected, k, j);
    hide Trace, Identity, AttributesMatch, Reachable, Compatible, WitnessAttributes;
    TraceAt(expected, k, |expected|, j);
    TraceParents(expected, k, j, if expected[j].parentId.Some? then expected[j].parentId.value else 0);
  }

  lemma IdentityCovers(expected: seq<ExpectedSpan>)
    ensures Covers(expected, Identity(|expected|))
  {
    var a := Identity(|expected|);
    hide Identity;
    forall j: nat | j < |expected|
      ensures j in a
    {
      assert a[j] == j;
    }
  }

  lemma TraceValid(expected: seq<ExpectedSpan>, k: nat)
    requires Satisfiable(expected)
    ensures Valid(Trace(expected, k, |expected|), expected, Identity(|expected|))
  {
    var spans, a := Trace(expected, k, |expected|), Identity(|expected|);
    hide Trace, Identity, Satisfiable, ChargedAt, Covers;
    IdentityCovers(expected);
    forall j: nat | j < |expected|
      ensures ChargedAt(spans, expected, a, j)
    {
      TraceCharged(expected, k, j);
    }
  }

  lemma TraceRecorded(expected: seq<ExpectedSpan>, k: nat)
    ensures Recorded(Trace(expected, k, |expected|))
  {
    var spans := Trace(expected, k, |expected|);
    hide Trace, WitnessAttributes, LatestId;
    forall i: nat, j: nat | i <= j < |spans|
      ensures spans[i].parent != Some(spans[j].id) && (i < j ==> spans[i].id != spans[j].id)
    {
      TraceAt(expected, k, |expected|, i);
      TraceAt(expected, k, |expected|, j);
      LatestIsEarlier(expected, i, if expected[i].parentId.Some? then expected[i].parentId.value else 0, j);
    }
  }

  lemma SpanConfused(e: ExpectedSpan, f: ExpectedSpan, x: Span, known: map<Uuid, SpanId>)
    requires Confused(e, f) && x.name == f.name && x.kind == f.kind && x.status == f.status
    requires x.parent.Some? <==> f.parentId.Some?
    requires f.parentId.Some? ==> f.parentId.value in known && x.parent == Some(known[f.parentId.value])
    requires Compatible(e.attributes, f.attributes) ==> AttributesMatch(x.attributes, e.attributes)
    ensures Matches(x, e, known) || Unwraps(x, e, known)
  {
    hide Compatible, AttributesMatch;
  }

  lemma TraceConfused(expected: seq<ExpectedSpan>, k: nat)
    requires k + 1 < |expected| && Satisfiable(expected) && Confused(expected[k], expected[k + 1])
    ensures var spans, a := Trace(expected, k, |expected|), Identity(|expected|);
            InRange(spans, expected, a) && !SeparatedAt(spans, expected, a, k)
  {
    WitnessMatches(expected, k, k + 1);
    var spans, a, e, f := Trace(expected, k, |expected|), Identity(|expected|), expected[k], expected[k + 1];
    var id := if f.parentId.Some? then f.parentId.value else 0;
    TraceParents(expected, k, k + 1, id);
    TraceAt(expected, k, |expected|, k + 1);
    assert f.parentId.Some? ==> KnownBefore(expected, k + 1, f.parentId.value);
    assert e.isWildcard;
    hide Trace, Identity, AttributesMatch, Satisfiable, Compatible, WitnessAttributes, Matches, Unwraps, Parents;
    SpanConfused(e, f, spans[k + 1], Parents(spans, expected, a, k + 1));
    assert a[k] == k && a[k + 1] == k + 1;
  }

  /** A monotone onto assignment with as many spans as expectations is the identity. */
  lemma {:induction false} OnlyIdentity(expected: seq<ExpectedSpan>, a: Assignment, n: nat)
    requires (forall i :: 0 <= i < |a| ==> a[i] < |expected|) && Covers(expected, a) && |a| == |expected|
    requires n <= |a|
    ensures forall i :: 0 <= i < n ==> a[i] <= i
    ensures forall i :: |a| - n <= i < |a| ==> a[i] >= i
  {
    if n == 0 {
    } else {
      OnlyIdentity(expected, a, n - 1);
      CoversEnds(expected, a);
      if n > 1 {
        CoversUnitStep(expected, a, n - 2);
        CoversUnitStep(expected, a, |a| - n);
      }
    }
  }

  lemma IdentityIfValid(spans: seq<Span>, expected: seq<ExpectedSpan>, a: Assignment)
    requires Valid(spans, expected, a) && |spans| == |expected|
    ensures a == Identity(|expected|)
  {
    hide ChargedAt, Identity;
    OnlyIdentity(expected, a, |a|);
  }

  lemma NotSeparated(spans: seq<Span>, expected: seq<ExpectedSpan>, a: Assignment, k: nat)
    requires InRange(spans, expected, a) && k + 1 < |spans| && !SeparatedAt(spans, expected, a, k)
    ensures !Separated(spans, expected, a)
  {
    hide SeparatedAt;
  }

  /** Greedy matching rejects the trace, though it has a valid assignment. */
  lemma ConfusionIsFatal(expected: seq<ExpectedSpan>, k: nat)
    requires k + 1 < |expected| && Satisfiable(expected) && Confused(expected[k], expected[k + 1])
    ensures Recorded(Trace(expected, k, |expected|)) && Valid(Trace(expected, k, |expected|), expected, Identity(|expected|))
    ensures !Accepts(Trace(expected, k, |expected|), expected)
  {
    hide Trace, Identity, Satisfiable, Confused, SeparatedAt, Separated, Valid, Accepts, Recorded;
    var spans := Trace(expected, k, |expected|);
    TraceRecorded(expected, k);
    TraceValid(expected, k);
    TraceConfused(expected, k);
    NotSeparated(spans, expected, Identity(|expected|), k);
    AcceptsIff(spans, expected);
    forall a | Valid(spans, expected, a)
      ensures a == Identity(|expected|)
    {
      IdentityIfValid(spans, expected, a);
    }
  }

  // ---------- The theorem ----------

  ghost predicate Assignable(spans: seq<Span>, expected: seq<ExpectedSpan>) {
    exists a :: Valid(spans, expected, a)
  }

  /** A list can be met by some trace iff it is satisfiable, and then by one that the mock tracer can record. */
  lemma SatisfiableIff(expected: seq<ExpectedSpan>)
    ensures Satisfiable(expected) <==> exists spans :: Assignable(spans, expected)
    ensures Satisfiable(expected) <==> exists spans :: Recorded(spans) && Assignable(spans, expected)
  {
    hide Valid, Satisfiable, Recorded, Trace, Identity;
    if Satisfiable(expected) {
      TraceRecorded(expected, 0);
      TraceValid(expected, 0);
      assert Assignable(Trace(expected, 0, |expected|), expected);
    }
    forall spans, a | Valid(spans, expected, a)
      ensures Satisfiable(expected)
    {
      SatisfiableIfValid(spans, expected, a);
    }
  }

  /**
    Greedy matching decides for every recorded trace whether a valid assignment exists, iff no wildcard can be confused
    with the expectation after it, or no trace can meet the expectations at all.
    */
  lemma GreedyDecidesIff(expected: seq<ExpectedSpan>)
    ensures (forall spans :: Recorded(spans) ==> (Accepts(spans, expected) <==> Assignable(spans, expected)))
            <==> (Satisfiable(expected) ==> !Confusable(expected))
  {
    hide Accepts, Valid, Separated, Satisfiable, Confused, Trace, Identity, DistinctIds;
    if Satisfiable(expected) && Confusable(expected) {
      var k: nat :| k + 1 < |expected| && Confused(expected[k], expected[k + 1]);
      ConfusionIsFatal(expected, k);
      assert Assignable(Trace(expected, k, |expected|), expected);
    } else {
      forall spans | Recorded(spans)
        ensures Accepts(spans, expected) <==> Assignable(spans, expected)
      {
        DecidesWithout(spans, expected);
      }
    }
  }

  lemma DecidesWithout(spans: seq<Span>, expected: seq<ExpectedSpan>)
    requires DistinctIds(spans) && (Satisfiable(expected) ==> !Confusable(expected))
    ensures Accepts(spans, expected) <==> Assignable(spans, expected)
  {
    hide Accepts, Satisfiable, Confusable, ChargedAt, SeparatedAt;
    AcceptsIff(spans, expected);
    forall a | Valid(spans, expected, a)
      ensures Separated(spans, expected, a)
    {
      SatisfiableIfValid(spans, expected, a);
      forall i: nat | i + 1 < |spans|
        ensures SeparatedAt(spans, expected, a, i)
      {
        SeparatedWithout(spans, expected, a, i);
      }
    }
  }
}
