/**
  When two items count as the same: equal declarations, or for inherent impls equal in everything that is printed.

  The keys are texts joined with control characters; where the parts hold none of these, the key determines them.
  */
module DedupKeys {
  import opened Basics
  import opened ApiData
  import opened ModuleTree

  const GROUP := '\U{1d}'
  const RECORD := '\U{1e}'
  const FIELD := '\U{1f}'

  /** None of the characters that join the parts of a key. */
  predicate Clean(s: string) {
    GROUP !in s && RECORD !in s && FIELD !in s
  }

  predicate AllClean(texts: seq<string>) {
    forall i :: 0 <= i < |texts| ==> Clean(texts[i])
  }

  predicate CleanMember(m: ApiMember) {
    Clean(m.name) && AllClean(m.docComments) && AllClean(m.attributes) && Clean(m.declaration)
  }

  predicate CleanMembers(ms: seq<ApiMember>) {
    forall i :: 0 <= i < |ms| ==> CleanMember(ms[i])
  }

  predicate CleanItem(item: ApiItem) {
    && Clean(SourceText(item)) && Clean(item.declaration) && AllClean(item.docComments) && AllClean(item.attributes)
    && CleanMembers(item.members)
  }

  function SourceText(item: ApiItem): string {
    if item.sourceId.Some? then item.sourceId.value else "no-source-id"
  }

  // ---------- Splitting at a separator ----------

  /** Two texts cut at their first separator are equal iff the parts are. */
  lemma CutIff(a: string, b: string, c: string, d: string, sep: char)
    requires sep !in a && sep !in c
    ensures a + [sep] + b == c + [sep] + d <==> a == c && b == d
  {
    var s, t := a + [sep] + b, c + [sep] + d;
    assert s[|a|] == sep && t[|c|] == sep;
    assert |a| < |c| ==> t[|a|] == c[|a|] != sep;
    assert |c| < |a| ==> s[|c|] == a[|c|] != sep;
    if s == t {
      assert s[..|a|] == a && t[..|c|] == c && s[|a| + 1..] == b && t[|c| + 1..] == d;
    }
  }

  /** Lists that join alike: equal, or nothing and one empty text. */
  predicate JoinAlike(a: seq<string>, b: seq<string>) {
    a == b || (IsBlank(a) && IsBlank(b))
  }

  predicate IsBlank(a: seq<string>) {
    a == [] || a == [""]
  }

  lemma {:induction false} JoinHasSeparator(a: seq<string>, sep: char)
    requires |a| > 1
    ensures sep in Join(a, [sep])
  {
    assert Join(a, [sep])[|a[0]|] == sep;
  }

  predicate AllWithout(a: seq<string>, sep: char) {
    forall i :: 0 <= i < |a| ==> sep !in a[i]
  }

  lemma {:induction false} JoinIff(a: seq<string>, b: seq<string>, sep: char)
    requires AllWithout(a, sep) && AllWithout(b, sep)
    ensures Join(a, [sep]) == Join(b, [sep]) <==> JoinAlike(a, b)
  {
    if |a| > 1 && |b| > 1 {
      CutIff(a[0], Join(a[1..], [sep]), b[0], Join(b[1..], [sep]), sep);
      JoinIff(a[1..], b[1..], sep);
      assert a == [a[0]] + a[1..] && b == [b[0]] + b[1..];
    } else if |a| > 1 {
      JoinHasSeparator(a, sep);
    } else if |b| > 1 {
      JoinHasSeparator(b, sep);
    } else {
      assert |a| == 1 ==> a == [a[0]];
      assert |b| == 1 ==> b == [b[0]];
    }
  }

  /** Joining brings in no other character than the separator. */
  lemma {:induction false} JoinKeepsOut(a: seq<string>, sep: char, other: char)
    requires other != sep && AllWithout(a, other)
    ensures other !in Join(a, [sep])
  {
    if |a| > 1 {
      JoinKeepsOut(a[1..], sep, other);
    }
  }

  // ---------- Members ----------

  function OrEmpty(texts: seq<string>): seq<string> {
    if |texts| == 0 then [""] else texts
  }

  /** Name, doc comments, attributes and declaration in a row; the key does not say where the comments end and the attributes begin. */
  function MemberParts(m: ApiMember): seq<string> {
    [m.name] + (OrEmpty(m.docComments) + (OrEmpty(m.attributes) + [m.declaration]))
  }

  lemma {:induction false} JoinConcat(a: seq<string>, b: seq<string>, sep: char)
    requires |a| > 0 && |b| > 0
    ensures Join(a + b, [sep]) == Join(a, [sep]) + [sep] + Join(b, [sep])
  {
    assert (a + b)[1..] == a[1..] + b;
    if |a| == 1 {
      assert a[1..] + b == b;
    } else {
      JoinConcat(a[1..], b, sep);
      assert a[0] + [sep] + (Join(a[1..], [sep]) + [sep] + Join(b, [sep])) == a[0] + [sep] + Join(a[1..], [sep]) + [sep] + Join(b, [sep]);
    }
  }

  lemma MemberKeyIsJoin(m: ApiMember)
    ensures MemberKey(m) == Join(MemberParts(m), [FIELD])
  {
    assert UNIT == [FIELD];
    var docs, attributes := OrEmpty(m.docComments), OrEmpty(m.attributes);
    JoinConcat(attributes, [m.declaration], FIELD);
    JoinConcat(docs, attributes + [m.declaration], FIELD);
    JoinConcat([m.name], docs + (attributes + [m.declaration]), FIELD);
    hide Join;
    var d, a := Join(m.docComments, UNIT), Join(m.attributes, UNIT);
    BlankJoins(m.docComments);
    BlankJoins(m.attributes);
    assert m.name + UNIT + (d + UNIT + (a + UNIT + m.declaration)) == m.name + UNIT + d + UNIT + a + UNIT + m.declaration;
    OneJoins(m.name);
    OneJoins(m.declaration);
  }

  lemma BlankJoins(texts: seq<string>)
    ensures Join(OrEmpty(texts), [FIELD]) == Join(texts, [FIELD])
  {
  }

  lemma OneJoins(text: string)
    ensures Join([text], [FIELD]) == text
  {
  }

  lemma PartsWithout(m: ApiMember, c: char)
    requires CleanMember(m) && (c == GROUP || c == RECORD || c == FIELD)
    ensures AllWithout(MemberParts(m), c)
  {
    forall i | 0 <= i < |MemberParts(m)|
      ensures c !in MemberParts(m)[i]
    {
      var docs := |OrEmpty(m.docComments)|;
      assert MemberParts(m)[i] == if i == 0 then m.name else if i <= docs then OrEmpty(m.docComments)[i - 1]
                                  else if i <= docs + |OrEmpty(m.attributes)| then OrEmpty(m.attributes)[i - 1 - docs] else m.declaration;
    }
  }

  lemma MemberKeyIff(m: ApiMember, n: ApiMember)
    requires CleanMember(m) && CleanMember(n)
    ensures MemberKey(m) == MemberKey(n) <==> MemberParts(m) == MemberParts(n)
    ensures RECORD !in MemberKey(m) && MemberKey(m) != ""
  {
    PartsWithout(m, FIELD);
    PartsWithout(n, FIELD);
    PartsWithout(m, RECORD);
    MemberKeyIsJoin(m);
    MemberKeyIsJoin(n);
    JoinIff(MemberParts(m), MemberParts(n), FIELD);
    JoinKeepsOut(MemberParts(m), FIELD, RECORD);
    JoinHasSeparator(MemberParts(m), FIELD);
  }

  predicate SameMembers(a: seq<ApiMember>, b: seq<ApiMember>) {
    |a| == |b| && forall i :: 0 <= i < |a| ==> MemberParts(a[i]) == MemberParts(b[i])
  }

  lemma {:induction false} MemberKeysAt(ms: seq<ApiMember>)
    ensures |MemberKeys(ms)| == |ms| && forall i :: 0 <= i < |ms| ==> MemberKeys(ms)[i] == MemberKey(ms[i])
  {
    hide MemberKey;
    if |ms| == 0 {
    } else {
      MemberKeysAt(ms[1..]);
    }
  }

  lemma MemberKeysIff(a: seq<ApiMember>, b: seq<ApiMember>)
    requires CleanMembers(a) && CleanMembers(b)
    ensures Join(MemberKeys(a), [RECORD]) == Join(MemberKeys(b), [RECORD]) <==> SameMembers(a, b)
  {
    hide MemberKey, MemberKeys, MemberParts, CleanMember, Join;
    MemberKeysAt(a);
    MemberKeysAt(b);
    forall i | 0 <= i < |a|
      ensures RECORD !in MemberKey(a[i]) && MemberKey(a[i]) != ""
      ensures i < |b| ==> (MemberKey(a[i]) == MemberKey(b[i]) <==> MemberParts(a[i]) == MemberParts(b[i]))
    {
      MemberKeyIff(a[i], if i < |b| then b[i] else a[i]);
    }
    forall i | 0 <= i < |b|
      ensures RECORD !in MemberKey(b[i]) && MemberKey(b[i]) != ""
    {
      MemberKeyIff(b[i], b[i]);
    }
    JoinIff(MemberKeys(a), MemberKeys(b), RECORD);
    assert IsBlank(MemberKeys(a)) ==> |a| == 0 by {
      assert |a| == 1 ==> MemberKeys(a)[0] == MemberKey(a[0]);
    }
    assert IsBlank(MemberKeys(b)) ==> |b| == 0 by {
      assert |b| == 1 ==> MemberKeys(b)[0] == MemberKey(b[0]);
    }
  }

  // ---------- Items ----------

  predicate SameImpl(a: ApiItem, b: ApiItem) {
    && SourceText(a) == SourceText(b) && a.declaration == b.declaration
    && JoinAlike(a.docComments, b.docComments) && JoinAlike(a.attributes, b.attributes) && SameMembers(a.members, b.members)
  }

  /** What follows the source in the key of an impl. */
  function Printed(item: ApiItem): string {
    item.declaration + [GROUP] + (Join(item.docComments, [FIELD]) + [GROUP] + (Join(item.attributes, [FIELD]) + [GROUP] + Join(MemberKeys(item.members), [RECORD])))
  }

  lemma ImplKey(item: ApiItem)
    requires item.kind.InherentImpl?
    ensures DedupKey(item) == SourceText(item) + [FIELD] + Printed(item)
  {
    hide Join, MemberKeys;
    assert UNIT == [FIELD] && "\U{1d}" == [GROUP] && "\U{1e}" == [RECORD];
    var s, d, x, y, z := SourceText(item), item.declaration, Join(item.docComments, UNIT), Join(item.attributes, UNIT), Join(MemberKeys(item.members), [RECORD]);
    KeyParts(s, d, x, y, z);
  }

  lemma KeyParts(s: string, d: string, x: string, y: string, z: string)
    ensures s + [FIELD] + d + [GROUP] + x + [GROUP] + y + [GROUP] + z == s + [FIELD] + (d + [GROUP] + (x + [GROUP] + (y + [GROUP] + z)))
  {
  }

  lemma PrintedIff(a: ApiItem, b: ApiItem)
    requires CleanItem(a) && CleanItem(b)
    ensures Printed(a) == Printed(b) <==> a.declaration == b.declaration && JoinAlike(a.docComments, b.docComments) && JoinAlike(a.attributes, b.attributes) && SameMembers(a.members, b.members)
  {
    hide Join, MemberKeys, CleanMember, MemberParts;
    var x, x' := Join(a.docComments, [FIELD]), Join(b.docComments, [FIELD]);
    var y, y' := Join(a.attributes, [FIELD]), Join(b.attributes, [FIELD]);
    var z, z' := Join(MemberKeys(a.members), [RECORD]), Join(MemberKeys(b.members), [RECORD]);
    JoinKeepsOut(a.docComments, FIELD, GROUP);
    JoinKeepsOut(b.docComments, FIELD, GROUP);
    JoinKeepsOut(a.attributes, FIELD, GROUP);
    JoinKeepsOut(b.attributes, FIELD, GROUP);
    CutIff(a.declaration, x + [GROUP] + (y + [GROUP] + z), b.declaration, x' + [GROUP] + (y' + [GROUP] + z'), GROUP);
    CutIff(x, y + [GROUP] + z, x', y' + [GROUP] + z', GROUP);
    CutIff(y, z, y', z', GROUP);
    JoinIff(a.docComments, b.docComments, FIELD);
    JoinIff(a.attributes, b.attributes, FIELD);
    MemberKeysIff(a.members, b.members);
  }

  /** Items without control characters count as the same iff both are impls and print alike, or neither is and their declarations are equal. */
  lemma DedupKeyIff(a: ApiItem, b: ApiItem)
    requires CleanItem(a) && CleanItem(b)
    ensures DedupKey(a) == DedupKey(b) <==>
            if a.kind.InherentImpl? then b.kind.InherentImpl? && SameImpl(a, b)
            else !b.kind.InherentImpl? && a.declaration == b.declaration
  {
    if a.kind.InherentImpl? {
      ImplKey(a);
    }
    if b.kind.InherentImpl? {
      ImplKey(b);
    }
    PrintedIff(a, b);
    CutIff(SourceText(a), Printed(a), SourceText(b), Printed(b), FIELD);
    assert FIELD in SourceText(a) + [FIELD] + Printed(a) && FIELD in SourceText(b) + [FIELD] + Printed(b) by {
      assert (SourceText(a) + [FIELD] + Printed(a))[|SourceText(a)|] == FIELD;
      assert (SourceText(b) + [FIELD] + Printed(b))[|SourceText(b)|] == FIELD;
    }
    assert !a.kind.InherentImpl? ==> DedupKey(a) == a.declaration;
    assert !b.kind.InherentImpl? ==> DedupKey(b) == b.declaration;
    hide DedupKey, Printed;
  }

  /** A doc comment and an attribute can change places unnoticed. */
  lemma CommentsAndAttributesMix(name: string, x: string, y: string, declaration: string)
    ensures MemberKey(ApiMember(name, [x, y], [""], declaration)) == MemberKey(ApiMember(name, [x], [y, ""], declaration))
  {
    var m, n := ApiMember(name, [x, y], [""], declaration), ApiMember(name, [x], [y, ""], declaration);
    MemberKeyIsJoin(m);
    MemberKeyIsJoin(n);
    assert MemberParts(m) == MemberParts(n) == [name, x, y, "", declaration];
  }
}
