/**
  `typespec_client_core::fmt::to_ascii_lowercase`.

  The loop counts characters, but the slice it takes counts bytes. A string is a sequence of Unicode scalar values;
  its bytes are its UTF-8 form (RFC 3629, section 3). The panic of slicing off a character boundary is the result `None`.
  */
module AsciiLowercase {
  import opened Basics

  // ---------- UTF-8 ----------

  function Utf8(c: char): (bytes: seq<U8>)
    ensures 1 <= |bytes| <= 4
  {
    var n := c as int;
    if n < 0x80 then [n]
    else if n < 0x800 then [0xC0 + n / 0x40, 0x80 + n % 0x40]
    else if n < 0x1_0000 then [0xE0 + n / 0x1000, 0x80 + n / 0x40 % 0x40, 0x80 + n % 0x40]
    else [0xF0 + n / 0x4_0000, 0x80 + n / 0x1000 % 0x40, 0x80 + n / 0x40 % 0x40, 0x80 + n % 0x40]
  }

  function Encode(s: string): seq<U8> {
    if |s| == 0 then [] else Encode(s[..|s| - 1]) + Utf8(s[|s| - 1])
  }

  /** Where the character with index `i` starts. */
  function Offset(s: string, i: nat): nat
    requires i <= |s|
  {
    |Encode(s[..i])|
  }

  predicate IsContinuation(b: U8) {
    0x80 <= b < 0xC0
  }

  /** `str::is_char_boundary`, decided on one byte. */
  predicate IsCharBoundary(bytes: seq<U8>, i: nat) {
    i == 0 || i == |bytes| || (i < |bytes| && !IsContinuation(bytes[i]))
  }

  /** The first byte of a character starts it; all its other bytes continue it. */
  lemma Utf8Bytes(c: char)
    ensures !IsContinuation(Utf8(c)[0])
    ensures forall k :: 1 <= k < |Utf8(c)| ==> IsContinuation(Utf8(c)[k])
  {
  }

  ghost predicate StartsChar(s: string, i: nat) {
    exists j :: 0 <= j <= |s| && Offset(s, j) == i
  }

  /** UTF-8 is self-synchronizing: looking at one byte finds exactly the starts of characters. */
  lemma {:induction false} BoundaryIff(s: string, i: nat)
    ensures IsCharBoundary(Encode(s), i) <==> StartsChar(s, i)
  {
    if |s| == 0 {
      assert Offset(s, 0) == 0;
    } else {
      var before, last := s[..|s| - 1], Utf8(s[|s| - 1]);
      BoundaryIff(before, i);
      Utf8Bytes(s[|s| - 1]);
      StartsIff(s, i);
      assert i > |Encode(before)| && i < |Encode(s)| ==> Encode(s)[i] == last[i - |Encode(before)|];
    }
  }

  /** The starts of a longer string: those of the shorter one, and its end. */
  lemma StartsIff(s: string, i: nat)
    requires |s| > 0
    ensures StartsChar(s, i) <==> StartsChar(s[..|s| - 1], i) || i == |Encode(s)|
    ensures StartsChar(s[..|s| - 1], |Encode(s[..|s| - 1])|)
    ensures StartsChar(s[..|s| - 1], i) ==> i <= |Encode(s[..|s| - 1])|
  {
    var before := s[..|s| - 1];
    forall j | 0 <= j <= |before|
      ensures Offset(before, j) == Offset(s, j) && Offset(before, j) <= |Encode(before)|
    {
      assert before[..j] == s[..j];
      EncodeGrows(before, j);
    }
    assert s[..|s|] == s && before[..|before|] == before;
    assert Offset(s, |s|) == |Encode(s)| && Offset(before, |before|) == |Encode(before)|;
  }

  lemma {:induction false} EncodeGrows(s: string, j: nat)
    requires j <= |s|
    ensures Encode(s[..j]) <= Encode(s) && j <= Offset(s, j)
  {
    if j == |s| {
      assert s[..j] == s;
      LengthAtMost(s);
    } else {
      EncodeGrows(s[..|s| - 1], j);
      assert s[..|s| - 1][..j] == s[..j];
    }
  }

  lemma {:induction false} LengthAtMost(s: string)
    ensures |s| <= |Encode(s)|
  {
    if |s| == 0 {
    } else {
      LengthAtMost(s[..|s| - 1]);
    }
  }

  // ---------- Lowercasing ----------

  predicate IsAsciiUppercase(c: char) {
    'A' <= c <= 'Z'
  }

  function LowerByte(b: U8): U8 {
    if 0x41 <= b <= 0x5A then b + 0x20 else b
  }

  function LowerBytes(bytes: seq<U8>): (lower: seq<U8>)
    ensures |lower| == |bytes| && forall i :: 0 <= i < |bytes| ==> lower[i] == LowerByte(bytes[i])
  {
    if |bytes| == 0 then [] else LowerBytes(bytes[..|bytes| - 1]) + [LowerByte(bytes[|bytes| - 1])]
  }

  function LowerChar(c: char): char {
    if IsAsciiUppercase(c) then c + ' ' else c
  }

  /** What lowercasing is meant to do, character by character. */
  function LowerChars(s: string): (lower: string)
    ensures |lower| == |s|
  {
    if |s| == 0 then [] else LowerChars(s[..|s| - 1]) + [LowerChar(s[|s| - 1])]
  }

  lemma Utf8Lower(c: char)
    ensures Utf8(LowerChar(c)) == LowerBytes(Utf8(c))
  {
    hide LowerBytes;
    var bytes := Utf8(c);
    assert |bytes| > 1 ==> forall k :: 0 <= k < |bytes| ==> bytes[k] >= 0x80;
    assert |bytes| == 1 ==> bytes[0] == c as int;
  }

  lemma LowerBytesAppend(a: seq<U8>, b: seq<U8>)
    ensures LowerBytes(a + b) == LowerBytes(a) + LowerBytes(b)
  {
    hide LowerBytes;
  }

  /** Lowercasing the bytes and lowercasing the characters are the same. */
  lemma {:induction false} EncodeLower(s: string)
    ensures Encode(LowerChars(s)) == LowerBytes(Encode(s))
  {
    if |s| == 0 {
    } else {
      var before, c := s[..|s| - 1], s[|s| - 1];
      EncodeLower(before);
      Utf8Lower(c);
      LowerBytesAppend(Encode(before), Utf8(c));
      assert (LowerChars(before) + [LowerChar(c)])[..|before|] == LowerChars(before);
    }
  }

  /** Index of the first ASCII capital, or the length. */
  function FirstUpper(s: string): (i: nat)
    ensures i <= |s|
    ensures forall k :: 0 <= k < i ==> !IsAsciiUppercase(s[k])
    ensures i < |s| ==> IsAsciiUppercase(s[i])
  {
    if |s| == 0 then 0
    else
      var i := FirstUpper(s[..|s| - 1]);
      if i < |s| - 1 then i else if IsAsciiUppercase(s[|s| - 1]) then |s| - 1 else |s|
  }

  lemma {:induction false} NoUpperSame(s: string)
    requires forall k :: 0 <= k < |s| ==> !IsAsciiUppercase(s[k])
    ensures LowerChars(s) == s
  {
    if |s| == 0 {
    } else {
      var before := s[..|s| - 1];
      NoUpperSame(before);
      assert s == before + [s[|s| - 1]];
    }
  }

  lemma NoUpperFixed(s: string)
    requires forall k :: 0 <= k < |s| ==> !IsAsciiUppercase(s[k])
    ensures LowerBytes(Encode(s)) == Encode(s)
  {
    hide LowerBytes, Encode, LowerChars;
    NoUpperSame(s);
    EncodeLower(s);
  }

  /** Starting at the character index misses nothing: it is at or before the first capital's byte, and nothing earlier changes. */
  lemma SuffixSuffices(s: string)
    ensures FirstUpper(s) <= Offset(s, FirstUpper(s)) <= |Encode(s)|
    ensures Encode(s)[..FirstUpper(s)] + LowerBytes(Encode(s)[FirstUpper(s)..]) == LowerBytes(Encode(s))
  {
    hide LowerBytes, FirstUpper;
    var i := FirstUpper(s);
    EncodeGrows(s, i);
    NoUpperFixed(s[..i]);
    var prefix := Encode(s[..i]);
    forall k | 0 <= k < i
      ensures LowerByte(Encode(s)[k]) == Encode(s)[k]
    {
      assert Encode(s)[k] == prefix[k] && LowerBytes(prefix)[k] == prefix[k];
    }
  }

  datatype Cow = Borrowed(text: string) | Owned(bytes: seq<U8>)

  /** `make_ascii_lowercase` on the part of the buffer from an index. */
  method MakeAsciiLowercase(bytes: array<U8>, start: nat)
    requires start <= bytes.Length
    modifies bytes
    ensures bytes[..] == old(bytes[..])[..start] + LowerBytes(old(bytes[..])[start..])
  {
    for i := start to bytes.Length
      invariant forall k :: 0 <= k < bytes.Length ==> bytes[k] == if start <= k < i then LowerByte(old(bytes[k])) else old(bytes[k])
    {
      bytes[i] := LowerByte(bytes[i]);
    }
  }

  /** `to_owned`, then lowercase the slice from a byte index; `None` if slicing there panics. */
  method LowercaseCopy(value: string, i: nat) returns (copy: Option<seq<U8>>)
    requires i <= |Encode(value)|
    ensures copy == None <==> !IsCharBoundary(Encode(value), i)
    ensures copy.Some? ==> copy.value == Encode(value)[..i] + LowerBytes(Encode(value)[i..])
  {
    var bytes := Encode(value);
    var s := new U8[|bytes|](k requires 0 <= k < |bytes| => bytes[k]);
    assert s[..] == bytes;
    if !IsCharBoundary(s[..], i) {
      return None;
    }
    MakeAsciiLowercase(s, i);
    return Some(s[..]);
  }

  /**
    Panics iff the index of the first capital, counted in characters, is no character's byte offset;
    otherwise gives the lowercased text, borrowing when there is nothing to change.
    */
  method ToAsciiLowercase(value: string) returns (result: Option<Cow>)
    ensures result == None <==> FirstUpper(value) < |value| && !StartsChar(value, FirstUpper(value))
    ensures result.Some? ==> (result.value.Borrowed? <==> FirstUpper(value) == |value|)
    ensures result.Some? && result.value.Borrowed? ==> result.value.text == value == LowerChars(value)
    ensures result.Some? && result.value.Owned? ==> result.value.bytes == Encode(LowerChars(value))
  {
    hide Encode, LowerBytes, LowerChars, StartsChar, IsCharBoundary, FirstUpper;
    var i := 0;
    while i < |value|
      invariant 0 <= i <= |value|
      invariant forall k :: 0 <= k < i ==> !IsAsciiUppercase(value[k])
    {
      if IsAsciiUppercase(value[i]) {
        assert i == FirstUpper(value);
        SuffixSuffices(value);
        BoundaryIff(value, i);
        EncodeLower(value);
        var copy := LowercaseCopy(value, i);
        return if copy.Some? then Some(Owned(copy.value)) else None;
      }
      i := i + 1;
    }
    NoUpperSame(value);
    return Some(Borrowed(value));
  }

  lemma {:induction false} AsciiOffset(s: string, i: nat)
    requires i <= |s| && forall k :: 0 <= k < i ==> s[k] as int < 0x80
    ensures Offset(s, i) == i
  {
    if i == 0 {
    } else {
      AsciiOffset(s, i - 1);
      assert s[..i][..i - 1] == s[..i - 1];
    }
  }

  /** With only ASCII before the first capital there is no panic. */
  lemma AsciiPrefixIsSafe(s: string)
    requires forall k :: 0 <= k < FirstUpper(s) ==> s[k] as int < 0x80
    ensures StartsChar(s, FirstUpper(s))
  {
    AsciiOffset(s, FirstUpper(s));
  }

  /** One two-byte character before a capital is enough to panic. */
  lemma NonAsciiPanics()
    ensures var s := ['\U{E9}', 'A']; FirstUpper(s) == 1 && !StartsChar(s, 1)
  {
    var s := ['\U{E9}', 'A'];
    assert s[..1] == ['\U{E9}'] && s[..0] == [] && s[..1][..0] == [];
    assert Encode(s[..1]) == Utf8('\U{E9}') == [0xC3, 0xA9];
    assert Encode(s) == [0xC3, 0xA9, 0x41];
    BoundaryIff(s, 1);
  }
}
