/**
  A stream of a fixed length over an endlessly repeated pattern (`azure_core_test::stream::GeneratedStream`).

  Reads into a buffer and chunks draw from one generator; `reset` sets the byte count back but leaves the generator
  where it is. A panic of the generator's `unwrap` (an empty pattern) is modelled as the result `None`.
  */
module ByteStream {
  import opened Basics

  // ---------- The repeated pattern ----------

  lemma DivUnique(x: nat, n: nat, q: nat, r: nat)
    requires n > 0 && r < n && x == q * n + r
    ensures x % n == r
  {
    var d := x / n - q;
    assert x == (x / n) * n + x % n;
    assert d * n == r - x % n;
    MultipleIsLarge(d, n);
  }

  lemma MultipleIsLarge(d: int, n: nat)
    requires n > 0
    ensures d > 0 ==> d * n >= n
    ensures d < 0 ==> d * n + n <= 0
  {
  }

  /** Adding to a remainder or to the number itself gives the same remainder. */
  lemma ModAdd(x: nat, i: nat, n: nat)
    requires n > 0
    ensures (x % n + i) % n == (x + i) % n
  {
    var y := x % n + i;
    assert x + i == (x / n) * n + y;
    assert y == (y / n) * n + y % n;
    assert x + i == (x / n + y / n) * n + y % n;
    DivUnique(x + i, n, x / n + y / n, y % n);
  }

  function ByteAt(pattern: seq<U8>, i: nat): U8
    requires |pattern| > 0
  {
    pattern[i % |pattern|]
  }

  /** `count` bytes of the repeated pattern, from position `start`. */
  function Bytes(pattern: seq<U8>, start: nat, count: nat): (bytes: seq<U8>)
    requires |pattern| > 0
    ensures |bytes| == count && forall i :: 0 <= i < count ==> bytes[i] == ByteAt(pattern, start + i)
  {
    if count == 0 then [] else Bytes(pattern, start, count - 1) + [ByteAt(pattern, start + count - 1)]
  }

  lemma BytesAppend(pattern: seq<U8>, start: nat, a: nat, b: nat)
    requires |pattern| > 0
    ensures Bytes(pattern, start, a) + Bytes(pattern, start + a, b) == Bytes(pattern, start, a + b)
  {
    hide ByteAt;
  }

  // ---------- Specification ----------

  datatype Stream = Stream(pattern: seq<U8>, length: nat, chunk: nat, bytesRead: nat, drawn: nat)

  datatype Op = Read(size: nat) | Next | Reset

  function Start(pattern: seq<U8>, length: nat, chunk: nat): Stream {
    Stream(pattern, length, chunk, 0, 0)
  }

  predicate Ended(s: Stream) {
    s.bytesRead >= s.length
  }

  /** How many bytes a request of the given size is due. */
  function Due(s: Stream, size: nat): nat {
    if Ended(s) then 0 else if s.length - s.bytesRead < size then s.length - s.bytesRead else size
  }

  function Request(s: Stream, op: Op): nat {
    match op
    case Read(size) => Due(s, size)
    case Next => Due(s, s.chunk)
    case Reset => 0
  }

  function Step(s: Stream, op: Op): Stream {
    var count := Request(s, op);
    s.(bytesRead := if op.Reset? then 0 else s.bytesRead + count, drawn := s.drawn + count)
  }

  function Output(s: Stream, op: Op): seq<U8>
    requires |s.pattern| > 0
  {
    Bytes(s.pattern, s.drawn, Request(s, op))
  }

  // ---------- The stream object ----------

  lemma CyclePosition(before: nat, position: nat, drawn: nat, n: nat)
    requires n > 0 && before <= n && before % n == drawn % n
    requires position == if before == n then 0 else before
    ensures drawn % n == position && (position + 1) % n == (drawn + 1) % n
  {
    if before == n {
      DivUnique(before, n, 1, 0);
    } else {
      DivUnique(before, n, 0, before);
    }
    ModAdd(drawn, 1, n);
  }

  class GeneratedStream {
    const pattern: seq<U8>
    const length: nat
    const chunk: nat
    /** Where the generator's current pass over the pattern stands. */
    var position: nat
    var bytesRead: nat
    /** Bytes drawn from the generator since creation. */
    ghost var drawn: nat

    ghost predicate Valid()
      reads this
    {
      && position <= |pattern|
      && bytesRead <= length
      && (|pattern| > 0 ==> position % |pattern| == drawn % |pattern|)
    }

    ghost function State(): Stream
      reads this
    {
      Stream(pattern, length, chunk, bytesRead, drawn)
    }

    constructor (pattern: seq<U8>, length: nat, chunk: nat)
      ensures Valid() && State() == Start(pattern, length, chunk)
    {
      this.pattern, this.length, this.chunk := pattern, length, chunk;
      position, bytesRead, drawn := 0, 0, 0;
    }

    /** `Cycle::next`: at the end of the pattern, start over once. */
    method NextByte() returns (byte: Option<U8>)
      requires Valid()
      modifies this
      ensures Valid() && State().(drawn := old(drawn)) == old(State())
      ensures |pattern| == 0 ==> byte == None
      ensures |pattern| > 0 ==> byte == Some(ByteAt(pattern, old(drawn))) && drawn == old(drawn) + 1
    {
      if position == |pattern| {
        position := 0;
      }
      if position == |pattern| {
        return None;
      }
      CyclePosition(old(position), position, drawn, |pattern|);
      byte := Some(pattern[position]);
      position, drawn := position + 1, drawn + 1;
    }

    /** `poll_read`: how many bytes were written to the front of the buffer. */
    method PollRead(buf: array<U8>) returns (count: Option<nat>)
      requires Valid()
      modifies this, buf
      ensures Valid()
      ensures count == None <==> |pattern| == 0 && Due(old(State()), buf.Length) > 0
      ensures count.Some? ==> count.value == Due(old(State()), buf.Length) && buf[count.value..] == old(buf[..])[count.value..]
      ensures count.Some? ==> State() == Step(old(State()), Read(buf.Length))
      ensures count.Some? && |pattern| > 0 ==> buf[..count.value] == Output(old(State()), Read(buf.Length))
    {
      if bytesRead >= length {
        return Some(0);
      }
      var remaining := length - bytesRead;
      var bytesToRead := if remaining < buf.Length then remaining else buf.Length;
      var i := 0;
      while i < bytesToRead
        invariant 0 <= i <= bytesToRead && Valid()
        invariant i > 0 ==> |pattern| > 0
        invariant bytesRead == old(bytesRead) + i && drawn == old(drawn) + i
        invariant |pattern| > 0 ==> forall k :: 0 <= k < i ==> buf[k] == ByteAt(pattern, old(drawn) + k)
        invariant buf[i..] == old(buf[..])[i..]
      {
        var byte := NextByte();
        if byte.None? {
          return None;
        }
        buf[i] := byte.value;
        bytesRead := bytesRead + 1;
        i := i + 1;
      }
      return Some(bytesToRead);
    }

    /** `poll_next`: the next chunk, `Some(None)` at the end of the stream. */
    method PollNext() returns (item: Option<Option<seq<U8>>>)
      requires Valid()
      modifies this
      ensures Valid()
      ensures item == None <==> |pattern| == 0 && Due(old(State()), chunk) > 0
      ensures item == Some(None) <==> old(Ended(State()))
      ensures item.Some? ==> State() == Step(old(State()), Next)
      ensures item.Some? && item.value.Some? && |pattern| > 0 ==> item.value.value == Output(old(State()), Next)
    {
      if bytesRead >= length {
        return Some(None);
      }
      var remaining := length - bytesRead;
      var bytesToRead := if remaining < chunk then remaining else chunk;
      var bytes: seq<U8> := [];
      while |bytes| < bytesToRead
        invariant |bytes| <= bytesToRead && Valid()
        invariant |bytes| > 0 ==> |pattern| > 0
        invariant bytesRead == old(bytesRead) + |bytes| && drawn == old(drawn) + |bytes|
        invariant |pattern| > 0 ==> bytes == Bytes(pattern, old(drawn), |bytes|)
      {
        bytesRead := bytesRead + 1;
        var byte := NextByte();
        if byte.None? {
          return None;
        }
        bytes := bytes + [byte.value];
      }
      return Some(Some(bytes));
    }

    method Reset()
      requires Valid()
      modifies this
      ensures Valid() && State() == Step(old(State()), Op.Reset)
    {
      bytesRead := 0;
    }
  }

  // ---------- Runs ----------

  function Run(s: Stream, ops: seq<Op>): (t: Stream)
    ensures t.pattern == s.pattern && t.length == s.length && t.chunk == s.chunk
    decreases |ops|
  {
    if |ops| == 0 then s else Run(Step(s, ops[0]), ops[1..])
  }

  /** All bytes handed out by a run. */
  function RunOutput(s: Stream, ops: seq<Op>): seq<U8>
    requires |s.pattern| > 0
    decreases |ops|
  {
    if |ops| == 0 then [] else Output(s, ops[0]) + RunOutput(Step(s, ops[0]), ops[1..])
  }

  /** Whatever the mix of reads, chunks and resets, the bytes handed out are the repeated pattern without a gap. */
  lemma {:induction false} RunIsPattern(s: Stream, ops: seq<Op>)
    requires |s.pattern| > 0
    ensures Run(s, ops).drawn == s.drawn + |RunOutput(s, ops)|
    ensures RunOutput(s, ops) == Bytes(s.pattern, s.drawn, |RunOutput(s, ops)|)
    decreases |ops|
  {
    if |ops| == 0 {
    } else {
      var next := Step(s, ops[0]);
      RunIsPattern(next, ops[1..]);
      BytesAppend(s.pattern, s.drawn, Request(s, ops[0]), |RunOutput(next, ops[1..])|);
    }
  }

  predicate NoReset(ops: seq<Op>) {
    forall op :: op in ops ==> !op.Reset?
  }

  function Sum(s: Stream, ops: seq<Op>): nat {
    if |ops| == 0 then 0
    else (match ops[0] case Read(size) => size case Next => s.chunk case Reset => 0) + Sum(s, ops[1..])
  }

  /** Without a reset, a run hands out as many bytes as were asked for, up to the length. */
  lemma {:induction false} RunCounts(s: Stream, ops: seq<Op>)
    requires |s.pattern| > 0 && NoReset(ops) && s.bytesRead <= s.length
    ensures var asked := s.bytesRead + Sum(s, ops);
            Run(s, ops).bytesRead == (if asked < s.length then asked else s.length) == s.bytesRead + |RunOutput(s, ops)|
    decreases |ops|
  {
    if |ops| == 0 {
    } else {
      assert NoReset(ops[1..]);
      RunCounts(Step(s, ops[0]), ops[1..]);
      SumSame(s, Step(s, ops[0]), ops[1..]);
    }
  }

  lemma {:induction false} SumSame(s: Stream, t: Stream, ops: seq<Op>)
    requires s.chunk == t.chunk
    ensures Sum(s, ops) == Sum(t, ops)
  {
    if |ops| == 0 {
    } else {
      SumSame(s, t, ops[1..]);
    }
  }

  /** Without a reset, a run has ended iff the length has been asked for, in however many operations. */
  lemma EndedIff(s: Stream, ops: seq<Op>)
    requires |s.pattern| > 0 && NoReset(ops) && s.bytesRead <= s.length
    ensures Ended(Run(s, ops)) <==> s.bytesRead + Sum(s, ops) >= s.length
  {
    RunCounts(s, ops);
  }

  /** Any interleaving of reads and chunks that ends a new stream has handed out exactly `length` bytes of the pattern. */
  lemma Drained(pattern: seq<U8>, length: nat, chunk: nat, ops: seq<Op>)
    requires |pattern| > 0 && NoReset(ops) && Ended(Run(Start(pattern, length, chunk), ops))
    ensures RunOutput(Start(pattern, length, chunk), ops) == Bytes(pattern, 0, length)
  {
    var s := Start(pattern, length, chunk);
    RunCounts(s, ops);
    RunIsPattern(s, ops);
  }

  predicate AllNonEmpty(s: Stream, ops: seq<Op>) {
    forall op :: op in ops ==> (op.Read? ==> op.size > 0) && (op.Next? ==> s.chunk > 0)
  }

  lemma {:induction false} SumAtLeast(s: Stream, ops: seq<Op>)
    requires NoReset(ops) && AllNonEmpty(s, ops)
    ensures Sum(s, ops) >= |ops|
  {
    if |ops| == 0 {
    } else {
      assert NoReset(ops[1..]) && AllNonEmpty(s, ops[1..]);
      SumAtLeast(s, ops[1..]);
    }
  }

  /** As many non-empty reads and chunks as there are bytes end a stream from wherever it stands. */
  lemma EnoughReadsEnd(s: Stream, ops: seq<Op>)
    requires |s.pattern| > 0 && s.bytesRead <= s.length
    requires NoReset(ops) && AllNonEmpty(s, ops) && |ops| >= s.length - s.bytesRead
    ensures Ended(Run(s, ops))
  {
    SumAtLeast(s, ops);
    EndedIff(s, ops);
  }

  // ---------- After a reset ----------

  /** After any run and a reset, reading to the end yields `length` bytes that continue where the generator stood. */
  lemma DrainedAfterReset(s: Stream, before: seq<Op>, ops: seq<Op>)
    requires |s.pattern| > 0 && NoReset(ops) && Ended(Run(Step(Run(s, before), Op.Reset), ops))
    ensures var t := Step(Run(s, before), Op.Reset);
            RunOutput(t, ops) == Bytes(s.pattern, s.drawn + |RunOutput(s, before)|, s.length)
  {
    hide Bytes, Run, RunOutput, Sum;
    RunIsPattern(s, before);
    var t := Step(Run(s, before), Op.Reset);
    RunCounts(t, ops);
    RunIsPattern(t, ops);
  }

  predicate SameAt(pattern: seq<U8>, c: nat, i: nat)
    requires |pattern| > 0
  {
    ByteAt(pattern, c + i) == ByteAt(pattern, i)
  }

  /** The pattern agrees with itself shifted by `c`, on the positions a replay of `count` bytes looks at. */
  predicate Periodic(pattern: seq<U8>, c: nat, count: nat)
    requires |pattern| > 0
  {
    forall i: nat :: i < |pattern| && i < count ==> SameAt(pattern, c, i)
  }

  lemma SameAtWraps(pattern: seq<U8>, c: nat, i: nat)
    requires |pattern| > 0
    ensures i % |pattern| <= i && SameAt(pattern, c, i) == SameAt(pattern, c, i % |pattern|)
  {
    var n := |pattern|;
    ModAdd(i, c, n);
    ModAdd(i, 0, n);
    assert i == (i / n) * n + i % n;
  }

  /** The bytes after a reset are the first bytes again iff the pattern is periodic in the number of bytes drawn. */
  lemma ReplayIff(pattern: seq<U8>, c: nat, count: nat)
    requires |pattern| > 0
    ensures Bytes(pattern, c, count) == Bytes(pattern, 0, count) <==> Periodic(pattern, c, count)
  {
    hide ByteAt, Bytes;
    var again, first := Bytes(pattern, c, count), Bytes(pattern, 0, count);
    assert forall i: nat :: i < count ==> (again[i] == first[i] <==> SameAt(pattern, c, i));
    if Periodic(pattern, c, count) {
      forall i: nat | i < count
        ensures SameAt(pattern, c, i)
      {
        SameAtWraps(pattern, c, i);
      }
    }
  }

  /** A whole number of passes over the pattern guarantees the replay. */
  lemma WholePassesReplay(pattern: seq<U8>, c: nat, count: nat)
    requires |pattern| > 0 && c % |pattern| == 0
    ensures Bytes(pattern, c, count) == Bytes(pattern, 0, count)
  {
    forall i: nat | i < |pattern| && i < count
      ensures SameAt(pattern, c, i)
    {
      ModAdd(c, i, |pattern|);
    }
    ReplayIff(pattern, c, count);
  }

  /** For a pattern of distinct bytes, such as the default 0..254, nothing else does. */
  lemma DistinctReplayIff(pattern: seq<U8>, c: nat, count: nat)
    requires |pattern| > 0 && count > 0
    requires forall i, j :: 0 <= i < j < |pattern| ==> pattern[i] != pattern[j]
    ensures Bytes(pattern, c, count) == Bytes(pattern, 0, count) <==> c % |pattern| == 0
  {
    if c % |pattern| == 0 {
      WholePassesReplay(pattern, c, count);
    }
    ReplayIff(pattern, c, count);
    assert Periodic(pattern, c, count) ==> SameAt(pattern, c, 0);
  }

  /** Reading a new stream to its end, resetting and reading it again gives the same bytes iff the pattern is periodic in the length. */
  lemma SecondReadIff(pattern: seq<U8>, length: nat, chunk: nat, first: seq<Op>, second: seq<Op>)
    requires |pattern| > 0 && NoReset(first) && NoReset(second)
    requires var s := Start(pattern, length, chunk); Ended(Run(s, first)) && Ended(Run(Step(Run(s, first), Op.Reset), second))
    ensures var s := Start(pattern, length, chunk);
            RunOutput(Step(Run(s, first), Op.Reset), second) == RunOutput(s, first) <==> Periodic(pattern, length, length)
  {
    hide Bytes, Run, RunOutput, Sum, Periodic;
    var s := Start(pattern, length, chunk);
    Drained(pattern, length, chunk, first);
    DrainedAfterReset(s, first, second);
    ReplayIff(pattern, length, length);
  }

  /** A stream of three bytes over a two-byte pattern, read by one operation, reset and read again byte by byte. */
  lemma ReplayFails(chunk: nat)
    ensures var s, ops := Start([0, 1], 3, chunk), [Op.Read(1), Op.Read(1), Op.Read(1)];
            RunOutput(Step(Run(s, [Op.Read(3)]), Op.Reset), ops) != RunOutput(s, [Op.Read(3)])
  {
    var s, once, ops := Start([0, 1], 3, chunk), [Op.Read(3)], [Op.Read(1), Op.Read(1), Op.Read(1)];
    assert Run(s, once) == Step(s, Op.Read(3));
    EnoughReadsEnd(Step(Run(s, once), Op.Reset), ops);
    assert !SameAt([0, 1], 3, 0);
    SecondReadIff([0, 1], 3, chunk, once, ops);
  }
}
