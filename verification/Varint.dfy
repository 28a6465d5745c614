/** The variable-length count in front of compact strings, bytes and arrays: the
    UNSIGNED_VARINT of the Kafka Protocol Guide, section "Protocol Primitive Types". */
module Varint {
  import opened Results
  import opened Bytes
  import opened JsNumber

  /** The largest count the 32-bit shifts of the codec carry. */
  const MAX_COUNT: int := 0x7FFF_FFFF

  /** The bytes of a count: seven bits at a time, low bits first. Counts above 31 bits
      are cut to 32-bit integers by the shift. */
  function VarintBytes(n: nat): (b: bytes)
    ensures |b| >= 1
  {
    var rest := ToInt32(n) / 128;
    if n < 128 then [n]
    else if rest < 0 then [n % 128 + 128, rest % 128]
    else [n % 128 + 128] + VarintBytes(rest)
  }

  // ------------------------------------------------------------------ writing

  /** `(len & 0x7F) | 0x80` */
  method ContinuedByte(len: int) returns (b: byte)
    ensures b == len % 128 + 128
  {
    And0x7F(len);
    Or0x80(len % 128);
    b := Or(And(len, 0x7F), 0x80);
  }

  /** `len & 0x7F` */
  method LastByte(len: int) returns (b: byte)
    ensures b == len % 128
  {
    And0x7F(len);
    b := And(len, 0x7F);
  }

  /** `len >> 7`; the loops stop because it is below `len`. */
  method NextGroup(len: int) returns (next: int)
    ensures next == ToInt32(len) / 128
    ensures len > 127 ==> next < len
  {
    Pow2Values();
    next := Sar(len, 7);
  }

  /** The sizing loop counts the bytes the writing loop emits. */
  method SizeOfLength(encodedLength: nat) returns (sizeOfLength: nat)
    ensures sizeOfLength == |VarintBytes(encodedLength)|
  {
    sizeOfLength := 1;
    var len: int := encodedLength;
    while len > 127
      invariant len >= 0 ==> sizeOfLength - 1 + |VarintBytes(len)| == |VarintBytes(encodedLength)|
      invariant len < 0 ==> sizeOfLength == |VarintBytes(encodedLength)|
      decreases len
    {
      sizeOfLength := sizeOfLength + 1;
      len := NextGroup(len);
    }
  }

  /** The writing loop: fills `buffer` from `start` with exactly those bytes. */
  method WriteLength(buffer: array<byte>, encodedLength: nat, start: nat) returns (idx: nat)
    requires start + |VarintBytes(encodedLength)| <= buffer.Length
    modifies buffer
    ensures idx == start + |VarintBytes(encodedLength)|
    ensures buffer[..idx] == old(buffer[..start]) + VarintBytes(encodedLength)
  {
    idx := start;
    var len: int := encodedLength;
    ghost var result := buffer[..start] + VarintBytes(encodedLength);
    while len > 127
      invariant start <= idx < buffer.Length
      invariant result == buffer[..idx] + Remaining(len)
      decreases len
    {
      RemainingStep(len);
      var b := ContinuedByte(len);
      len := NextGroup(len);
      Append(buffer, b, idx, result, Remaining(len));
      idx := idx + 1;
    }
    var b := LastByte(len);
    Append(buffer, b, idx, result, []);
    idx := idx + 1;
  }

  /** The bytes the loop still emits when its variable is `len`. */
  function Remaining(len: int): bytes {
    if len >= 0 then VarintBytes(len) else [len % 128]
  }

  lemma RemainingStep(len: int)
    requires len > 127
    ensures Remaining(len) == [len % 128 + 128] + Remaining(ToInt32(len) / 128)
  {
  }

  method Append(buffer: array<byte>, b: byte, idx: nat, ghost result: bytes, ghost rest: bytes)
    requires idx < buffer.Length && result == buffer[..idx] + ([b] + rest)
    modifies buffer
    ensures result == buffer[..idx + 1] + rest
  {
    buffer[idx] := b;
    assert buffer[..idx + 1] == old(buffer[..idx]) + [b];
  }

  // ------------------------------------------------------------------ reading

  /** The reading loops from an accumulator `length` and a `shift`. */
  function ReadVarint(buf: bytes, off: int, length: int, shift: nat): Result<(int, int)>
    decreases |buf| - off
  {
    var (b, next) :- ReadUInt(1, buf, off);
    var length' := Or(length, Shl(And(b, 0x7F), shift));
    if And(b, 0x80) != 0 then ReadVarint(buf, next, length', shift + 7) else Ok((length', next))
  }

  /** One turn of the loop over a byte that is there. */
  lemma ReadVarintStep(buf: bytes, off: int, b: byte, length: int, shift: nat)
    requires At(buf, off, [b])
    ensures var length' := Or(length, Shl(b % 128, shift));
            ReadVarint(buf, off, length, shift) ==
            if b >= 128 then ReadVarint(buf, off + 1, length', shift + 7) else Ok((length', off + 1))
  {
    ByteAt(buf, off, b);
    And0x7F(b);
    And0x80(b);
  }

  method ReadLength(buf: bytes, start: int) returns (r: Result<(int, int)>)
    ensures r == ReadVarint(buf, start, 0, 0)
  {
    var length, shift, offset := 0, 0, start;
    while true
      invariant ReadVarint(buf, offset, length, shift) == ReadVarint(buf, start, 0, 0)
      decreases |buf| - offset
    {
      var field := ReadUInt(1, buf, offset);
      if field.Err? {
        return Err(field.error);
      }
      var byteRead := field.value.0;
      offset := field.value.1;
      length := Or(length, Shl(And(byteRead, 0x7F), shift));
      shift := shift + 7;
      if And(byteRead, 0x80) == 0 {
        return Ok((length, offset));
      }
    }
  }

  // --------------------------------------------------------------- properties

  /** Base-128 value, least significant group first, of the low seven bits. */
  function Base128(b: bytes): nat {
    if b == [] then 0 else b[0] % 128 + 128 * Base128(b[1..])
  }

  function Pow128(k: nat): (p: nat)
    ensures p >= 1
  {
    if k == 0 then 1 else 128 * Pow128(k - 1)
  }

  /** Within 31 bits the code emits the minimal base-128 representation: the value is
      `n`, exactly the last byte lacks the continuation bit, and the number of bytes is
      the number of base-128 digits, between 1 and 5. */
  lemma {:induction false} VarintIsBase128(n: nat)
    requires n <= MAX_COUNT
    ensures Base128(VarintBytes(n)) == n
    ensures var b := VarintBytes(n); forall i :: 0 <= i < |b| ==> (b[i] >= 128 <==> i < |b| - 1)
    ensures n < Pow128(|VarintBytes(n)|)
    ensures n > 0 ==> Pow128(|VarintBytes(n)| - 1) <= n
    ensures 1 <= |VarintBytes(n)| <= 5
  {
    var b := VarintBytes(n);
    if n >= 128 {
      VarintIsBase128(n / 128);
      assert b[1..] == VarintBytes(n / 128);
      if |b| > 5 {
        Pow128Monotone(5, |b| - 1);
        Pow128Five();
        assert false;
      }
    } else {
      assert b[1..] == [];
      assert Pow128(1) == 128 * Pow128(0);
    }
  }

  lemma Pow128Five()
    ensures Pow128(5) == 0x8_0000_0000
  {
  }

  lemma {:induction false} Pow128Monotone(a: nat, b: nat)
    requires a <= b
    ensures Pow128(a) <= Pow128(b)
    decreases b
  {
    if a < b {
      Pow128Monotone(a, b - 1);
    }
  }

  /** One more group: what the reader has and what is still to come. */
  lemma GroupStep(n: nat, length: nat, shift: nat, p: nat, total: nat) returns (length': nat)
    requires p == Pow2(shift) && shift <= 30 && length < p && total == length + n * p <= MAX_COUNT
    ensures length' == Or(length, Shl(n % 128, shift)) < Pow2(shift + 7)
    ensures total == length' + n / 128 * Pow2(shift + 7)
    ensures n < 128 ==> total == length'
  {
    length' := length + n % 128 * p;
    Split128(n, p);
    OrShifted(length, n % 128, shift, n % 128 * p);
    Pow2Values();
    Pow2Add(7, shift);
  }

  lemma Split128(n: nat, p: nat)
    ensures n * p == n / 128 * (128 * p) + n % 128 * p
    ensures n % 128 * p <= n * p
    ensures n % 128 * p <= 127 * p
  {
    Distribute128(n / 128, n % 128, p, n);
  }

  lemma Distribute128(q: nat, r: nat, p: nat, n: nat)
    requires n == 128 * q + r && r < 128
    ensures n * p == q * (128 * p) + r * p
    ensures r * p <= n * p
    ensures r * p <= 127 * p
  {
  }

  /** Continuation bits on all bytes but the last. */
  ghost predicate Continued(b: bytes) {
    b != [] && forall i :: 0 <= i < |b| ==> (b[i] >= 128 <==> i < |b| - 1)
  }

  lemma ZeroGroup(n: nat, length: nat, shift: nat)
    requires n == 0 && length < TWO_31
    ensures Or(length, Shl(n % 128, shift)) == length && n / 128 == 0
  {
  }

  lemma Pow2Grows(shift: nat)
    ensures Pow2(shift) <= Pow2(shift + 7)
  {
    Pow2Add(7, shift);
    Pow2Values();
  }

  lemma NothingMore(n: nat, length: nat, p: nat, total: nat)
    requires n == 0 && total == length + n * p
    ensures total == length && forall q: nat :: n * q == 0
  {
  }

  /** One group, also when all groups from here on are zero. */
  lemma AnyGroupStep(n: nat, length: nat, shift: nat, p: nat, total: nat) returns (length': nat)
    requires p == Pow2(shift) && length < p && total == length + n * p <= MAX_COUNT
    ensures length' == Or(length, Shl(n % 128, shift)) < Pow2(shift + 7)
    ensures total == length' + n / 128 * Pow2(shift + 7)
    ensures n < 128 ==> total == length'
  {
    if n > 0 {
      ShiftBound(n, shift, p);
      length' := GroupStep(n, length, shift, p, total);
    } else {
      NothingMore(n, length, p, total);
      ZeroGroup(n, length, shift);
      Pow2Grows(shift);
      length' := length;
    }
  }

  lemma Base128Split(b: bytes) returns (n: nat)
    requires Continued(b)
    ensures n == Base128(b) && n % 128 == b[0] % 128 && n / 128 == Base128(b[1..])
    ensures |b| == 1 ==> n < 128
  {
    n := Base128(b);
  }

  /** One turn of the loop over the first byte. */
  lemma ReadGroup(b: bytes, buf: bytes, off: int, length: nat, shift: nat, length': nat)
    requires Continued(b) && At(buf, off, b) && length' == Or(length, Shl(b[0] % 128, shift))
    ensures |b| == 1 ==> ReadVarint(buf, off, length, shift) == Ok((length' as int, off + 1))
    ensures |b| > 1 ==> Continued(b[1..]) && At(buf, off + 1, b[1..])
    ensures |b| > 1 ==> ReadVarint(buf, off, length, shift) == ReadVarint(buf, off + 1, length', shift + 7)
  {
    assert b == [b[0]] + b[1..];
    AtConcat(buf, off, [b[0]], b[1..]);
    ReadVarintStep(buf, off, b[0], length, shift);
  }

  lemma {:induction false} ReadBase128From(b: bytes, buf: bytes, off: int, length: nat, shift: nat, p: nat, total: nat)
    requires Continued(b) && At(buf, off, b)
    requires p == Pow2(shift) && length < p && total == length + Base128(b) * p <= MAX_COUNT
    ensures ReadVarint(buf, off, length, shift) == Ok((total as int, off + |b|))
    decreases |b|
  {
    var n := Base128Split(b);
    var length' := AnyGroupStep(n, length, shift, p, total);
    ReadGroup(b, buf, off, length, shift, length');
    if |b| > 1 {
      ReadBase128From(b[1..], buf, off + 1, length', shift + 7, Pow2(shift + 7), total);
    }
  }

  /** The reader accepts every base-128 form of a count up to 2^31 - 1, at any offset and
      with any suffix, minimal or padded with zero groups to any length. */
  lemma Base128Reads(b: bytes, buf: bytes, off: int)
    requires Continued(b) && Base128(b) <= MAX_COUNT && At(buf, off, b)
    ensures ReadVarint(buf, off, 0, 0) == Ok((Base128(b) as int, off + |b|))
  {
    ReadBase128From(b, buf, off, 0, 0, 1, Base128(b));
  }

  lemma ByteAt(buf: bytes, off: int, b: byte)
    requires At(buf, off, [b])
    ensures ReadUInt(1, buf, off) == Ok((b as int, off + 1))
  {
    AtIsSlice(buf, off, [b]);
    assert UIntOf([b]) == 256 * UIntOf([b][..0]) + b;
  }

  lemma ShiftBound(n: nat, shift: nat, p: nat)
    requires n > 0 && p == Pow2(shift) && n * p <= MAX_COUNT
    ensures shift <= 30
  {
    AtLeastFactors(n, p);
    if shift >= 31 {
      Pow2From31(shift);
    }
  }

  lemma AtLeastFactors(n: nat, p: nat)
    requires n >= 1 && p >= 1
    ensures n * p >= p && n * p >= n
  {
  }

  lemma Pow2From31(k: nat)
    requires k >= 31
    ensures Pow2(k) >= TWO_31
  {
    Pow2Is32();
    Pow2Add(31, k - 31);
  }

  /** Every count read back is a 32-bit integer. */
  lemma {:induction false} ReadVarintIs32Bit(buf: bytes, off: int, length: int, shift: nat)
    ensures var r := ReadVarint(buf, off, length, shift);
            r.Ok? ==> -TWO_31 <= r.value.0 < TWO_31
    decreases |buf| - off
  {
    var field := ReadUInt(1, buf, off);
    if field.Ok? {
      var (b, next) := field.value;
      ReadVarintIs32Bit(buf, next, Or(length, Shl(And(b, 0x7F), shift)), shift + 7);
    }
  }

  lemma {:induction false} VarintEnds(n: nat)
    ensures var b := VarintBytes(n); b[|b| - 1] < 128
    decreases n
  {
    var rest := ToInt32(n) / 128;
    if n >= 128 && rest >= 0 {
      VarintEnds(rest);
    }
  }

  /** The reading loop stops at the latest on a byte without the continuation bit. */
  lemma {:induction false} StopsWithin(e: bytes, buf: bytes, off: int, length: int, shift: nat)
    requires e != [] && e[|e| - 1] < 128 && At(buf, off, e)
    ensures var r := ReadVarint(buf, off, length, shift);
            r.Ok? ==> r.value.1 <= off + |e|
    decreases |e|
  {
    assert e == [e[0]] + e[1..];
    AtConcat(buf, off, [e[0]], e[1..]);
    ReadVarintStep(buf, off, e[0], length, shift);
    if e[0] >= 128 {
      StopsWithin(e[1..], buf, off + 1, Or(length, Shl(e[0] % 128, shift)), shift + 7);
    }
  }

  /** The count survives the trip at every offset and with any suffix exactly when it
      fits in 31 bits. */
  lemma CountRoundTripsIff(n: nat, buf: bytes, off: int)
    requires At(buf, off, VarintBytes(n))
    ensures ReadVarint(buf, off, 0, 0) == Ok((n, off + |VarintBytes(n)|)) <==> n <= MAX_COUNT
  {
    if n <= MAX_COUNT {
      VarintIsBase128(n);
      Base128Reads(VarintBytes(n), buf, off);
    } else {
      ReadVarintIs32Bit(buf, off, 0, 0);
    }
  }
}
