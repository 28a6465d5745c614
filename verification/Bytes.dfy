/** Byte buffers with the fixed-width integer accessors of Node's Buffer.
    Integers are big-endian; signed ones are two's complement. */
module Bytes {
  import opened Results

  type byte = b: int | 0 <= b < 256
  type bytes = seq<byte>

  /** The field widths Buffer offers. */
  type Width = w: int | w == 1 || w == 2 || w == 4 || w == 8 witness 1

  function Pow256(w: nat): (p: nat)
    ensures p >= 1
  {
    if w == 0 then 1 else 256 * Pow256(w - 1)
  }

  lemma Pow256Values()
    ensures Pow256(1) == 0x100
    ensures Pow256(2) == 0x1_0000
    ensures Pow256(4) == 0x1_0000_0000
    ensures Pow256(8) == 0x1_0000_0000_0000_0000
  {
  }

  // ---------------------------------------------------------------- integers

  /** The `w` low bytes of the two's complement of `v`, most significant first: what the
      signed and the unsigned writes both store. */
  function IntBytes(w: nat, v: int): (b: bytes)
    ensures |b| == w
  {
    if w == 0 then [] else IntBytes(w - 1, v / 256) + [v % 256]
  }

  function UIntOf(b: bytes): nat {
    if b == [] then 0 else 256 * UIntOf(b[..|b| - 1]) + b[|b| - 1]
  }

  /** Only the first byte carries the sign. */
  function IntOf(b: bytes): int {
    if b == [] then 0
    else if |b| == 1 then if b[0] < 128 then b[0] else b[0] - 256
    else 256 * IntOf(b[..|b| - 1]) + b[|b| - 1]
  }

  predicate FitsInt(w: nat, v: int) {
    0 <= 2 * v + Pow256(w) < 2 * Pow256(w)
  }

  predicate FitsUInt(w: nat, v: int) {
    0 <= v < Pow256(w)
  }

  lemma IntBytesPrefix(w: nat, v: int)
    requires w > 0
    ensures var b := IntBytes(w, v); b[..|b| - 1] == IntBytes(w - 1, v / 256) && b[|b| - 1] == v % 256
  {
  }

  lemma {:induction false} UIntOfBytes(w: nat, v: int)
    requires FitsUInt(w, v)
    ensures UIntOf(IntBytes(w, v)) == v
  {
    if w > 0 {
      IntBytesPrefix(w, v);
      UIntOfBytes(w - 1, v / 256);
    }
  }

  lemma OneByteLess(v: int, p: nat, q: nat)
    requires 0 <= 2 * v + 256 * p < 512 * p && p == 256 * q
    ensures 0 <= 2 * (v / 256) + p < 2 * p
  {
  }

  lemma {:induction false} IntOfBytes(w: nat, v: int)
    requires w > 0 && FitsInt(w, v)
    ensures IntOf(IntBytes(w, v)) == v
  {
    IntBytesPrefix(w, v);
    if w == 1 {
      assert Pow256(1) == 256;
    } else {
      OneByteLess(v, Pow256(w - 1), Pow256(w - 2));
      IntOfBytes(w - 1, v / 256);
    }
  }

  /** Every field content is the encoding of exactly one in-range integer. */
  lemma {:induction false} IntBytesOf(b: bytes)
    requires b != []
    ensures FitsInt(|b|, IntOf(b))
    ensures IntBytes(|b|, IntOf(b)) == b
    decreases |b|
  {
    if |b| == 1 {
      assert Pow256(1) == 256;
      assert IntBytes(0, IntOf(b) / 256) == [];
    } else {
      IntBytesOf(b[..|b| - 1]);
      assert b == b[..|b| - 1] + [b[|b| - 1]];
      assert IntOf(b) / 256 == IntOf(b[..|b| - 1]) && IntOf(b) % 256 == b[|b| - 1];
    }
  }

  lemma Carry(a: int, p: int, u: int, last: int)
    ensures 256 * (a * p + u) + last == a * (256 * p) + (256 * u + last)
  {
  }

  /** Big-endian: the first byte weighs most, and in a signed field it carries the sign. */
  lemma {:induction false} FirstByteWeighsMost(a: byte, s: bytes)
    ensures UIntOf([a] + s) == a * Pow256(|s|) + UIntOf(s)
    ensures IntOf([a] + s) == (if a < 128 then a else a - 256) * Pow256(|s|) + UIntOf(s)
    decreases |s|
  {
    if s == [] {
      assert [a] + s == [a] && [a][..0] == [];
    } else {
      var n := |s| - 1;
      assert ([a] + s)[..n + 1] == [a] + s[..n];
      FirstByteWeighsMost(a, s[..n]);
      Carry(a, Pow256(n), UIntOf(s[..n]), s[n]);
      Carry(if a < 128 then a else a - 256, Pow256(n), UIntOf(s[..n]), s[n]);
    }
  }

  // ------------------------------------------------------- buffers and fields

  /** `e` stands in `buf` at offset `off`; whatever precedes or follows is free. */
  predicate At(buf: bytes, off: int, e: bytes)
    decreases |e|
  {
    if e == [] then 0 <= off <= |buf|
    else 0 <= off < |buf| && buf[off] == e[0] && At(buf, off + 1, e[1..])
  }

  lemma {:induction false} AtIsSlice(buf: bytes, off: int, e: bytes)
    ensures At(buf, off, e) <==> 0 <= off && off + |e| <= |buf| && buf[off..off + |e|] == e
    decreases |e|
  {
    if e != [] {
      AtIsSlice(buf, off + 1, e[1..]);
      if 0 <= off && off + |e| <= |buf| {
        assert buf[off..off + |e|] == [buf[off]] + buf[off + 1..off + |e|];
        assert e == [e[0]] + e[1..];
      }
    }
  }

  lemma AtConcat(buf: bytes, off: int, a: bytes, b: bytes)
    ensures At(buf, off, a + b) <==> At(buf, off, a) && At(buf, off + |a|, b)
  {
    AtIsSlice(buf, off, a + b);
    AtIsSlice(buf, off, a);
    AtIsSlice(buf, off + |a|, b);
    if 0 <= off && off + |a + b| <= |buf| {
      var whole := buf[off..off + |a + b|];
      assert whole == buf[off..off + |a|] + buf[off + |a|..off + |a| + |b|];
      assert whole[..|a|] == buf[off..off + |a|] && whole[|a|..] == buf[off + |a|..off + |a| + |b|];
    }
  }

  /** `writeIntNBE` into a field of its own: throws when the value does not fit. */
  function PutInt(w: Width, v: int): Result<bytes> {
    if FitsInt(w, v) then Ok(IntBytes(w, v)) else Err(RangeError)
  }

  function PutUInt(w: Width, v: int): Result<bytes> {
    if FitsUInt(w, v) then Ok(IntBytes(w, v)) else Err(RangeError)
  }

  /** `readIntNBE` and the offset after the field: throws outside the buffer. */
  function ReadInt(w: Width, buf: bytes, off: int): Result<(int, int)> {
    if 0 <= off && off + w <= |buf| then Ok((IntOf(buf[off..off + w]), off + w)) else Err(RangeError)
  }

  function ReadUInt(w: Width, buf: bytes, off: int): Result<(int, int)> {
    if 0 <= off && off + w <= |buf| then Ok((UIntOf(buf[off..off + w]), off + w)) else Err(RangeError)
  }

  lemma ReadIntAt(w: Width, v: int, buf: bytes, off: int)
    requires FitsInt(w, v) && At(buf, off, IntBytes(w, v))
    ensures ReadInt(w, buf, off) == Ok((v, off + w))
  {
    AtIsSlice(buf, off, IntBytes(w, v));
    IntOfBytes(w, v);
  }

  lemma ReadUIntAt(w: Width, v: int, buf: bytes, off: int)
    requires FitsUInt(w, v) && At(buf, off, IntBytes(w, v))
    ensures ReadUInt(w, buf, off) == Ok((v, off + w))
  {
    AtIsSlice(buf, off, IntBytes(w, v));
    UIntOfBytes(w, v);
  }

  function Min(a: int, b: int): int {
    if a < b then a else b
  }

  function Max(a: int, b: int): int {
    if a < b then b else a
  }

  /** `buffer.toString('utf8', start, end)` on bytes: both ends are clamped and an
      empty or reversed range gives the empty string. */
  function Text(buf: bytes, start: int, end: int): bytes {
    var s := Max(start, 0);
    var e := Min(end, |buf|);
    if s < e then buf[s..e] else []
  }

  /** `buffer.slice(start, end)`: negative ends count from the back. */
  function Slice(buf: bytes, start: int, end: int): bytes {
    var s := if start < 0 then Max(|buf| + start, 0) else Min(start, |buf|);
    var e := if end < 0 then Max(|buf| + end, 0) else Min(end, |buf|);
    if s < e then buf[s..e] else []
  }

  lemma TextAt(buf: bytes, off: int, s: bytes)
    requires At(buf, off, s)
    ensures Text(buf, off, off + |s|) == s
    ensures Slice(buf, off, off + |s|) == s
  {
    AtIsSlice(buf, off, s);
  }

  /** `source.copy(target, off)` and the fixed-width writes: overwrite in place. */
  method Blit(target: array<byte>, source: bytes, off: nat)
    requires off + |source| <= target.Length
    modifies target
    ensures target[..] == old(target[..off]) + source + old(target[off + |source|..])
    ensures target[..off + |source|] == old(target[..off]) + source
  {
    forall i | 0 <= i < |source| {
      target[off + i] := source[i];
    }
  }

  lemma Assoc<T>(a: seq<T>, b: seq<T>, c: seq<T>)
    ensures a + b + c == a + (b + c)
  {
  }

  function Flatten(chunks: seq<bytes>): bytes {
    if chunks == [] then [] else chunks[0] + Flatten(chunks[1..])
  }

  lemma {:induction false} FlattenAppend(a: seq<bytes>, b: seq<bytes>)
    ensures Flatten(a + b) == Flatten(a) + Flatten(b)
  {
    if a == [] {
      assert a + b == b;
    } else {
      assert (a + b)[0] == a[0] && (a + b)[1..] == a[1..] + b;
      FlattenAppend(a[1..], b);
    }
  }

  lemma FlattenOne(chunk: bytes)
    ensures Flatten([chunk]) == chunk
  {
  }
}
