/** The streaming Encoder and Decoder, driven by a schema: the callbacks handed to
    writeArray and readArray are the recursive calls for the element schema. */
module Streaming {
  import opened Results
  import opened Bytes
  import opened JsNumber
  import opened Varint
  import opened BasicTypes
  import opened Codecs

  /** What a message field may be. A record is a chain of pairs ended by the unit. */
  datatype Schema =
    | SBoolean
    | SInt(w: Width)
    | SUInt(w: Width)
    | SString
    | SBytes
    | SCompactString
    | SCompactBytes
    | SArray(element: Schema)
    | SCompactArray(element: Schema)
    | SPair(first: Schema, second: Schema)
    | SUnit

  datatype Value =
    | VBoolean(flag: bool)
    | VInt(n: int)
    | VBytes(content: Option<bytes>)
    | VArray(elements: Option<seq<Value>>)
    | VPair(first: Value, second: Value)
    | VUnit

  // ------------------------------------------------------------ specification

  function CodecOf(s: Schema): Codec<Value> {
    match s
    case SBoolean => BooleanCodec()
    case SInt(w) => IntCodec(w)
    case SUInt(w) => UIntCodec(w)
    case SString => BytesCodec(x => SizedBytes(2, x), (b, o) => ReadSized(2, b, o))
    case SBytes => BytesCodec(x => SizedBytes(4, x), (b, o) => ReadSized(4, b, o))
    case SCompactString => BytesCodec(x => Ok(CompactBytes(x)), (b, o) => ReadCompactString(b, o))
    case SCompactBytes => BytesCodec(x => Ok(CompactBytes(x)), (b, o) => ReadCompactBytes(b, o))
    case SArray(e) => ArrayCodec(CodecOf(e))
    case SCompactArray(e) => CompactArrayCodec(CodecOf(e))
    case SPair(s1, s2) => PairCodec(CodecOf(s1), CodecOf(s2))
    case SUnit => UnitCodec()
  }

  function BooleanCodec(): Codec<Value> {
    Codec((v: Value) => if v.VBoolean? then Ok(BooleanBytes(v.flag)) else Err(TypeMismatch),
          (b, o) => AsBoolean(ReadBoolean(b, o)))
  }

  function IntCodec(w: Width): Codec<Value> {
    Codec((v: Value) => if v.VInt? then PutInt(w, v.n) else Err(TypeMismatch), (b, o) => AsInt(ReadInt(w, b, o)))
  }

  function UIntCodec(w: Width): Codec<Value> {
    Codec((v: Value) => if v.VInt? then PutUInt(w, v.n) else Err(TypeMismatch), (b, o) => AsInt(ReadUInt(w, b, o)))
  }

  function BytesCodec(encode: Option<bytes> -> Result<bytes>,
                      decode: (bytes, int) -> Result<(Option<bytes>, int)>): Codec<Value>
  {
    Codec((v: Value) => if v.VBytes? then encode(v.content) else Err(TypeMismatch), (b, o) => AsBytes(decode(b, o)))
  }

  function ArrayCodec(c: Codec<Value>): Codec<Value> {
    ElementsCodec(vs => ArrayBytes(vs, c.encode), (b, o) => ReadArray(b, o, c.decode))
  }

  function CompactArrayCodec(c: Codec<Value>): Codec<Value> {
    ElementsCodec(vs => CompactArrayBytes(vs, c.encode), (b, o) => ReadCompactArray(b, o, c.decode))
  }

  function ElementsCodec(encode: Option<seq<Value>> -> Result<bytes>,
                         decode: (bytes, int) -> Result<(Option<seq<Value>>, int)>): Codec<Value>
  {
    Codec((v: Value) => if v.VArray? then encode(v.elements) else Err(TypeMismatch), (b, o) => AsArray(decode(b, o)))
  }

  function PairCodec(c1: Codec<Value>, c2: Codec<Value>): Codec<Value> {
    Codec((v: Value) => if v.VPair? then Joined(c1.encode(v.first), c2.encode(v.second)) else Err(TypeMismatch),
          (b, o) => ReadPair(c1, c2, b, o))
  }

  function UnitCodec(): Codec<Value> {
    Codec((v: Value) => if v.VUnit? then Ok([]) else Err(TypeMismatch), (b, o) => Ok((VUnit, o)))
  }

  function ReadPair(c1: Codec<Value>, c2: Codec<Value>, buf: bytes, off: int): Result<(Value, int)> {
    var (first, middle) :- c1.decode(buf, off);
    var (second, next) :- c2.decode(buf, middle);
    Ok((VPair(first, second), next))
  }

  function AsBoolean(r: Result<(bool, int)>): Result<(Value, int)> {
    var (flag, next) :- r;
    Ok((VBoolean(flag), next))
  }

  function AsInt(r: Result<(int, int)>): Result<(Value, int)> {
    var (n, next) :- r;
    Ok((VInt(n), next))
  }

  function AsBytes(r: Result<(Option<bytes>, int)>): Result<(Value, int)> {
    var (content, next) :- r;
    Ok((VBytes(content), next))
  }

  function AsArray(r: Result<(Option<seq<Value>>, int)>): Result<(Value, int)> {
    var (elements, next) :- r;
    Ok((VArray(elements), next))
  }

  function Encode(s: Schema, v: Value): Result<bytes> {
    CodecOf(s).encode(v)
  }

  function Decode(s: Schema, buf: bytes, off: int): Result<(Value, int)> {
    CodecOf(s).decode(buf, off)
  }

  lemma ArrayCodecReads(c: Codec<Value>, buf: bytes, off: int)
    ensures ArrayCodec(c).decode(buf, off) == AsArray(ReadArray(buf, off, c.decode))
    ensures CompactArrayCodec(c).decode(buf, off) == AsArray(ReadCompactArray(buf, off, c.decode))
  {
  }

  // --------------------------------------------------------------- round trip

  /** Every compact count in the value fits in 31 bits. */
  ghost predicate CountsFit(s: Schema, v: Value) {
    match s
    case SCompactString => v.VBytes? ==> Short(v.content)
    case SCompactBytes => v.VBytes? ==> Short(v.content)
    case SArray(e) => v.VArray? && v.elements.Some? ==> AllOk(x => CountsFit(e, x), v.elements.value)
    case SCompactArray(e) =>
      v.VArray? && v.elements.Some? ==>
        |v.elements.value| < MAX_COUNT && AllOk(x => CountsFit(e, x), v.elements.value)
    case SPair(s1, s2) => v.VPair? ==> CountsFit(s1, v.first) && CountsFit(s2, v.second)
    case _ => true
  }

  lemma BooleanSound(ok: Value -> bool)
    ensures Sound(BooleanCodec(), ok)
  {
  }

  lemma IntSound(w: Width, ok: Value -> bool)
    ensures Sound(IntCodec(w), ok)
  {
    var c := IntCodec(w);
    forall v: Value, buf: bytes, off: int | ok(v) && c.encode(v).Ok? && At(buf, off, c.encode(v).value)
      ensures c.decode(buf, off) == Ok((v, off + |c.encode(v).value|))
    {
      ReadIntAt(w, v.n, buf, off);
    }
  }

  lemma UIntSound(w: Width, ok: Value -> bool)
    ensures Sound(UIntCodec(w), ok)
  {
    var c := UIntCodec(w);
    forall v: Value, buf: bytes, off: int | ok(v) && c.encode(v).Ok? && At(buf, off, c.encode(v).value)
      ensures c.decode(buf, off) == Ok((v, off + |c.encode(v).value|))
    {
      ReadUIntAt(w, v.n, buf, off);
    }
  }

  lemma BytesSound(encode: Option<bytes> -> Result<bytes>, decode: (bytes, int) -> Result<(Option<bytes>, int)>,
                   contentOk: Option<bytes> -> bool, ok: Value -> bool)
    requires SelfDelimiting(contentOk, encode, decode)
    requires forall v :: ok(v) ==> v.VBytes? ==> contentOk(v.content)
    ensures Sound(BytesCodec(encode, decode), ok)
  {
  }

  lemma CompactStringDelimits()
    ensures SelfDelimiting(x => Short(x), x => Ok(CompactBytes(x)), (b, o) => ReadCompactString(b, o))
  {
    forall x: Option<bytes>, buf: bytes, off: int | Short(x) && At(buf, off, CompactBytes(x))
      ensures ReadCompactString(buf, off) == Ok((x, off + |CompactBytes(x)|))
    {
      ReadCompactAt(x, buf, off);
    }
  }

  lemma CompactBytesDelimits()
    ensures SelfDelimiting(x => Short(x), x => Ok(CompactBytes(x)), (b, o) => ReadCompactBytes(b, o))
  {
    forall x: Option<bytes>, buf: bytes, off: int | Short(x) && At(buf, off, CompactBytes(x))
      ensures ReadCompactBytes(buf, off) == Ok((x, off + |CompactBytes(x)|))
    {
      ReadCompactAt(x, buf, off);
    }
  }

  ghost function ArrayOk(ok: Value -> bool): Option<seq<Value>> -> bool {
    (vs: Option<seq<Value>>) => vs.Some? ==> AllOk(ok, vs.value)
  }

  ghost function CompactArrayOk(ok: Value -> bool): Option<seq<Value>> -> bool {
    (vs: Option<seq<Value>>) => vs.Some? ==> AllOk(ok, vs.value) && |vs.value| < MAX_COUNT
  }

  lemma ElementsSound(encode: Option<seq<Value>> -> Result<bytes>,
                      decode: (bytes, int) -> Result<(Option<seq<Value>>, int)>,
                      elementsOk: Option<seq<Value>> -> bool, ok: Value -> bool)
    requires SelfDelimiting(elementsOk, encode, decode)
    requires forall v :: ok(v) ==> v.VArray? ==> elementsOk(v.elements)
    ensures Sound(ElementsCodec(encode, decode), ok)
  {
  }

  lemma ArraySound(e: Codec<Value>, elementOk: Value -> bool, ok: Value -> bool)
    requires Sound(e, elementOk)
    requires forall v :: ok(v) ==> v.VArray? ==> ArrayOk(elementOk)(v.elements)
    ensures Sound(ArrayCodec(e), ok)
  {
    ArraysLift(elementOk, e.encode, e.decode, ArrayOk(elementOk));
    ElementsSound(vs => ArrayBytes(vs, e.encode), (b, o) => ReadArray(b, o, e.decode), ArrayOk(elementOk), ok);
  }

  lemma CompactArraySound(e: Codec<Value>, elementOk: Value -> bool, ok: Value -> bool)
    requires Sound(e, elementOk)
    requires forall v :: ok(v) ==> v.VArray? ==> CompactArrayOk(elementOk)(v.elements)
    ensures Sound(CompactArrayCodec(e), ok)
  {
    CompactArraysLift(elementOk, e.encode, e.decode, CompactArrayOk(elementOk));
    ElementsSound(vs => CompactArrayBytes(vs, e.encode), (b, o) => ReadCompactArray(b, o, e.decode),
                  CompactArrayOk(elementOk), ok);
  }

  lemma PairSound(c1: Codec<Value>, c2: Codec<Value>, ok1: Value -> bool, ok2: Value -> bool, ok: Value -> bool)
    requires Sound(c1, ok1) && Sound(c2, ok2)
    requires forall v :: ok(v) ==> v.VPair? ==> ok1(v.first) && ok2(v.second)
    ensures Sound(PairCodec(c1, c2), ok)
  {
    var c := PairCodec(c1, c2);
    forall v: Value, buf: bytes, off: int | ok(v) && c.encode(v).Ok? && At(buf, off, c.encode(v).value)
      ensures c.decode(buf, off) == Ok((v, off + |c.encode(v).value|))
    {
      PairAt(c1, c2, ok1, ok2, v, buf, off);
    }
  }

  lemma PairAt(c1: Codec<Value>, c2: Codec<Value>, ok1: Value -> bool, ok2: Value -> bool, v: Value, buf: bytes,
               off: int)
    requires Sound(c1, ok1) && Sound(c2, ok2) && v.VPair? && ok1(v.first) && ok2(v.second)
    requires c1.encode(v.first).Ok? && c2.encode(v.second).Ok?
    requires At(buf, off, c1.encode(v.first).value + c2.encode(v.second).value)
    ensures ReadPair(c1, c2, buf, off) == Ok((v, off + |c1.encode(v.first).value + c2.encode(v.second).value|))
  {
    AtConcat(buf, off, c1.encode(v.first).value, c2.encode(v.second).value);
  }

  lemma UnitSound(ok: Value -> bool)
    ensures Sound(UnitCodec(), ok)
  {
  }

  /** Every schema's codec is self-delimiting: every accepted value comes back from its
      encoding, at any offset and whatever surrounds it, and the reader stops exactly at
      the end of the encoding. */
  lemma {:induction false} EverySchemaRoundTrips(s: Schema)
    ensures Sound(CodecOf(s), v => CountsFit(s, v))
  {
    var ok := (v: Value) => CountsFit(s, v);
    match s
    case SBoolean => BooleanSound(ok);
    case SInt(w) => IntSound(w, ok);
    case SUInt(w) => UIntSound(w, ok);
    case SString =>
      SizedDelimits(2);
      BytesSound(x => SizedBytes(2, x), (b, o) => ReadSized(2, b, o), x => true, ok);
    case SBytes =>
      SizedDelimits(4);
      BytesSound(x => SizedBytes(4, x), (b, o) => ReadSized(4, b, o), x => true, ok);
    case SCompactString =>
      CompactStringDelimits();
      BytesSound(x => Ok(CompactBytes(x)), (b, o) => ReadCompactString(b, o), x => Short(x), ok);
    case SCompactBytes =>
      CompactBytesDelimits();
      BytesSound(x => Ok(CompactBytes(x)), (b, o) => ReadCompactBytes(b, o), x => Short(x), ok);
    case SArray(e) =>
      EverySchemaRoundTrips(e);
      ArraySound(CodecOf(e), v => CountsFit(e, v), ok);
    case SCompactArray(e) =>
      EverySchemaRoundTrips(e);
      CompactArraySound(CodecOf(e), v => CountsFit(e, v), ok);
    case SPair(s1, s2) =>
      EverySchemaRoundTrips(s1);
      EverySchemaRoundTrips(s2);
      PairSound(CodecOf(s1), CodecOf(s2), v => CountsFit(s1, v), v => CountsFit(s2, v), ok);
    case SUnit => UnitSound(ok);
  }

  lemma NullByte()
    ensures PutUInt(1, 0) == Ok([0])
  {
    Pow256Values();
    assert IntBytes(0, 0) == [];
    assert IntBytes(1, 0) == [] + [0] == [0];
  }

  // ------------------------------------------------------------------ Encoder

  class Encoder {
    var buffers: seq<bytes>
    var size: nat

    ghost predicate Valid()
      reads this
    {
      size == |Flatten(buffers)|
    }

    /** Everything written so far. */
    ghost function Contents(): bytes
      reads this
    {
      Flatten(buffers)
    }

    constructor ()
      ensures Valid() && Contents() == []
    {
      buffers := [];
      size := 0;
    }

    /** The common tail of every write: keep the chunk, add up its size. */
    method WriteBuffer(buffer: bytes)
      requires Valid()
      modifies this
      ensures Valid() && Contents() == old(Contents()) + buffer
    {
      FlattenSnoc(buffers, buffer);
      buffers := buffers + [buffer];
      size := size + |buffer|;
    }

    method GetSize() returns (n: nat)
      requires Valid()
      ensures n == |Contents()|
    {
      n := size;
    }

    /** `Buffer.concat(buffers, size)` with the size the encoder kept. */
    method Build() returns (built: bytes)
      requires Valid()
      ensures built == Contents()
    {
      built := Concat(buffers, size);
    }

    /** writeUInt8 of the count bytes: `len` shrinks by seven bits a turn. */
    method WriteCount(encodedLength: nat)
      requires Valid()
      modifies this
      ensures Valid() && Contents() == old(Contents()) + VarintBytes(encodedLength)
    {
      var len: int := encodedLength;
      ghost var result := Contents() + VarintBytes(encodedLength);
      while len > 127
        invariant Valid() && result == Contents() + Remaining(len)
        decreases len
      {
        RemainingStep(len);
        var b := ContinuedByte(len);
        len := NextGroup(len);
        Assoc(Contents(), [b], Remaining(len));
        WriteBuffer([b]);
      }
      var b := LastByte(len);
      WriteBuffer([b]);
    }

    /** What a write method owes its caller: the encoding is appended, or the value is
        rejected with some prefix of the field left behind. */
    ghost predicate Appended(before: bytes, field: Result<bytes>, r: Result<()>)
      reads this
    {
      && Valid() && r.Ok? == field.Ok?
      && (r.Ok? ==> Contents() == before + field.value)
      && (r.Err? ==> before <= Contents())
    }

    /** The write method the schema names. */
    method Write(s: Schema, v: Value) returns (r: Result<()>)
      requires Valid()
      modifies this
      ensures Appended(old(Contents()), Encode(s, v), r)
      decreases s, 0
    {
      match s
      case SArray(e) =>
        if v.VArray? {
          r := WriteArray(e, v.elements);
        } else {
          r := Err(TypeMismatch);
        }
      case SCompactArray(e) =>
        if v.VArray? {
          r := WriteCompactArray(e, v.elements);
        } else {
          r := Err(TypeMismatch);
        }
      case SPair(s1, s2) =>
        if !v.VPair? {
          return Err(TypeMismatch);
        }
        r := Write(s1, v.first);
        if r.Ok? {
          r := Write(s2, v.second);
          if r.Ok? {
            Assoc(old(Contents()), Encode(s1, v.first).value, Encode(s2, v.second).value);
          }
        }
      case _ =>
        var chunk := Encode(s, v);
        if chunk.Err? {
          return Err(chunk.error);
        }
        WriteBuffer(chunk.value);
        r := Ok(());
    }

    /** Count first, then the elements one by one: the bytes are those of
        BasicTypes.encodeArray, which collects the elements first. */
    method WriteArray(e: Schema, values: Option<seq<Value>>) returns (r: Result<()>)
      requires Valid()
      modifies this
      ensures Appended(old(Contents()), ArrayBytes(values, CodecOf(e).encode), r)
      decreases e, 2
    {
      SizedNull(4);
      var count := PutInt(4, if values.None? then -1 else |values.value|);
      if count.Err? {
        return Err(count.error);
      }
      WriteBuffer(count.value);
      if values.None? {
        return Ok(());
      }
      r := WriteElements(e, values.value);
      if r.Ok? {
        Assoc(old(Contents()), count.value, ElementsBytes(values.value, CodecOf(e).encode).value);
      }
    }

    /** Likewise BasicTypes.encodeCompactArray. */
    method WriteCompactArray(e: Schema, values: Option<seq<Value>>) returns (r: Result<()>)
      requires Valid()
      modifies this
      ensures Appended(old(Contents()), CompactArrayBytes(values, CodecOf(e).encode), r)
      decreases e, 2
    {
      if values.None? {
        NullByte();
        WriteBuffer(PutUInt(1, 0).value);
        return Ok(());
      }
      WriteCount(|values.value| + 1);
      r := WriteElements(e, values.value);
      if r.Ok? {
        Assoc(old(Contents()), VarintBytes(|values.value| + 1),
                    ElementsBytes(values.value, CodecOf(e).encode).value);
      }
    }

    method WriteElements(e: Schema, values: seq<Value>) returns (r: Result<()>)
      requires Valid()
      modifies this
      ensures Appended(old(Contents()), ElementsBytes(values, CodecOf(e).encode), r)
      decreases e, 1
    {
      ghost var encode := CodecOf(e).encode;
      ghost var before := Contents();
      ghost var written: bytes := [];
      PrefixedNothing(ElementsBytes(values, encode));
      assert values[0..] == values;
      for i := 0 to |values|
        invariant Valid() && Contents() == before + written
        invariant ElementsBytes(values, encode) == Prefixed(written, ElementsBytes(values[i..], encode))
      {
        assert values[i..][0] == values[i] && values[i..][1..] == values[i + 1..];
        r := Write(e, values[i]);
        if r.Err? {
          return;
        }
        PrefixedTwice(written, Encode(e, values[i]).value, ElementsBytes(values[i + 1..], encode));
        Assoc(before, written, Encode(e, values[i]).value);
        written := written + Encode(e, values[i]).value;
      }
      assert written + [] == written;
      r := Ok(());
    }
  }

  /** `Buffer.concat(list, totalLength)`: cut or zero-filled to the length asked for. */
  function Concat(chunks: seq<bytes>, totalLength: nat): bytes {
    var all := Flatten(chunks);
    if totalLength <= |all| then all[..totalLength] else all + seq(totalLength - |all|, _ => 0)
  }

  // ------------------------------------------------------------------ Decoder

  class Decoder {
    const buffer: bytes
    var offset: int

    constructor (buffer: bytes)
      ensures this.buffer == buffer && offset == 0
    {
      this.buffer := buffer;
      offset := 0;
    }

    method GetOffset() returns (n: int)
      ensures n == offset
    {
      n := offset;
    }

    /** What a read method owes its caller: the specified value with the cursor behind
        the field, or the specified error. */
    ghost predicate Took<T>(field: Result<(T, int)>, r: Result<T>)
      reads this
    {
      if field.Ok? then r == Ok(field.value.0) && offset == field.value.1 else r == Err(field.error)
    }

    /** The common tail of the fixed reads: move the cursor, hand out the value. */
    method Take<T>(field: Result<(T, int)>) returns (r: Result<T>)
      modifies this
      ensures Took(field, r) && (field.Err? ==> offset == old(offset))
    {
      if field.Err? {
        return Err(field.error);
      }
      offset := field.value.1;
      r := Ok(field.value.0);
    }

    /** The count loop of readCompactArray over readUInt8. */
    method ReadCount() returns (r: Result<int>)
      modifies this
      ensures Took(ReadVarint(buffer, old(offset), 0, 0), r)
    {
      var length, shift := 0, 0;
      while true
        invariant ReadVarint(buffer, offset, length, shift) == ReadVarint(buffer, old(offset), 0, 0)
        decreases |buffer| - offset
      {
        var byteRead := Take(ReadUInt(1, buffer, offset));
        if byteRead.Err? {
          return Err(byteRead.error);
        }
        length := Or(length, Shl(And(byteRead.value, 0x7F), shift));
        shift := shift + 7;
        if And(byteRead.value, 0x80) == 0 {
          return Ok(length);
        }
      }
    }

    /** The read method the schema names. */
    method Read(s: Schema) returns (r: Result<Value>)
      modifies this
      ensures Took(Decode(s, buffer, old(offset)), r)
      decreases s, 0
    {
      match s
      case SArray(e) =>
        ArrayCodecReads(CodecOf(e), buffer, offset);
        var elements := ReadArrayOf(e);
        r := if elements.Ok? then Ok(VArray(elements.value)) else Err(elements.error);
      case SCompactArray(e) =>
        ArrayCodecReads(CodecOf(e), buffer, offset);
        var elements := ReadCompactArrayOf(e);
        r := if elements.Ok? then Ok(VArray(elements.value)) else Err(elements.error);
      case SPair(s1, s2) =>
        var first := Read(s1);
        if first.Err? {
          return first;
        }
        var second := Read(s2);
        if second.Err? {
          return second;
        }
        r := Ok(VPair(first.value, second.value));
      case _ =>
        r := Take(Decode(s, buffer, offset));
    }

    method ReadArrayOf(e: Schema) returns (r: Result<Option<seq<Value>>>)
      modifies this
      ensures Took(ReadArray(buffer, old(offset), CodecOf(e).decode), r)
      decreases e, 2
    {
      var length := Take(ReadInt(4, buffer, offset));
      if length.Err? {
        return Err(length.error);
      }
      if length.value < 0 {
        return Ok(None);
      }
      var elements := ReadElements(e, length.value);
      r := if elements.Ok? then Ok(Some(elements.value)) else Err(elements.error);
    }

    method ReadCompactArrayOf(e: Schema) returns (r: Result<Option<seq<Value>>>)
      modifies this
      ensures Took(ReadCompactArray(buffer, old(offset), CodecOf(e).decode), r)
      decreases e, 2
    {
      var length := ReadCount();
      if length.Err? {
        return Err(length.error);
      }
      if length.value == 0 {
        return Ok(None);
      }
      var elements := ReadElements(e, length.value - 1);
      r := if elements.Ok? then Ok(Some(elements.value)) else Err(elements.error);
    }

    method ReadElements(e: Schema, length: int) returns (r: Result<seq<Value>>)
      modifies this
      ensures Took(ReadMany(Max(length, 0), buffer, old(offset), CodecOf(e).decode), r)
      decreases e, 1
    {
      var result: seq<Value> := [];
      var i := 0;
      ghost var decode := CodecOf(e).decode;
      ghost var n: nat := Max(length, 0);
      ghost var all := ReadMany(n, buffer, offset, decode);
      LoopStarts(all);
      while i < length
        invariant 0 <= i <= n
        invariant all == Prepended(result, ReadMany(n - i, buffer, offset, decode))
      {
        LoopTurns(all, result, n - i, buffer, offset, decode);
        var element := Read(e);
        if element.Err? {
          return Err(element.error);
        }
        result := result + [element.value];
        i := i + 1;
      }
      LoopEnds(all, result, buffer, offset, decode);
      r := Ok(result);
    }
  }

  /** Writing with an Encoder and reading what it built with a Decoder, behind any
      prefix and before any suffix, gives the value back and moves the cursor by exactly
      the size the encoder reports. */
  method WriteThenRead(s: Schema, v: Value, prefix: bytes, suffix: bytes)
    returns (r: Result<Value>, size: nat, end: int)
    requires CountsFit(s, v)
    ensures Encode(s, v).Ok? ==> r == Ok(v) && size == |Encode(s, v).value| && end == |prefix| + size
    ensures Encode(s, v).Err? ==> r.Err?
  {
    size, end := 0, |prefix|;
    var encoder := new Encoder();
    var written := encoder.Write(s, v);
    if written.Err? {
      r := Err(written.error);
      return;
    }
    size := encoder.GetSize();
    var built := encoder.Build();
    assert built == Encode(s, v).value;
    var message := prefix + built + suffix;
    AtMiddle(prefix, built, suffix);
    RoundTripAt(s, v, message, |prefix|);
    var decoder := new Decoder(message);
    decoder.offset := |prefix|;
    r := decoder.Read(s);
    end := decoder.GetOffset();
  }

  lemma RoundTripAt(s: Schema, v: Value, buf: bytes, off: int)
    requires CountsFit(s, v) && Encode(s, v).Ok? && At(buf, off, Encode(s, v).value)
    ensures Decode(s, buf, off) == Ok((v, off + |Encode(s, v).value|))
  {
    EverySchemaRoundTrips(s);
  }

  lemma AtMiddle(prefix: bytes, e: bytes, suffix: bytes)
    ensures At(prefix + e + suffix, |prefix|, e)
  {
    AtIsSlice(prefix + e + suffix, |prefix|, e);
  }
}
