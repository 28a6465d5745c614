/** Which values of a schema do not read back: exactly those with a compact count that is
    no 31-bit integer, however deep in the value. */
module SchemaLimits {
  import opened Results
  import opened Bytes
  import opened Varint
  import opened BasicTypes
  import opened Codecs
  import opened Streaming

  /** From in front of the buffer a reader fails, or ends there again. */
  ghost predicate StaysBehind(c: Codec<Value>) {
    forall buf, off :: off < 0 && c.decode(buf, off).Ok? ==> c.decode(buf, off).value.1 < 0
  }

  /** No other value comes back: what is read differs, or the reader ends in front of the
      buffer. */
  ghost predicate Strays(r: Result<(Value, int)>, v: Value) {
    r.Ok? ==> r.value.0 != v || r.value.1 < 0
  }

  ghost predicate Strict(c: Codec<Value>, ok: Value -> bool) {
    forall v: Value, buf: bytes, off: int ::
      !ok(v) && c.encode(v).Ok? && At(buf, off, c.encode(v).value) ==> Strays(c.decode(buf, off), v)
  }

  /** What is needed of the parts of a format. */
  ghost predicate Exact(c: Codec<Value>, ok: Value -> bool) {
    Sound(c, ok) && Strict(c, ok) && StaysBehind(c)
  }

  // ------------------------------------------------------------------- leaves

  lemma CompactStaysBehind(buf: bytes, off: int)
    requires off < 0
    ensures ReadVarint(buf, off, 0, 0).Err? && ReadCompactString(buf, off).Err? && ReadCompactBytes(buf, off).Err?
  {
  }

  lemma BytesStayBehind(encode: Option<bytes> -> Result<bytes>, decode: (bytes, int) -> Result<(Option<bytes>, int)>)
    requires forall buf, off :: off < 0 ==> decode(buf, off).Err?
    ensures StaysBehind(BytesCodec(encode, decode))
  {
  }

  lemma CompactBytesStayBehind()
    ensures StaysBehind(BytesCodec(x => Ok(CompactBytes(x)), (b, o) => ReadCompactString(b, o)))
    ensures StaysBehind(BytesCodec(x => Ok(CompactBytes(x)), (b, o) => ReadCompactBytes(b, o)))
  {
    forall buf: bytes, off: int | off < 0
      ensures ReadCompactString(buf, off).Err? && ReadCompactBytes(buf, off).Err?
    {
      CompactStaysBehind(buf, off);
    }
    BytesStayBehind(x => Ok(CompactBytes(x)), (b, o) => ReadCompactString(b, o));
    BytesStayBehind(x => Ok(CompactBytes(x)), (b, o) => ReadCompactBytes(b, o));
  }

  predicate IsField(s: Schema) {
    !s.SArray? && !s.SCompactArray? && !s.SPair?
  }

  lemma FieldsStayBehind(s: Schema)
    requires IsField(s)
    ensures StaysBehind(CodecOf(s))
  {
    match s
    case SString => BytesStayBehind(x => SizedBytes(2, x), (b, o) => ReadSized(2, b, o));
    case SBytes => BytesStayBehind(x => SizedBytes(4, x), (b, o) => ReadSized(4, b, o));
    case SCompactString => CompactBytesStayBehind();
    case SCompactBytes => CompactBytesStayBehind();
    case SBoolean =>
    case SInt(w) =>
    case SUInt(w) =>
    case SUnit =>
  }

  lemma LongIsStrict(decode: (bytes, int) -> Result<(Option<bytes>, int)>, ok: Value -> bool)
    requires forall v :: !ok(v) ==> v.VBytes? && !Short(v.content)
    requires forall buf, off ::
               decode(buf, off) == ReadCompactString(buf, off) || decode(buf, off) == ReadCompactBytes(buf, off)
    ensures Strict(BytesCodec(x => Ok(CompactBytes(x)), decode), ok)
  {
    var c := BytesCodec(x => Ok(CompactBytes(x)), decode);
    forall v: Value, buf: bytes, off: int | !ok(v) && c.encode(v).Ok? && At(buf, off, c.encode(v).value)
      ensures Strays(c.decode(buf, off), v)
    {
      ReadCompactLong(v.content.value, buf, off);
    }
  }

  lemma FieldsAreStrict(s: Schema)
    requires IsField(s)
    ensures Strict(CodecOf(s), v => CountsFit(s, v))
  {
    var ok := (v: Value) => CountsFit(s, v);
    match s
    case SCompactString => LongIsStrict((b, o) => ReadCompactString(b, o), ok);
    case SCompactBytes => LongIsStrict((b, o) => ReadCompactBytes(b, o), ok);
    case _ =>
  }

  // -------------------------------------------------------------- composition

  lemma PairIsStrict(c1: Codec<Value>, c2: Codec<Value>, ok1: Value -> bool, ok2: Value -> bool, v: Value, buf: bytes,
                     off: int)
    requires Exact(c1, ok1) && Exact(c2, ok2) && v.VPair? && !(ok1(v.first) && ok2(v.second))
    requires c1.encode(v.first).Ok? && c2.encode(v.second).Ok?
    requires At(buf, off, c1.encode(v.first).value + c2.encode(v.second).value)
    ensures Strays(ReadPair(c1, c2, buf, off), v)
  {
    AtConcat(buf, off, c1.encode(v.first).value, c2.encode(v.second).value);
    if !ok1(v.first) {
      assert Strays(c1.decode(buf, off), v.first);
    }
  }

  lemma {:induction false} ManyStayBehind(c: Codec<Value>, n: nat, buf: bytes, off: int)
    requires StaysBehind(c) && off < 0
    ensures var r := ReadMany(n, buf, off, c.decode); r.Ok? ==> r.value.1 < 0
  {
    if n > 0 && c.decode(buf, off).Ok? {
      ManyStayBehind(c, n - 1, buf, c.decode(buf, off).value.1);
    }
  }

  /** The first element that does not fit leads astray. */
  lemma {:induction false} ManyAreStrict(c: Codec<Value>, ok: Value -> bool, vs: seq<Value>, buf: bytes, off: int)
    requires Exact(c, ok) && !AllOk(ok, vs)
    requires ElementsBytes(vs, c.encode).Ok? && At(buf, off, ElementsBytes(vs, c.encode).value)
    ensures var r := ReadMany(|vs|, buf, off, c.decode); r.Ok? ==> r.value.0 != vs || r.value.1 < 0
  {
    var first := c.encode(vs[0]).value;
    var rest := ElementsBytes(vs[1..], c.encode).value;
    AtConcat(buf, off, first, rest);
    var one := c.decode(buf, off);
    if ok(vs[0]) {
      assert one == Ok((vs[0], off + |first|));
      ManyAreStrict(c, ok, vs[1..], buf, off + |first|);
    } else if one.Ok? && one.value.1 < 0 {
      ManyStayBehind(c, |vs| - 1, buf, one.value.1);
    }
  }

  lemma ArrayIsStrict(c: Codec<Value>, ok: Value -> bool, vs: seq<Value>, buf: bytes, off: int)
    requires Exact(c, ok) && !AllOk(ok, vs)
    requires ArrayBytes(Some(vs), c.encode).Ok? && At(buf, off, ArrayBytes(Some(vs), c.encode).value)
    ensures Strays(AsArray(ReadArray(buf, off, c.decode)), VArray(Some(vs)))
  {
    AtConcat(buf, off, IntBytes(4, |vs|), ElementsBytes(vs, c.encode).value);
    ReadIntAt(4, |vs|, buf, off);
    ManyAreStrict(c, ok, vs, buf, off + 4);
  }

  lemma CompactArrayIsStrict(c: Codec<Value>, ok: Value -> bool, vs: seq<Value>, buf: bytes, off: int)
    requires Exact(c, ok) && (!AllOk(ok, vs) || |vs| >= MAX_COUNT)
    requires CompactArrayBytes(Some(vs), c.encode).Ok? && At(buf, off, CompactArrayBytes(Some(vs), c.encode).value)
    ensures Strays(AsArray(ReadCompactArray(buf, off, c.decode)), VArray(Some(vs)))
  {
    var elements := ElementsBytes(vs, c.encode).value;
    if |vs| >= MAX_COUNT {
      ReadCompactMany(vs, c.encode, c.decode, buf, off, elements);
    } else {
      var next := CountAt(|vs| + 1, buf, off, elements);
      ManyAreStrict(c, ok, vs, buf, next);
      ReadElementsAfterCount(buf, off, |vs| + 1, next, c.decode);
    }
  }

  lemma ArrayCodecStrict(c: Codec<Value>, elementOk: Value -> bool, ok: Value -> bool)
    requires Exact(c, elementOk) && forall v :: !ok(v) ==> v.VArray? && !ArrayOk(elementOk)(v.elements)
    ensures Strict(ArrayCodec(c), ok) && StaysBehind(ArrayCodec(c))
  {
    var a := ArrayCodec(c);
    forall v: Value, buf: bytes, off: int | !ok(v) && a.encode(v).Ok? && At(buf, off, a.encode(v).value)
      ensures Strays(a.decode(buf, off), v)
    {
      ArrayIsStrict(c, elementOk, v.elements.value, buf, off);
    }
    forall buf: bytes, off: int | off < 0 ensures a.decode(buf, off).Err? {
      ArrayCodecReads(c, buf, off);
    }
  }

  lemma CompactArrayCodecStrict(c: Codec<Value>, elementOk: Value -> bool, ok: Value -> bool)
    requires Exact(c, elementOk) && forall v :: !ok(v) ==> v.VArray? && !CompactArrayOk(elementOk)(v.elements)
    ensures Strict(CompactArrayCodec(c), ok) && StaysBehind(CompactArrayCodec(c))
  {
    var a := CompactArrayCodec(c);
    forall v: Value, buf: bytes, off: int | !ok(v) && a.encode(v).Ok? && At(buf, off, a.encode(v).value)
      ensures Strays(a.decode(buf, off), v)
    {
      CompactArrayIsStrict(c, elementOk, v.elements.value, buf, off);
    }
    forall buf: bytes, off: int | off < 0 ensures a.decode(buf, off).Err? {
      CompactStaysBehind(buf, off);
      ArrayCodecReads(c, buf, off);
    }
  }

  lemma PairCodecStrict(c1: Codec<Value>, c2: Codec<Value>, ok1: Value -> bool, ok2: Value -> bool, ok: Value -> bool)
    requires Exact(c1, ok1) && Exact(c2, ok2)
    requires forall v :: !ok(v) ==> v.VPair? && !(ok1(v.first) && ok2(v.second))
    ensures Strict(PairCodec(c1, c2), ok) && StaysBehind(PairCodec(c1, c2))
  {
    var c := PairCodec(c1, c2);
    forall v: Value, buf: bytes, off: int | !ok(v) && c.encode(v).Ok? && At(buf, off, c.encode(v).value)
      ensures Strays(c.decode(buf, off), v)
    {
      PairIsStrict(c1, c2, ok1, ok2, v, buf, off);
    }
  }

  lemma {:induction false} EverySchemaIsExact(s: Schema)
    ensures Exact(CodecOf(s), v => CountsFit(s, v))
  {
    EverySchemaRoundTrips(s);
    var ok := (v: Value) => CountsFit(s, v);
    match s
    case SArray(e) =>
      EverySchemaIsExact(e);
      ArrayCodecStrict(CodecOf(e), v => CountsFit(e, v), ok);
    case SCompactArray(e) =>
      EverySchemaIsExact(e);
      CompactArrayCodecStrict(CodecOf(e), v => CountsFit(e, v), ok);
    case SPair(s1, s2) =>
      EverySchemaIsExact(s1);
      EverySchemaIsExact(s2);
      PairCodecStrict(CodecOf(s1), CodecOf(s2), v => CountsFit(s1, v), v => CountsFit(s2, v), ok);
    case _ =>
      FieldsAreStrict(s);
      FieldsStayBehind(s);
  }

  lemma ExactAt(c: Codec<Value>, ok: Value -> bool, v: Value, buf: bytes, off: int)
    requires Exact(c, ok) && c.encode(v).Ok? && At(buf, off, c.encode(v).value)
    ensures c.decode(buf, off) == Ok((v, off + |c.encode(v).value|)) <==> ok(v)
  {
  }

  /** Of every schema, exactly the values whose compact counts all fit in 31 bits come
      back from their encoding, at any offset and whatever surrounds it. */
  lemma SchemaRoundTripsIff(s: Schema, v: Value, buf: bytes, off: int)
    requires Encode(s, v).Ok? && At(buf, off, Encode(s, v).value)
    ensures Decode(s, buf, off) == Ok((v, off + |Encode(s, v).value|)) <==> CountsFit(s, v)
  {
    EverySchemaIsExact(s);
    ExactAt(CodecOf(s), x => CountsFit(s, x), v, buf, off);
  }
}
