/** The static codecs. Strings are their UTF-8 bytes, so a string and a byte array of
    the same format share one encoder; null is None. */
module BasicTypes {
  import opened Results
  import opened Bytes
  import opened Varint

  const NULL_STRING: bytes := [0xFF, 0xFF]
  const NULL_INT32: bytes := [0xFF, 0xFF, 0xFF, 0xFF]

  lemma NullMarkers()
    ensures FitsInt(2, -1) && NULL_STRING == IntBytes(2, -1)
    ensures FitsInt(4, -1) && NULL_INT32 == IntBytes(4, -1)
  {
  }

  // ---------------------------------------------------------------- booleans

  function BooleanBytes(v: bool): bytes {
    [if v then 1 else 0]
  }

  function ReadBoolean(buf: bytes, off: int): Result<(bool, int)> {
    var (v, next) :- ReadInt(1, buf, off);
    Ok((v != 0, next))
  }

  lemma ReadBooleanAt(v: bool, buf: bytes, off: int)
    requires At(buf, off, BooleanBytes(v))
    ensures ReadBoolean(buf, off) == Ok((v, off + 1))
  {
  }

  // ------------------------------------------- strings and bytes, fixed count

  /** A nullable string (`w` = 2) or byte array (`w` = 4). */
  function SizedBytes(w: Width, value: Option<bytes>): Result<bytes> {
    match value
    case None => PutInt(w, -1)
    case Some(s) =>
      var count :- PutInt(w, |s|);
      Ok(count + s)
  }

  function ReadSized(w: Width, buf: bytes, off: int): Result<(Option<bytes>, int)> {
    var (length, next) :- ReadInt(w, buf, off);
    if length < 0 then Ok((None, next))
    else Ok((Some(Text(buf, next, next + length)), next + length))
  }

  lemma SizedNull(w: Width)
    ensures FitsInt(w, -1) && SizedBytes(w, None) == Ok(IntBytes(w, -1))
    ensures w == 2 ==> IntBytes(w, -1) == NULL_STRING
    ensures w == 4 ==> IntBytes(w, -1) == NULL_INT32
  {
  }

  /** encodeString (`w` = 2) and encodeBytes (`w` = 4). */
  method EncodeSized(w: Width, value: Option<bytes>) returns (r: Result<bytes>)
    requires w == 2 || w == 4
    ensures r == SizedBytes(w, value)
  {
    if value == None {
      SizedNull(w);
      return Ok(if w == 2 then NULL_STRING else NULL_INT32);
    }
    var length := |value.value|;
    var buffer := new byte[w + length];
    var count := PutInt(w, length);
    if count.Err? {
      return Err(count.error);
    }
    Blit(buffer, count.value, 0);
    assert buffer[..w] == count.value;
    Blit(buffer, value.value, w);
    assert buffer[..] == count.value + value.value;
    r := Ok(buffer[..]);
  }

  lemma ReadSizedAt(w: Width, value: Option<bytes>, buf: bytes, off: int)
    requires SizedBytes(w, value).Ok? && At(buf, off, SizedBytes(w, value).value)
    ensures ReadSized(w, buf, off) == Ok((value, off + |SizedBytes(w, value).value|))
  {
    match value
    case None =>
      ReadIntAt(w, -1, buf, off);
    case Some(s) =>
      AtConcat(buf, off, IntBytes(w, |s|), s);
      ReadIntAt(w, |s|, buf, off);
      TextAt(buf, off + w, s);
  }

  // ----------------------------------------- strings and bytes, compact count

  function CompactBytes(value: Option<bytes>): bytes {
    match value
    case None => [0]
    case Some(s) => VarintBytes(|s| + 1) + s
  }

  function ReadCompactString(buf: bytes, off: int): Result<(Option<bytes>, int)> {
    var (length, next) :- ReadVarint(buf, off, 0, 0);
    if length == 0 then Ok((None, next))
    else Ok((Some(Text(buf, next, next + length - 1)), next + length - 1))
  }

  function ReadCompactBytes(buf: bytes, off: int): Result<(Option<bytes>, int)> {
    var (length, next) :- ReadVarint(buf, off, 0, 0);
    if length == 0 then Ok((None, next))
    else Ok((Some(Slice(buf, next, next + length - 1)), next + length - 1))
  }

  /** encodeCompactString and encodeCompactBytes. */
  method EncodeCompactBytes(value: Option<bytes>) returns (r: bytes)
    ensures r == CompactBytes(value)
  {
    if value == None {
      return [0];
    }
    var length := |value.value|;
    var encodedLength := length + 1;
    var sizeOfLength := SizeOfLength(encodedLength);
    var buffer := new byte[sizeOfLength + length];
    var idx := WriteLength(buffer, encodedLength, 0);
    Blit(buffer, value.value, idx);
    r := buffer[..];
  }

  method DecodeCompactString(buf: bytes, off: int) returns (r: Result<(Option<bytes>, int)>)
    ensures r == ReadCompactString(buf, off)
  {
    var count := ReadLength(buf, off);
    if count.Err? {
      return Err(count.error);
    }
    var (length, offset) := count.value;
    if length == 0 {
      return Ok((None, offset));
    }
    length := length - 1;
    r := Ok((Some(Text(buf, offset, offset + length)), offset + length));
  }

  method DecodeCompactBytes(buf: bytes, off: int) returns (r: Result<(Option<bytes>, int)>)
    ensures r == ReadCompactBytes(buf, off)
  {
    var count := ReadLength(buf, off);
    if count.Err? {
      return Err(count.error);
    }
    var (length, offset) := count.value;
    if length == 0 {
      return Ok((None, offset));
    }
    length := length - 1;
    r := Ok((Some(Slice(buf, offset, offset + length)), offset + length));
  }

  /** The count of a compact value fits in 31 bits. */
  predicate Short(value: Option<bytes>) {
    value.Some? ==> |value.value| < MAX_COUNT
  }

  lemma ReadCompactAt(value: Option<bytes>, buf: bytes, off: int)
    requires Short(value) && At(buf, off, CompactBytes(value))
    ensures ReadCompactString(buf, off) == Ok((value, off + |CompactBytes(value)|))
    ensures ReadCompactBytes(buf, off) == Ok((value, off + |CompactBytes(value)|))
  {
    if value.None? {
      ReadCompactNull(value, buf, off);
    } else {
      ReadCompactShort(value, buf, off);
    }
  }

  /** Both compact readers undo the encoder exactly for values below 2^31 - 1 bytes. */
  lemma CompactRoundTripsIff(value: Option<bytes>, buf: bytes, off: int)
    requires At(buf, off, CompactBytes(value))
    ensures ReadCompactString(buf, off) == Ok((value, off + |CompactBytes(value)|)) <==> Short(value)
    ensures ReadCompactBytes(buf, off) == Ok((value, off + |CompactBytes(value)|)) <==> Short(value)
  {
    if Short(value) {
      ReadCompactAt(value, buf, off);
    } else {
      ReadCompactLong(value.value, buf, off);
    }
  }

  lemma CountAt(n: nat, buf: bytes, off: int, rest: bytes) returns (next: int)
    requires n <= MAX_COUNT && At(buf, off, VarintBytes(n) + rest)
    ensures ReadVarint(buf, off, 0, 0) == Ok((n, next))
    ensures At(buf, next, rest) && next + |rest| == off + |VarintBytes(n) + rest|
  {
    AtConcat(buf, off, VarintBytes(n), rest);
    CountRoundTripsIff(n, buf, off);
    next := off + |VarintBytes(n)|;
  }

  lemma NullCountAt(buf: bytes, off: int)
    requires At(buf, off, [0])
    ensures ReadVarint(buf, off, 0, 0) == Ok((0, off + 1))
  {
    CountRoundTripsIff(0, buf, off);
  }

  lemma ReadCompactNull(value: Option<bytes>, buf: bytes, off: int)
    requires value.None? && At(buf, off, CompactBytes(value))
    ensures ReadCompactString(buf, off) == Ok((value, off + |CompactBytes(value)|))
    ensures ReadCompactBytes(buf, off) == Ok((value, off + |CompactBytes(value)|))
  {
    NullCountAt(buf, off);
  }

  lemma ReadCompactShort(value: Option<bytes>, buf: bytes, off: int)
    requires value.Some? && Short(value) && At(buf, off, CompactBytes(value))
    ensures ReadCompactString(buf, off) == Ok((value, off + |CompactBytes(value)|))
    ensures ReadCompactBytes(buf, off) == Ok((value, off + |CompactBytes(value)|))
  {
    var s := value.value;
    var next := CountAt(|s| + 1, buf, off, s);
    TextAt(buf, next, s);
    ReadAfterCount(buf, off, |s| + 1, next);
  }

  lemma ReadAfterCount(buf: bytes, off: int, length: int, next: int)
    requires ReadVarint(buf, off, 0, 0) == Ok((length, next)) && length != 0
    ensures ReadCompactString(buf, off) == Ok((Some(Text(buf, next, next + length - 1)), next + length - 1))
    ensures ReadCompactBytes(buf, off) == Ok((Some(Slice(buf, next, next + length - 1)), next + length - 1))
  {
  }

  /** A count is a 32-bit integer, so the reader stops short of a longer value's end. A
      slice to a negative end can still be the value, but leaves the offset there. */
  lemma ReadCompactLong(s: bytes, buf: bytes, off: int)
    requires |s| >= MAX_COUNT && At(buf, off, VarintBytes(|s| + 1) + s)
    ensures ReadCompactString(buf, off).Ok? ==> ReadCompactString(buf, off).value.0 != Some(s)
    ensures ReadCompactBytes(buf, off).Ok? ==>
              ReadCompactBytes(buf, off).value.0 != Some(s) || ReadCompactBytes(buf, off).value.1 < 0
  {
    AtConcat(buf, off, VarintBytes(|s| + 1), s);
    CountStopsEarly(|s| + 1, buf, off);
    var count := ReadVarint(buf, off, 0, 0);
    if count.Ok? && count.value.0 != 0 {
      ReadAfterCount(buf, off, count.value.0, count.value.1);
    }
  }

  lemma CountStopsEarly(n: nat, buf: bytes, off: int)
    requires n > MAX_COUNT && At(buf, off, VarintBytes(n))
    ensures var r := ReadVarint(buf, off, 0, 0);
            r.Ok? ==> r.value.1 <= off + |VarintBytes(n)| && r.value.0 < n
  {
    VarintEnds(n);
    StopsWithin(VarintBytes(n), buf, off, 0, 0);
    ReadVarintIs32Bit(buf, off, 0, 0);
  }

  // ------------------------------------------------------------------- arrays

  /** The encodings of the elements, one after another. */
  function ElementsBytes<T>(values: seq<T>, encode: T -> Result<bytes>): Result<bytes> {
    if values == [] then Ok([])
    else
      var first :- encode(values[0]);
      var rest :- ElementsBytes(values[1..], encode);
      Ok(first + rest)
  }

  function ArrayBytes<T>(values: Option<seq<T>>, encode: T -> Result<bytes>): Result<bytes> {
    match values
    case None => Ok(NULL_INT32)
    case Some(vs) =>
      var elements :- ElementsBytes(vs, encode);
      var count :- PutInt(4, |vs|);
      Ok(count + elements)
  }

  function CompactArrayBytes<T>(values: Option<seq<T>>, encode: T -> Result<bytes>): Result<bytes> {
    match values
    case None => Ok([0])
    case Some(vs) =>
      var elements :- ElementsBytes(vs, encode);
      Ok(VarintBytes(|vs| + 1) + elements)
  }

  function ReadMany<T>(n: nat, buf: bytes, off: int, decode: (bytes, int) -> Result<(T, int)>): Result<(seq<T>, int)> {
    if n == 0 then Ok(([], off))
    else
      var (first, next) :- decode(buf, off);
      var (rest, end) :- ReadMany(n - 1, buf, next, decode);
      Ok(([first] + rest, end))
  }

  function SomeOf<T>(r: Result<(seq<T>, int)>): Result<(Option<seq<T>>, int)> {
    var (vs, end) :- r;
    Ok((Some(vs), end))
  }

  function ReadArray<T>(buf: bytes, off: int, decode: (bytes, int) -> Result<(T, int)>): Result<(Option<seq<T>>, int)> {
    var (length, next) :- ReadInt(4, buf, off);
    if length < 0 then Ok((None, next)) else SomeOf(ReadMany(length, buf, next, decode))
  }

  /** A negative length (an overlong count read back as a negative 32-bit integer) runs
      no iteration of the loop. */
  function ReadCompactArray<T>(buf: bytes, off: int, decode: (bytes, int) -> Result<(T, int)>)
    : Result<(Option<seq<T>>, int)>
  {
    var (length, next) :- ReadVarint(buf, off, 0, 0);
    if length == 0 then Ok((None, next)) else SomeOf(ReadMany(Max(length - 1, 0), buf, next, decode))
  }

  /** Two fields, one after the other. */
  function Joined(first: Result<bytes>, second: Result<bytes>): Result<bytes> {
    var a :- first;
    var b :- second;
    Ok(a + b)
  }

  function Prefixed(chunk: bytes, r: Result<bytes>): Result<bytes> {
    var rest :- r;
    Ok(chunk + rest)
  }

  function Prepended<T>(vs: seq<T>, r: Result<(seq<T>, int)>): Result<(seq<T>, int)> {
    var (rest, end) :- r;
    Ok((vs + rest, end))
  }

  /** First pass over an array: encode every element and add up the sizes. */
  method EncodeElements<T>(values: seq<T>, encode: T -> Result<bytes>) returns (r: Result<seq<bytes>>, size: nat)
    ensures r.Err? ==> ElementsBytes(values, encode) == Err(r.error)
    ensures r.Ok? ==> ElementsBytes(values, encode) == Ok(Flatten(r.value)) && size == |Flatten(r.value)|
  {
    var encodedValues: seq<bytes> := [];
    size := 0;
    assert values[0..] == values;
    PrefixedNothing(ElementsBytes(values, encode));
    for i := 0 to |values|
      invariant size == |Flatten(encodedValues)|
      invariant ElementsBytes(values, encode) == Prefixed(Flatten(encodedValues), ElementsBytes(values[i..], encode))
    {
      assert values[i..][0] == values[i] && values[i..][1..] == values[i + 1..];
      var encoded := encode(values[i]);
      if encoded.Err? {
        return Err(encoded.error), size;
      }
      FlattenSnoc(encodedValues, encoded.value);
      PrefixedTwice(Flatten(encodedValues), encoded.value, ElementsBytes(values[i + 1..], encode));
      encodedValues := encodedValues + [encoded.value];
      size := size + |encoded.value|;
    }
    assert Flatten(encodedValues) + [] == Flatten(encodedValues);
    r := Ok(encodedValues);
  }

  lemma FlattenSnoc(chunks: seq<bytes>, chunk: bytes)
    ensures Flatten(chunks + [chunk]) == Flatten(chunks) + chunk
  {
    FlattenAppend(chunks, [chunk]);
    FlattenOne(chunk);
  }

  lemma PrefixedNothing(r: Result<bytes>)
    ensures Prefixed([], r) == r
  {
    if r.Ok? {
      assert [] + r.value == r.value;
    }
  }

  lemma PrefixedTwice(a: bytes, b: bytes, r: Result<bytes>)
    ensures Prefixed(a, Prefixed(b, r)) == Prefixed(a + b, r)
  {
    if r.Ok? {
      assert a + (b + r.value) == a + b + r.value;
    }
  }

  lemma FlattenPrefix(chunks: seq<bytes>, i: nat)
    requires i < |chunks|
    ensures Flatten(chunks[..i + 1]) == Flatten(chunks[..i]) + chunks[i]
    ensures |Flatten(chunks[..i + 1])| <= |Flatten(chunks)|
  {
    assert chunks[..i + 1] == chunks[..i] + [chunks[i]];
    FlattenSnoc(chunks[..i], chunks[i]);
    assert chunks == chunks[..i + 1] + chunks[i + 1..];
    FlattenAppend(chunks[..i + 1], chunks[i + 1..]);
  }

  /** Second pass: copy the encodings behind the count. */
  method CopyElements(buffer: array<byte>, encodedValues: seq<bytes>, start: nat)
    requires start + |Flatten(encodedValues)| == buffer.Length
    modifies buffer
    ensures buffer[..] == old(buffer[..start]) + Flatten(encodedValues)
  {
    var offset := start;
    ghost var before := buffer[..start];
    for i := 0 to |encodedValues|
      invariant offset == start + |Flatten(encodedValues[..i])| <= buffer.Length
      invariant buffer[..offset] == before + Flatten(encodedValues[..i])
    {
      FlattenPrefix(encodedValues, i);
      Blit(buffer, encodedValues[i], offset);
      offset := offset + |encodedValues[i]|;
    }
    assert encodedValues[..|encodedValues|] == encodedValues;
  }

  method EncodeArray<T>(values: Option<seq<T>>, encode: T -> Result<bytes>) returns (r: Result<bytes>)
    ensures r == ArrayBytes(values, encode)
  {
    if values.None? {
      return Ok(NULL_INT32);
    }
    var encoded, size := EncodeElements(values.value, encode);
    if encoded.Err? {
      return Err(encoded.error);
    }
    var buffer := new byte[4 + size];
    var count := PutInt(4, |values.value|);
    if count.Err? {
      return Err(count.error);
    }
    Blit(buffer, count.value, 0);
    assert buffer[..4] == count.value;
    CopyElements(buffer, encoded.value, 4);
    r := Ok(buffer[..]);
  }

  method EncodeCompactArray<T>(values: Option<seq<T>>, encode: T -> Result<bytes>) returns (r: Result<bytes>)
    ensures r == CompactArrayBytes(values, encode)
  {
    if values.None? {
      return Ok([0]);
    }
    var encodedLength := |values.value| + 1;
    var sizeOfLength := SizeOfLength(encodedLength);
    var encoded, size := EncodeElements(values.value, encode);
    if encoded.Err? {
      return Err(encoded.error);
    }
    var buffer := new byte[sizeOfLength + size];
    var idx := WriteLength(buffer, encodedLength, 0);
    assert buffer[..idx] == VarintBytes(encodedLength);
    CopyElements(buffer, encoded.value, idx);
    r := Ok(buffer[..]);
  }

  // The reading loops keep `all == Prepended(done, ReadMany(n, ...))`: what they have
  // collected, then what is left to read.

  lemma LoopStarts<T>(all: Result<(seq<T>, int)>)
    ensures all == Prepended([], all)
  {
    if all.Ok? {
      assert [] + all.value.0 == all.value.0;
    }
  }

  lemma LoopTurns<T>(all: Result<(seq<T>, int)>, done: seq<T>, n: nat, buf: bytes, off: int,
                     decode: (bytes, int) -> Result<(T, int)>)
    requires n > 0 && all == Prepended(done, ReadMany(n, buf, off, decode))
    ensures match decode(buf, off)
            case Err(error) => all == Err(error)
            case Ok((v, next)) => all == Prepended(done + [v], ReadMany(n - 1, buf, next, decode))
  {
    var element := decode(buf, off);
    if element.Ok? {
      var rest := ReadMany(n - 1, buf, element.value.1, decode);
      if rest.Ok? {
        Assoc(done, [element.value.0], rest.value.0);
      }
    }
  }

  lemma LoopEnds<T>(all: Result<(seq<T>, int)>, done: seq<T>, buf: bytes, off: int,
                    decode: (bytes, int) -> Result<(T, int)>)
    requires all == Prepended(done, ReadMany(0, buf, off, decode))
    ensures all == Ok((done, off))
  {
    assert done + [] == done;
  }

  /** The element loop of both array readers. */
  method DecodeElements<T>(length: int, buf: bytes, start: int, decode: (bytes, int) -> Result<(T, int)>)
    returns (r: Result<(seq<T>, int)>)
    ensures r == ReadMany(Max(length, 0), buf, start, decode)
  {
    var values: seq<T> := [];
    var offset := start;
    var i := 0;
    ghost var n: nat := Max(length, 0);
    ghost var all := ReadMany(n, buf, start, decode);
    LoopStarts(all);
    while i < length
      invariant 0 <= i <= n
      invariant all == Prepended(values, ReadMany(n - i, buf, offset, decode))
    {
      LoopTurns(all, values, n - i, buf, offset, decode);
      var element := decode(buf, offset);
      if element.Err? {
        return Err(element.error);
      }
      values := values + [element.value.0];
      offset := element.value.1;
      i := i + 1;
    }
    LoopEnds(all, values, buf, offset, decode);
    r := Ok((values, offset));
  }

  method DecodeArray<T>(buf: bytes, decode: (bytes, int) -> Result<(T, int)>, off: int)
    returns (r: Result<(Option<seq<T>>, int)>)
    ensures r == ReadArray(buf, off, decode)
  {
    var count := ReadInt(4, buf, off);
    if count.Err? {
      return Err(count.error);
    }
    var (length, offset) := count.value;
    if length < 0 {
      return Ok((None, offset));
    }
    var elements := DecodeElements(length, buf, offset, decode);
    r := SomeOf(elements);
  }

  method DecodeCompactArray<T>(buf: bytes, decode: (bytes, int) -> Result<(T, int)>, off: int)
    returns (r: Result<(Option<seq<T>>, int)>)
    ensures r == ReadCompactArray(buf, off, decode)
  {
    var count := ReadLength(buf, off);
    if count.Err? {
      return Err(count.error);
    }
    var (length, offset) := count.value;
    if length == 0 {
      return Ok((None, offset));
    }
    var elements := DecodeElements(length - 1, buf, offset, decode);
    r := SomeOf(elements);
  }

  // ------------------------------------------------- arrays of any self-delimiting codec

  /** Reading at the start of an encoding gives the value back and stops at its end,
      whatever surrounds it; on the values `ok` allows and the encoder accepts. */
  ghost predicate SelfDelimiting<T(!new)>(ok: T -> bool, encode: T -> Result<bytes>,
                                          decode: (bytes, int) -> Result<(T, int)>)
  {
    forall v: T, buf: bytes, off: int ::
      ok(v) && encode(v).Ok? && At(buf, off, encode(v).value) ==>
      decode(buf, off) == Ok((v, off + |encode(v).value|))
  }

  lemma SizedDelimits(w: Width)
    ensures SelfDelimiting(x => true, x => SizedBytes(w, x), (b, o) => ReadSized(w, b, o))
  {
    forall x: Option<bytes>, buf: bytes, off: int | SizedBytes(w, x).Ok? && At(buf, off, SizedBytes(w, x).value)
      ensures ReadSized(w, buf, off) == Ok((x, off + |SizedBytes(w, x).value|))
    {
      ReadSizedAt(w, x, buf, off);
    }
  }

  ghost predicate AllOk<T>(ok: T -> bool, values: seq<T>) {
    forall i :: 0 <= i < |values| ==> ok(values[i])
  }

  lemma {:induction false} ReadManyAt<T(!new)>(values: seq<T>, ok: T -> bool, encode: T -> Result<bytes>,
                              decode: (bytes, int) -> Result<(T, int)>, buf: bytes, off: int)
    requires SelfDelimiting(ok, encode, decode) && AllOk(ok, values)
    requires ElementsBytes(values, encode).Ok? && At(buf, off, ElementsBytes(values, encode).value)
    ensures ReadMany(|values|, buf, off, decode) == Ok((values, off + |ElementsBytes(values, encode).value|))
  {
    if values != [] {
      var first := encode(values[0]).value;
      var rest := ElementsBytes(values[1..], encode).value;
      AtConcat(buf, off, first, rest);
      assert ok(values[0]);
      ReadManyAt(values[1..], ok, encode, decode, buf, off + |first|);
      assert values == [values[0]] + values[1..];
    }
  }

  lemma ReadArrayAt<T(!new)>(values: Option<seq<T>>, ok: T -> bool, encode: T -> Result<bytes>,
                       decode: (bytes, int) -> Result<(T, int)>, buf: bytes, off: int)
    requires SelfDelimiting(ok, encode, decode) && (values.Some? ==> AllOk(ok, values.value))
    requires ArrayBytes(values, encode).Ok? && At(buf, off, ArrayBytes(values, encode).value)
    ensures ReadArray(buf, off, decode) == Ok((values, off + |ArrayBytes(values, encode).value|))
  {
    match values
    case None =>
      NullMarkers();
      ReadIntAt(4, -1, buf, off);
    case Some(vs) =>
      var elements := ElementsBytes(vs, encode).value;
      AtConcat(buf, off, IntBytes(4, |vs|), elements);
      ReadIntAt(4, |vs|, buf, off);
      ReadManyAt(vs, ok, encode, decode, buf, off + 4);
  }

  lemma ReadCompactArrayAt<T(!new)>(values: Option<seq<T>>, ok: T -> bool, encode: T -> Result<bytes>,
                              decode: (bytes, int) -> Result<(T, int)>, buf: bytes, off: int)
    requires SelfDelimiting(ok, encode, decode)
    requires values.Some? ==> AllOk(ok, values.value) && |values.value| < MAX_COUNT
    requires CompactArrayBytes(values, encode).Ok? && At(buf, off, CompactArrayBytes(values, encode).value)
    ensures ReadCompactArray(buf, off, decode) == Ok((values, off + |CompactArrayBytes(values, encode).value|))
  {
    match values
    case None => NullCountAt(buf, off);
    case Some(vs) => ReadCompactSome(vs, ok, encode, decode, buf, off, ElementsBytes(vs, encode).value);
  }

  lemma ReadCompactSome<T(!new)>(vs: seq<T>, ok: T -> bool, encode: T -> Result<bytes>,
                                 decode: (bytes, int) -> Result<(T, int)>, buf: bytes, off: int, elements: bytes)
    requires SelfDelimiting(ok, encode, decode) && AllOk(ok, vs) && |vs| < MAX_COUNT
    requires ElementsBytes(vs, encode) == Ok(elements) && At(buf, off, VarintBytes(|vs| + 1) + elements)
    ensures ReadCompactArray(buf, off, decode) == Ok((Some(vs), off + |VarintBytes(|vs| + 1) + elements|))
  {
    var next := CountAt(|vs| + 1, buf, off, elements);
    ReadManyAt(vs, ok, encode, decode, buf, next);
    ReadElementsAfterCount(buf, off, |vs| + 1, next, decode);
  }

  /** A compact array reads back exactly if it has fewer than 2^31 - 1 elements: the count
      of a longer one is no 32-bit integer. */
  lemma CompactArrayRoundTripsIff<T(!new)>(vs: seq<T>, ok: T -> bool, encode: T -> Result<bytes>,
                                           decode: (bytes, int) -> Result<(T, int)>, buf: bytes, off: int)
    requires SelfDelimiting(ok, encode, decode) && AllOk(ok, vs)
    requires CompactArrayBytes(Some(vs), encode).Ok? && At(buf, off, CompactArrayBytes(Some(vs), encode).value)
    ensures ReadCompactArray(buf, off, decode) == Ok((Some(vs), off + |CompactArrayBytes(Some(vs), encode).value|))
            <==> |vs| < MAX_COUNT
  {
    var elements := ElementsBytes(vs, encode).value;
    if |vs| < MAX_COUNT {
      ReadCompactSome(vs, ok, encode, decode, buf, off, elements);
    } else {
      ReadCompactMany(vs, encode, decode, buf, off, elements);
    }
  }

  lemma ReadCompactMany<T>(vs: seq<T>, encode: T -> Result<bytes>, decode: (bytes, int) -> Result<(T, int)>,
                           buf: bytes, off: int, elements: bytes)
    requires |vs| >= MAX_COUNT && At(buf, off, VarintBytes(|vs| + 1) + elements)
    ensures ReadCompactArray(buf, off, decode).Ok? && ReadCompactArray(buf, off, decode).value.0.Some? ==>
              |ReadCompactArray(buf, off, decode).value.0.value| < |vs|
  {
    AtConcat(buf, off, VarintBytes(|vs| + 1), elements);
    CountStopsEarly(|vs| + 1, buf, off);
    var count := ReadVarint(buf, off, 0, 0);
    if count.Ok? && count.value.0 != 0 {
      ReadElementsAfterCount(buf, off, count.value.0, count.value.1, decode);
      ReadManyLength(Max(count.value.0 - 1, 0), buf, count.value.1, decode);
    }
  }

  lemma {:induction false} ReadManyLength<T>(n: nat, buf: bytes, off: int, decode: (bytes, int) -> Result<(T, int)>)
    ensures var r := ReadMany(n, buf, off, decode); r.Ok? ==> |r.value.0| == n
  {
    if n > 0 && decode(buf, off).Ok? {
      ReadManyLength(n - 1, buf, decode(buf, off).value.1, decode);
    }
  }

  lemma ReadElementsAfterCount<T>(buf: bytes, off: int, length: int, next: int,
                                  decode: (bytes, int) -> Result<(T, int)>)
    requires ReadVarint(buf, off, 0, 0) == Ok((length, next)) && length != 0
    ensures ReadCompactArray(buf, off, decode) == SomeOf(ReadMany(Max(length - 1, 0), buf, next, decode))
  {
  }

  /** Both array codecs turn a self-delimiting element codec into a self-delimiting
      codec, so arrays of arrays to any depth read back, null apart from empty. */
  lemma ArraysLift<T(!new)>(ok: T -> bool, encode: T -> Result<bytes>, decode: (bytes, int) -> Result<(T, int)>,
                            arrayOk: Option<seq<T>> -> bool)
    requires SelfDelimiting(ok, encode, decode)
    requires forall vs :: arrayOk(vs) ==> vs.Some? ==> AllOk(ok, vs.value)
    ensures SelfDelimiting(arrayOk, vs => ArrayBytes(vs, encode), (b, o) => ReadArray(b, o, decode))
  {
    forall vs: Option<seq<T>>, buf: bytes, off: int
      | arrayOk(vs) && ArrayBytes(vs, encode).Ok? && At(buf, off, ArrayBytes(vs, encode).value)
      ensures ReadArray(buf, off, decode) == Ok((vs, off + |ArrayBytes(vs, encode).value|))
    {
      ReadArrayAt(vs, ok, encode, decode, buf, off);
    }
  }

  lemma CompactArraysLift<T(!new)>(ok: T -> bool, encode: T -> Result<bytes>, decode: (bytes, int) -> Result<(T, int)>,
                                   compactOk: Option<seq<T>> -> bool)
    requires SelfDelimiting(ok, encode, decode)
    requires forall vs :: compactOk(vs) ==> vs.Some? ==> AllOk(ok, vs.value) && |vs.value| < MAX_COUNT
    ensures SelfDelimiting(compactOk, vs => CompactArrayBytes(vs, encode), (b, o) => ReadCompactArray(b, o, decode))
  {
    forall vs: Option<seq<T>>, buf: bytes, off: int
      | compactOk(vs) && CompactArrayBytes(vs, encode).Ok? && At(buf, off, CompactArrayBytes(vs, encode).value)
      ensures ReadCompactArray(buf, off, decode) == Ok((vs, off + |CompactArrayBytes(vs, encode).value|))
    {
      ReadCompactArrayAt(vs, ok, encode, decode, buf, off);
    }
  }
}
