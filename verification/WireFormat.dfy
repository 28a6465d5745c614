/** What the codecs put on the wire, said once more without them: which values of a schema
    can be encoded, and the bytes of each. */
module WireFormat {
  import opened Results
  import opened Bytes
  import opened Varint
  import opened BasicTypes
  import opened Codecs
  import opened Streaming

  /** Half the range of a field. */
  function Half(w: Width): int {
    match w as int
    case 1 => 0x80
    case 2 => 0x8000
    case 4 => 0x8000_0000
    case _ => 0x8000_0000_0000_0000
  }

  /** Values an encoder accepts. Compact ones have no limit. */
  predicate Fits(s: Schema, v: Value)
    decreases s, 0
  {
    match s
    case SBoolean => v.VBoolean?
    case SInt(w) => v.VInt? && -Half(w) <= v.n < Half(w)
    case SUInt(w) => v.VInt? && 0 <= v.n < 2 * Half(w)
    case SString => v.VBytes? && (v.content.Some? ==> |v.content.value| <= 0x7FFF)
    case SBytes => v.VBytes? && (v.content.Some? ==> |v.content.value| <= 0x7FFF_FFFF)
    case SCompactString => v.VBytes?
    case SCompactBytes => v.VBytes?
    case SArray(e) =>
      v.VArray? && (v.elements.Some? ==> |v.elements.value| <= 0x7FFF_FFFF && AllFit(e, v.elements.value))
    case SCompactArray(e) => v.VArray? && (v.elements.Some? ==> AllFit(e, v.elements.value))
    case SPair(s1, s2) => v.VPair? && Fits(s1, v.first) && Fits(s2, v.second)
    case SUnit => v.VUnit?
  }

  predicate AllFit(e: Schema, vs: seq<Value>)
    decreases e, |vs| + 1
  {
    vs == [] || (Fits(e, vs[0]) && AllFit(e, vs[1..]))
  }

  /** Null is the count -1, or 0 where counts are compact; a count stands in front of
      contents and elements, a compact one is higher by one. */
  function Wire(s: Schema, v: Value): bytes
    requires Fits(s, v)
    decreases s, 0
  {
    match s
    case SBoolean => [if v.flag then 1 else 0]
    case SInt(w) => IntBytes(w, v.n)
    case SUInt(w) => IntBytes(w, v.n)
    case SString => if v.content.None? then [255, 255] else IntBytes(2, |v.content.value|) + v.content.value
    case SBytes => if v.content.None? then [255, 255, 255, 255] else IntBytes(4, |v.content.value|) + v.content.value
    case SCompactString => if v.content.None? then [0] else VarintBytes(|v.content.value| + 1) + v.content.value
    case SCompactBytes => if v.content.None? then [0] else VarintBytes(|v.content.value| + 1) + v.content.value
    case SArray(e) =>
      if v.elements.None? then [255, 255, 255, 255]
      else IntBytes(4, |v.elements.value|) + WireAll(e, v.elements.value)
    case SCompactArray(e) =>
      if v.elements.None? then [0] else VarintBytes(|v.elements.value| + 1) + WireAll(e, v.elements.value)
    case SPair(s1, s2) => Wire(s1, v.first) + Wire(s2, v.second)
    case SUnit => []
  }

  function WireAll(e: Schema, vs: seq<Value>): bytes
    requires AllFit(e, vs)
    decreases e, |vs| + 1
  {
    if vs == [] then [] else Wire(e, vs[0]) + WireAll(e, vs[1..])
  }

  /** The encoding is this. */
  ghost predicate Puts(r: Result<bytes>, fits: bool, wire: bytes) {
    (r.Ok? <==> fits) && (fits ==> r == Ok(wire))
  }

  lemma IntsPut(w: Width, n: int)
    ensures PutInt(w, n) == (if -Half(w) <= n < Half(w) then Ok(IntBytes(w, n)) else Err(RangeError))
    ensures PutUInt(w, n) == (if 0 <= n < 2 * Half(w) then Ok(IntBytes(w, n)) else Err(RangeError))
  {
    Pow256Values();
  }

  lemma SizedPut(w: Width, x: Option<bytes>)
    requires w == 2 || w == 4
    ensures var fits := x.Some? ==> |x.value| < Half(w);
            Puts(SizedBytes(w, x), fits,
                 if x.Some? then IntBytes(w, |x.value|) + x.value
                 else if w == 2 then [255, 255] else [255, 255, 255, 255])
  {
    SizedNull(w);
    if x.Some? {
      IntsPut(w, |x.value|);
    }
  }

  lemma CountPut(n: nat)
    ensures PutInt(4, n) == if n <= 0x7FFF_FFFF then Ok(IntBytes(4, n)) else Err(RangeError)
  {
    IntsPut(4, n);
  }

  lemma ArrayPut(vs: seq<Value>, encode: Value -> Result<bytes>, elements: Result<bytes>, count: Result<bytes>)
    requires elements == ElementsBytes(vs, encode) && count == PutInt(4, |vs|)
    ensures ArrayBytes(Some(vs), encode)
         == if elements.Err? then elements else if count.Err? then count else Ok(count.value + elements.value)
    ensures CompactArrayBytes(Some(vs), encode)
         == if elements.Err? then elements else Ok(VarintBytes(|vs| + 1) + elements.value)
  {
  }

  lemma {:induction false} ElementsPut(e: Schema, vs: seq<Value>)
    ensures Puts(ElementsBytes(vs, CodecOf(e).encode), AllFit(e, vs), if AllFit(e, vs) then WireAll(e, vs) else [])
    decreases e, |vs| + 1
  {
    if vs != [] {
      EncodesAs(e, vs[0]);
      ElementsPut(e, vs[1..]);
    }
  }

  /** Fields of fixed width, strings and bytes. */
  lemma FieldEncodesAs(s: Schema, v: Value)
    requires !s.SArray? && !s.SCompactArray? && !s.SPair?
    ensures Puts(Encode(s, v), Fits(s, v), if Fits(s, v) then Wire(s, v) else [])
  {
    if v.VInt? {
      if s.SInt? || s.SUInt? {
        IntsPut(s.w, v.n);
      }
    } else if v.VBytes? {
      SizedPut(2, v.content);
      SizedPut(4, v.content);
    }
  }

  lemma EncodesElements(e: Schema, vs: seq<Value>) returns (sized: Result<bytes>, compact: Result<bytes>)
    ensures sized == Encode(SArray(e), VArray(Some(vs))) == ArrayBytes(Some(vs), CodecOf(e).encode)
    ensures compact == Encode(SCompactArray(e), VArray(Some(vs))) == CompactArrayBytes(Some(vs), CodecOf(e).encode)
  {
    sized := Encode(SArray(e), VArray(Some(vs)));
    compact := Encode(SCompactArray(e), VArray(Some(vs)));
  }

  lemma ArrayWire(s: Schema, v: Value, vs: seq<Value>)
    requires s.SArray? && v == VArray(Some(vs))
    ensures Fits(s, v) <==> AllFit(s.element, vs) && |vs| <= 0x7FFF_FFFF
    ensures Fits(s, v) ==> Wire(s, v) == IntBytes(4, |vs|) + WireAll(s.element, vs)
  {
  }

  lemma CompactArrayWire(s: Schema, v: Value, vs: seq<Value>)
    requires s.SCompactArray? && v == VArray(Some(vs))
    ensures Fits(s, v) <==> AllFit(s.element, vs)
    ensures Fits(s, v) ==> Wire(s, v) == VarintBytes(|vs| + 1) + WireAll(s.element, vs)
  {
  }

  lemma ArrayEncodesAs(e: Schema, vs: seq<Value>, elements: Result<bytes>)
    requires elements == ElementsBytes(vs, CodecOf(e).encode)
    requires Puts(elements, AllFit(e, vs), if AllFit(e, vs) then WireAll(e, vs) else [])
    ensures var s, v := SArray(e), VArray(Some(vs));
            Puts(Encode(s, v), Fits(s, v), if Fits(s, v) then Wire(s, v) else [])
    ensures var s, v := SCompactArray(e), VArray(Some(vs));
            Puts(Encode(s, v), Fits(s, v), if Fits(s, v) then Wire(s, v) else [])
  {
    CountPut(|vs|);
    ArrayWire(SArray(e), VArray(Some(vs)), vs);
    CompactArrayWire(SCompactArray(e), VArray(Some(vs)), vs);
    var sized, compact := EncodesElements(e, vs);
    ArrayPut(vs, CodecOf(e).encode, elements, PutInt(4, |vs|));
  }

  /** What no encoder writes but the readers take: any negative count is null, a negative
      compact count is empty and moves the offset back - for bytes it may reach around to the
      back of the buffer - and contents that end behind the buffer are cut off there. */
  lemma OddCountsAreRead(w: Width, buf: bytes, off: int, n: int, next: int,
                         decode: (bytes, int) -> Result<(Value, int)>)
    requires n < 0
    ensures ReadInt(w, buf, off) == Ok((n, next)) ==> ReadSized(w, buf, off) == Ok((None, next))
    ensures ReadInt(4, buf, off) == Ok((n, next)) ==> ReadArray(buf, off, decode) == Ok((None, next))
    ensures ReadVarint(buf, off, 0, 0) == Ok((n, next)) ==>
              ReadCompactArray(buf, off, decode) == Ok((Some([]), next))
              && ReadCompactString(buf, off) == Ok((Some([]), next + n - 1))
    ensures ReadVarint(buf, off, 0, 0) == Ok((n, next)) && 0 <= next <= |buf| ==>
              var end := next + n - 1;
              ReadCompactBytes(buf, off)
              == Ok((Some(if end < 0 && next < |buf| + end then buf[next..|buf| + end] else []), end))
  {
  }

  lemma CutContentsAreRead(w: Width, buf: bytes, off: int, n: int, next: int)
    requires 0 <= next <= |buf| && n > |buf| - next
    ensures ReadInt(w, buf, off) == Ok((n, next)) ==> ReadSized(w, buf, off) == Ok((Some(buf[next..]), next + n))
    ensures ReadVarint(buf, off, 0, 0) == Ok((n + 1, next)) ==>
              ReadCompactString(buf, off) == ReadCompactBytes(buf, off) == Ok((Some(buf[next..]), next + n))
  {
    assert buf[next..|buf|] == buf[next..];
    if next == |buf| {
      assert buf[next..] == [];
    }
  }

  /** Every schema accepts exactly the values that fit, and writes exactly these bytes. */
  lemma {:induction false} EncodesAs(s: Schema, v: Value)
    ensures Encode(s, v).Ok? <==> Fits(s, v)
    ensures Fits(s, v) ==> Encode(s, v) == Ok(Wire(s, v))
    decreases s, 0
  {
    match s
    case SArray(e) =>
      if v.VArray? && v.elements.Some? {
        ElementsPut(e, v.elements.value);
        ArrayEncodesAs(e, v.elements.value, ElementsBytes(v.elements.value, CodecOf(e).encode));
      }
    case SCompactArray(e) =>
      if v.VArray? && v.elements.Some? {
        ElementsPut(e, v.elements.value);
        ArrayEncodesAs(e, v.elements.value, ElementsBytes(v.elements.value, CodecOf(e).encode));
      }
    case SPair(s1, s2) =>
      if v.VPair? {
        EncodesAs(s1, v.first);
        EncodesAs(s2, v.second);
      }
    case _ => FieldEncodesAs(s, v);
  }
}
