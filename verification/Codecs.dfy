/** Field formats as values, and the ways to put formats together. */
module Codecs {
  import opened Results
  import opened Bytes
  import opened BasicTypes

  /** The bytes of a value, and the value at an offset with the offset behind it. */
  datatype Codec<!T> = Codec(encode: T -> Result<bytes>, decode: (bytes, int) -> Result<(T, int)>)

  /** Values `ok` allows and the encoder accepts come back from their encoding, at any
      offset and whatever surrounds it, with the reader at the end of the encoding. */
  ghost predicate Sound<T(!new)>(c: Codec<T>, ok: T -> bool) {
    SelfDelimiting(ok, c.encode, c.decode)
  }

  /** All values the encoder accepts. */
  ghost function Any<T>(): T -> bool {
    x => true
  }

  // --------------------------------------------------------------- one field

  function Int(w: Width): Codec<int> {
    Codec(n => PutInt(w, n), (b, o) => ReadInt(w, b, o))
  }

  function Boolean(): Codec<bool> {
    Codec(v => Ok(BooleanBytes(v)), (b, o) => ReadBoolean(b, o))
  }

  function Nullable(): Codec<Option<bytes>> {
    Codec(x => SizedBytes(2, x), (b, o) => ReadSized(2, b, o))
  }

  /** A string that is never null: a negative length moves the offset back. */
  function ReadText(buf: bytes, off: int): Result<(bytes, int)> {
    var (length, next) :- ReadInt(2, buf, off);
    Ok((Text(buf, next, next + length), next + length))
  }

  function PlainText(): Codec<bytes> {
    Codec(s => SizedBytes(2, Some(s)), (b, o) => ReadText(b, o))
  }

  lemma IntSound(w: Width)
    ensures Sound(Int(w), Any())
  {
    var c := Int(w);
    forall n: int, buf: bytes, off: int | c.encode(n).Ok? && At(buf, off, c.encode(n).value)
      ensures c.decode(buf, off) == Ok((n, off + |c.encode(n).value|))
    {
      ReadIntAt(w, n, buf, off);
    }
  }

  lemma BooleanSound()
    ensures Sound(Boolean(), Any())
  {
  }

  lemma NullableSound()
    ensures Sound(Nullable(), Any())
  {
    forall x: Option<bytes>, buf: bytes, off: int | SizedBytes(2, x).Ok? && At(buf, off, SizedBytes(2, x).value)
      ensures ReadSized(2, buf, off) == Ok((x, off + |SizedBytes(2, x).value|))
    {
      ReadSizedAt(2, x, buf, off);
    }
  }

  lemma ReadTextAt(s: bytes, buf: bytes, off: int)
    requires SizedBytes(2, Some(s)).Ok? && At(buf, off, SizedBytes(2, Some(s)).value)
    ensures ReadText(buf, off) == Ok((s, off + |SizedBytes(2, Some(s)).value|))
  {
    AtConcat(buf, off, IntBytes(2, |s|), s);
    ReadIntAt(2, |s|, buf, off);
    TextAt(buf, off + 2, s);
  }

  lemma TextSound()
    ensures Sound(PlainText(), Any())
  {
    var c := PlainText();
    forall s: bytes, buf: bytes, off: int | c.encode(s).Ok? && At(buf, off, c.encode(s).value)
      ensures c.decode(buf, off) == Ok((s, off + |c.encode(s).value|))
    {
      ReadTextAt(s, buf, off);
    }
  }

  // ------------------------------------------------------------- composition

  /** One format after another. */
  function Both<A, B>(a: Codec<A>, b: Codec<B>): Codec<(A, B)> {
    Codec((x: (A, B)) => Joined(a.encode(x.0), b.encode(x.1)), (buf, o) => ReadBoth(a, b, buf, o))
  }

  function ReadBoth<A, B>(a: Codec<A>, b: Codec<B>, buf: bytes, off: int): Result<((A, B), int)> {
    var (first, middle) :- a.decode(buf, off);
    var (second, next) :- b.decode(buf, middle);
    Ok(((first, second), next))
  }

  lemma BothAt<A(!new), B(!new)>(a: Codec<A>, b: Codec<B>, okA: A -> bool, okB: B -> bool, x: (A, B),
                                 buf: bytes, off: int)
    requires Sound(a, okA) && Sound(b, okB) && okA(x.0) && okB(x.1)
    requires a.encode(x.0).Ok? && b.encode(x.1).Ok? && At(buf, off, a.encode(x.0).value + b.encode(x.1).value)
    ensures ReadBoth(a, b, buf, off) == Ok((x, off + |a.encode(x.0).value + b.encode(x.1).value|))
  {
    AtConcat(buf, off, a.encode(x.0).value, b.encode(x.1).value);
  }

  lemma BothSound<A(!new), B(!new)>(a: Codec<A>, b: Codec<B>)
    requires Sound(a, Any()) && Sound(b, Any())
    ensures Sound(Both(a, b), Any())
  {
    var c := Both(a, b);
    forall x: (A, B), buf: bytes, off: int | c.encode(x).Ok? && At(buf, off, c.encode(x).value)
      ensures c.decode(buf, off) == Ok((x, off + |c.encode(x).value|))
    {
      BothAt(a, b, Any(), Any(), x, buf, off);
    }
  }

  /** The same bytes for another type: `from` takes it apart, `to` puts it together. */
  function Mapped<A, B>(c: Codec<A>, to: A -> B, from: B -> A): Codec<B> {
    Codec((x: B) => c.encode(from(x)), (b, o) => ReadMapped(c, to, b, o))
  }

  function ReadMapped<A, B>(c: Codec<A>, to: A -> B, buf: bytes, off: int): Result<(B, int)> {
    var (x, next) :- c.decode(buf, off);
    Ok((to(x), next))
  }

  lemma MappedSound<A(!new), B(!new)>(c: Codec<A>, to: A -> B, from: B -> A)
    requires Sound(c, Any()) && forall x :: to(from(x)) == x
    ensures Sound(Mapped(c, to, from), Any())
  {
  }

  /** An array that is never null: a negative length reads no element. */
  function ListOf<T>(c: Codec<T>): Codec<seq<T>> {
    Codec((vs: seq<T>) => ArrayBytes(Some(vs), c.encode), (b, o) => ReadList(b, o, c.decode))
  }

  function ReadList<T>(buf: bytes, off: int, decode: (bytes, int) -> Result<(T, int)>): Result<(seq<T>, int)> {
    var (length, next) :- ReadInt(4, buf, off);
    ReadMany(Max(length, 0), buf, next, decode)
  }

  lemma ReadListAt<T(!new)>(c: Codec<T>, values: seq<T>, buf: bytes, off: int)
    requires Sound(c, Any()) && ArrayBytes(Some(values), c.encode).Ok?
    requires At(buf, off, ArrayBytes(Some(values), c.encode).value)
    ensures ReadList(buf, off, c.decode) == Ok((values, off + |ArrayBytes(Some(values), c.encode).value|))
  {
    var elements := ElementsBytes(values, c.encode).value;
    AtConcat(buf, off, IntBytes(4, |values|), elements);
    ReadIntAt(4, |values|, buf, off);
    ReadManyAt(values, Any(), c.encode, c.decode, buf, off + 4);
  }

  lemma ListSound<T(!new)>(c: Codec<T>)
    requires Sound(c, Any())
    ensures Sound(ListOf(c), Any())
  {
    var l := ListOf(c);
    forall vs: seq<T>, buf: bytes, off: int | l.encode(vs).Ok? && At(buf, off, l.encode(vs).value)
      ensures l.decode(buf, off) == Ok((vs, off + |l.encode(vs).value|))
    {
      ReadListAt(c, vs, buf, off);
    }
  }
}
