/** The streaming request header and the request built behind it. */
module Requests {
  import opened Results
  import opened Bytes
  import opened BasicTypes
  import opened Streaming
  import opened Framing
  import H = Headers

  /** What a streaming header carries. */
  datatype Fields = Fields(apiKey: int, apiVersion: int, correlationId: int, clientId: Option<bytes>, tag: int)

  /** The bytes of the streaming header: a tag field follows from version 2 on. */
  function StreamHeaderBytes(h: Fields): Result<bytes> {
    var fixed :- H.FixedPart(h.apiKey, h.apiVersion, h.correlationId);
    var client :- SizedBytes(2, h.clientId);
    var tagField :- if h.apiVersion >= 2 then PutUInt(2, h.tag) else Ok([]);
    Ok(fixed + client + tagField)
  }

  function ReadTag(apiVersion: int, tag: int, buf: bytes, off: int): Result<(int, int)> {
    if apiVersion >= 2 then ReadUInt(2, buf, off) else Ok((tag, off))
  }

  /** Reading a header into an object that has `tag` from before. */
  function ReadStreamHeader(buf: bytes, off: int, tag: int): Result<(Fields, int)> {
    var ((apiKey, apiVersion, correlationId), o1) :- H.ReadFixedPart(buf, off);
    var (clientId, o2) :- ReadSized(2, buf, o1);
    var (newTag, o3) :- ReadTag(apiVersion, tag, buf, o2);
    Ok((Fields(apiKey, apiVersion, correlationId, clientId, newTag), o3))
  }

  class RequestHeader {
    var apiKey: int
    var apiVersion: int
    var correlationId: int
    var clientId: Option<bytes>
    var tag: int

    constructor (apiKey: int, apiVersion: int, correlationId: int, clientId: Option<bytes>)
      ensures Value() == Fields(apiKey, apiVersion, correlationId, clientId, 0)
    {
      this.apiKey := apiKey;
      this.apiVersion := apiVersion;
      this.correlationId := correlationId;
      this.clientId := clientId;
      tag := 0;
    }

    ghost function Value(): Fields
      reads this
    {
      Fields(apiKey, apiVersion, correlationId, clientId, tag)
    }

    method Encode(enc: Encoder) returns (r: Result<()>)
      requires enc.Valid()
      modifies enc
      ensures enc.Appended(old(enc.Contents()), StreamHeaderBytes(Value()), r)
    {
      ghost var before := enc.Contents();
      r := EncodeFixed(enc);
      if r.Err? {
        return;
      }
      ghost var fixed := H.FixedPart(apiKey, apiVersion, correlationId).value;
      r := enc.Write(SString, VBytes(clientId));
      if r.Err? {
        return;
      }
      ghost var client := SizedBytes(2, clientId).value;
      Assoc(before, fixed, client);
      if apiVersion >= 2 {
        r := enc.Write(SUInt(2), VInt(tag));
        if r.Ok? {
          Assoc(before, fixed + client, IntBytes(2, tag));
        }
      } else {
        assert fixed + client + [] == fixed + client;
      }
    }

    method EncodeFixed(enc: Encoder) returns (r: Result<()>)
      requires enc.Valid()
      modifies enc
      ensures enc.Appended(old(enc.Contents()), H.FixedPart(apiKey, apiVersion, correlationId), r)
    {
      r := enc.Write(SInt(2), VInt(apiKey));
      if r.Err? {
        return;
      }
      r := enc.Write(SInt(2), VInt(apiVersion));
      if r.Err? {
        return;
      }
      r := enc.Write(SInt(4), VInt(correlationId));
    }

    /** Reads every field back; the tag only from version 2 on. */
    method Decode(decoder: Decoder) returns (r: Result<()>)
      modifies this, decoder
      ensures var spec := ReadStreamHeader(decoder.buffer, old(decoder.offset), old(tag));
              r.Ok? == spec.Ok? && (r.Ok? ==> Value() == spec.value.0 && decoder.offset == spec.value.1)
    {
      r := DecodeFixed(decoder);
      if r.Err? {
        return;
      }
      var client := decoder.Take(ReadSized(2, decoder.buffer, decoder.offset));
      if client.Err? {
        return Err(client.error);
      }
      clientId := client.value;
      if apiVersion >= 2 {
        var tagField := decoder.Take(ReadUInt(2, decoder.buffer, decoder.offset));
        if tagField.Err? {
          return Err(tagField.error);
        }
        tag := tagField.value;
      }
    }

    method DecodeFixed(decoder: Decoder) returns (r: Result<()>)
      modifies this`apiKey, this`apiVersion, this`correlationId, decoder
      ensures var spec := H.ReadFixedPart(decoder.buffer, old(decoder.offset));
              r.Ok? == spec.Ok?
              && (r.Ok? ==> (apiKey, apiVersion, correlationId) == spec.value.0 && decoder.offset == spec.value.1)
    {
      var key := decoder.Take(ReadInt(2, decoder.buffer, decoder.offset));
      if key.Err? {
        return Err(key.error);
      }
      apiKey := key.value;
      var version := decoder.Take(ReadInt(2, decoder.buffer, decoder.offset));
      if version.Err? {
        return Err(version.error);
      }
      apiVersion := version.value;
      var id := decoder.Take(ReadInt(4, decoder.buffer, decoder.offset));
      if id.Err? {
        return Err(id.error);
      }
      correlationId := id.value;
      r := Ok(());
    }

    /** The number of bytes Encode appends. */
    method Size() returns (size: nat)
      ensures StreamHeaderBytes(Value()).Ok? ==> size == |StreamHeaderBytes(Value()).value|
    {
      size := 2 + 2 + 4;
      size := size + 2;
      if clientId != None {
        size := size + |clientId.value|;
      }
      if apiVersion >= 2 {
        size := size + 2;
      }
    }
  }

  function TagBytes(h: Fields): bytes {
    if h.apiVersion >= 2 then IntBytes(2, h.tag) else []
  }

  /** Where the parts of a header stand. */
  lemma StreamHeaderLayout(h: Fields, buf: bytes, off: int) returns (fixed: bytes, client: bytes)
    requires StreamHeaderBytes(h).Ok? && At(buf, off, StreamHeaderBytes(h).value)
    ensures H.FixedPart(h.apiKey, h.apiVersion, h.correlationId) == Ok(fixed) && SizedBytes(2, h.clientId) == Ok(client)
    ensures At(buf, off, fixed) && At(buf, off + |fixed|, client) && At(buf, off + |fixed| + |client|, TagBytes(h))
    ensures |StreamHeaderBytes(h).value| == |fixed| + |client| + |TagBytes(h)|
    ensures h.apiVersion >= 2 ==> FitsUInt(2, h.tag)
  {
    fixed := H.FixedPart(h.apiKey, h.apiVersion, h.correlationId).value;
    client := SizedBytes(2, h.clientId).value;
    AtConcat(buf, off, fixed + client, TagBytes(h));
    AtConcat(buf, off, fixed, client);
  }

  lemma FixedPartAt(h: Fields, fixed: bytes, buf: bytes, off: int)
    requires H.FixedPart(h.apiKey, h.apiVersion, h.correlationId) == Ok(fixed) && At(buf, off, fixed)
    ensures H.ReadFixedPart(buf, off) == Ok(((h.apiKey, h.apiVersion, h.correlationId), off + |fixed|))
  {
    H.ReadFixedPartAt(h.apiKey, h.apiVersion, h.correlationId, buf, off);
  }

  lemma ClientAt(clientId: Option<bytes>, client: bytes, buf: bytes, off: int)
    requires SizedBytes(2, clientId) == Ok(client) && At(buf, off, client)
    ensures ReadSized(2, buf, off) == Ok((clientId, off + |client|))
  {
    ReadSizedAt(2, clientId, buf, off);
  }

  lemma TagAt(h: Fields, tag: int, buf: bytes, off: int)
    requires At(buf, off, TagBytes(h)) && (h.apiVersion >= 2 ==> FitsUInt(2, h.tag))
    ensures ReadTag(h.apiVersion, tag, buf, off) == Ok((if h.apiVersion >= 2 then h.tag else tag, off + |TagBytes(h)|))
  {
    if h.apiVersion >= 2 {
      ReadUIntAt(2, h.tag, buf, off);
    }
  }

  lemma HeaderReadInParts(buf: bytes, off: int, tag: int, h: Fields, o1: int, o2: int, newTag: int, o3: int)
    requires H.ReadFixedPart(buf, off) == Ok(((h.apiKey, h.apiVersion, h.correlationId), o1))
    requires ReadSized(2, buf, o1) == Ok((h.clientId, o2))
    requires ReadTag(h.apiVersion, tag, buf, o2) == Ok((newTag, o3))
    ensures ReadStreamHeader(buf, off, tag) == Ok((h.(tag := newTag), o3))
  {
  }

  lemma PartsReadBack(h: Fields, tag: int, buf: bytes, off: int) returns (o1: int, o2: int, end: int, got: int)
    requires StreamHeaderBytes(h).Ok? && At(buf, off, StreamHeaderBytes(h).value)
    ensures H.ReadFixedPart(buf, off) == Ok(((h.apiKey, h.apiVersion, h.correlationId), o1))
    ensures ReadSized(2, buf, o1) == Ok((h.clientId, o2)) && ReadTag(h.apiVersion, tag, buf, o2) == Ok((got, end))
    ensures end == off + |StreamHeaderBytes(h).value| && got == if h.apiVersion >= 2 then h.tag else tag
  {
    var fixed, client := StreamHeaderLayout(h, buf, off);
    o1 := off + |fixed|;
    o2 := o1 + |client|;
    end, got := o2 + |TagBytes(h)|, if h.apiVersion >= 2 then h.tag else tag;
    FixedPartAt(h, fixed, buf, off);
    ClientAt(h.clientId, client, buf, o1);
    TagAt(h, tag, buf, o2);
  }

  /** A streaming header reads back as it was written - a tag that was not sent stays
      what the reader had - and the reader stops at its end. */
  lemma StreamHeaderRoundTrip(h: Fields, tag: int, buf: bytes, off: int)
    requires StreamHeaderBytes(h).Ok? && At(buf, off, StreamHeaderBytes(h).value)
    ensures ReadStreamHeader(buf, off, tag)
         == Ok((if h.apiVersion >= 2 then h else h.(tag := tag), off + |StreamHeaderBytes(h).value|))
  {
    var o1, o2, end, got := PartsReadBack(h, tag, buf, off);
    HeaderReadInParts(buf, off, tag, h, o1, o2, got, end);
  }

  /** The streaming header as it stands on the wire: key, version, id, nullable client id and
      from version 2 on the tag. */
  lemma StreamHeaderOnTheWire(h: Fields)
    ensures var client := if h.clientId == None then [255, 255] else IntBytes(2, |h.clientId.value|) + h.clientId.value;
            StreamHeaderBytes(h).Ok? <==>
            -0x8000 <= h.apiKey <= 0x7FFF && -0x8000 <= h.apiVersion <= 0x7FFF
            && -0x8000_0000 <= h.correlationId <= 0x7FFF_FFFF
            && (h.clientId.Some? ==> |h.clientId.value| <= 0x7FFF) && (h.apiVersion >= 2 ==> 0 <= h.tag <= 0xFFFF)
    ensures var client := if h.clientId == None then [255, 255] else IntBytes(2, |h.clientId.value|) + h.clientId.value;
            StreamHeaderBytes(h).Ok? ==>
              StreamHeaderBytes(h).value
              == IntBytes(2, h.apiKey) + IntBytes(2, h.apiVersion) + IntBytes(4, h.correlationId) + client
                 + (if h.apiVersion >= 2 then IntBytes(2, h.tag) else [])
  {
    Pow256Values();
    SizedNull(2);
  }

  /** The header the connection would send for the same fields: it has no null client
      id, so null becomes the empty string. */
  function Plain(h: Fields): H.RequestHeader {
    H.RequestHeader(h.apiKey, h.apiVersion, h.correlationId, if h.clientId == None then [] else h.clientId.value)
  }

  /** The two header encoders agree exactly below version 2 and for a client id that is
      not the empty string: from version 2 on only one sends a tag, and only one tells
      the empty string from null. */
  lemma HeadersAgreeIff(h: Fields)
    requires StreamHeaderBytes(h).Ok? && H.HeaderBytes(Plain(h)).Ok?
    ensures StreamHeaderBytes(h) == H.HeaderBytes(Plain(h)) <==> h.apiVersion < 2 && h.clientId != Some([])
  {
    var fixed := H.FixedPart(h.apiKey, h.apiVersion, h.correlationId).value;
    var client := SizedBytes(2, h.clientId).value;
    H.HeaderEncodesIff(Plain(h));
    if h.apiVersion < 2 {
      assert fixed + client + [] == fixed + client;
      if h.clientId == Some([]) {
        EmptyIsNotNull();
        assert (fixed + client)[|fixed|..] == client;
        assert (fixed + SizedBytes(2, None).value)[|fixed|..] == SizedBytes(2, None).value;
      }
    }
  }

  lemma EmptyIsNotNull()
    ensures SizedBytes(2, Some([])).Ok? && SizedBytes(2, None).Ok?
    ensures SizedBytes(2, Some([])).value != SizedBytes(2, None).value
  {
    Pow256Values();
    IntOfBytes(2, 0);
    IntOfBytes(2, -1);
    assert IntBytes(2, 0) + [] == IntBytes(2, 0);
  }

  /** A request on the wire: one frame around header and body. */
  function RequestFrame(h: Fields, s: Schema, body: Value): Result<bytes> {
    var header :- StreamHeaderBytes(h);
    var content :- Encode(s, body);
    FrameOf(header + content)
  }

  /** Size placeholder, header, body: then the size goes over the placeholder. The body
      is what the message's own encode writes, here given by its schema. */
  method ToBuffer(apiKey: int, apiVersion: int, correlationId: int, clientId: Option<bytes>, s: Schema, body: Value)
    returns (r: Result<bytes>)
    ensures var spec := RequestFrame(Fields(apiKey, apiVersion, correlationId, clientId, 0), s, body);
            r.Ok? == spec.Ok? && (r.Ok? ==> r == spec)
  {
    var header := new RequestHeader(apiKey, apiVersion, correlationId, clientId);
    var encoder := new Encoder();
    ghost var h := header.Value();
    Pow256Values();
    var placeholder := encoder.Write(SInt(4), VInt(0));
    var written := header.Encode(encoder);
    if written.Err? {
      return Err(written.error);
    }
    written := encoder.Write(s, body);
    if written.Err? {
      return Err(written.error);
    }
    var built := encoder.Build();
    ghost var payload := StreamHeaderBytes(h).value + Encode(s, body).value;
    Layout(IntBytes(4, 0), StreamHeaderBytes(h).value, Encode(s, body).value, built);
    r := PatchSize(built, payload);
  }

  lemma Layout(placeholder: bytes, header: bytes, content: bytes, built: bytes)
    requires built == [] + placeholder + header + content
    ensures built == placeholder + (header + content)
  {
  }

  /** Writes the length of everything behind the first four bytes over them. */
  method PatchSize(built: bytes, ghost payload: bytes) returns (r: Result<bytes>)
    requires |built| >= 4 && built[4..] == payload
    ensures r == FrameOf(payload)
  {
    var buffer := new byte[|built|](i requires 0 <= i < |built| => built[i]);
    assert buffer[..] == built;
    var size := PutInt(4, |built| - 4);
    if size.Err? {
      return Err(size.error);
    }
    Blit(buffer, size.value, 0);
    assert buffer[..] == size.value + built[4..];
    r := Ok(buffer[..]);
  }

  /** What is built reads back in the order a broker reads it: the stream splits into
      the request's payload and the rest, the payload starts with the header and goes on
      with the body, and nothing is left over. */
  lemma RequestReadsBack(h: Fields, s: Schema, body: Value, more: bytes)
    requires RequestFrame(h, s, body).Ok? && CountsFit(s, body) && (h.apiVersion < 2 ==> h.tag == 0)
    ensures var messages := Split(RequestFrame(h, s, body).value + more).0;
            |messages| > 0
            && messages == [messages[0]] + Split(more).0
            && var header := ReadStreamHeader(messages[0], 0, 0);
               header.Ok? && header.value.0 == h
               && Decode(s, messages[0], header.value.1) == Ok((body, |messages[0]|))
  {
    var header, content := StreamHeaderBytes(h).value, Encode(s, body).value;
    var payload := header + content;
    FrameTaken(payload, more);
    PayloadReadsBack(h, s, body, header, content);
  }

  lemma PayloadReadsBack(h: Fields, s: Schema, body: Value, header: bytes, content: bytes)
    requires StreamHeaderBytes(h) == Ok(header) && Encode(s, body) == Ok(content)
    requires CountsFit(s, body) && (h.apiVersion < 2 ==> h.tag == 0)
    ensures ReadStreamHeader(header + content, 0, 0) == Ok((h, |header|))
    ensures Decode(s, header + content, |header|) == Ok((body, |header + content|))
  {
    PayloadParts(header, content);
    StreamHeaderRoundTrip(h, 0, header + content, 0);
    RoundTripAt(s, body, header + content, |header|);
  }

  lemma PayloadParts(header: bytes, content: bytes)
    ensures At(header + content, 0, header) && At(header + content, |header|, content)
  {
    AtIsSlice(header + content, 0, header + content);
    AtConcat(header + content, 0, header, content);
  }
}
