/** The headers the connection puts in front of its requests and reads off responses. */
module Headers {
  import opened Results
  import opened Bytes
  import opened BasicTypes

  datatype RequestHeader = RequestHeader(apiKey: int, apiVersion: int, correlationId: int, clientId: bytes)

  /** Key, version and id of both header formats. */
  function FixedPart(apiKey: int, apiVersion: int, correlationId: int): Result<bytes> {
    var key :- PutInt(2, apiKey);
    var version :- PutInt(2, apiVersion);
    var id :- PutInt(4, correlationId);
    Ok(key + version + id)
  }

  /** An empty client id counts as absent and is sent as null. */
  function HeaderBytes(h: RequestHeader): Result<bytes> {
    var fixed :- FixedPart(h.apiKey, h.apiVersion, h.correlationId);
    var client :- SizedBytes(2, if h.clientId == [] then None else Some(h.clientId));
    Ok(fixed + client)
  }

  /** One write of a fixed-width field at the running offset. */
  method WriteField(buffer: array<byte>, w: Width, v: int, offset: nat) returns (r: Result<()>)
    requires offset + w <= buffer.Length
    modifies buffer
    ensures r.Ok? == FitsInt(w, v) && (r.Err? ==> r.error == RangeError)
    ensures r.Ok? ==> buffer[..offset + w] == old(buffer[..offset]) + IntBytes(w, v)
  {
    var field := PutInt(w, v);
    if field.Err? {
      return Err(RangeError);
    }
    Blit(buffer, field.value, offset);
    r := Ok(());
  }

  method EncodeHeader(h: RequestHeader) returns (r: Result<bytes>)
    ensures r == HeaderBytes(h)
  {
    SizedNull(2);
    var clientIdLength := if h.clientId != [] then |h.clientId| else -1;
    var size := 2 + 2 + 4 + 2 + if clientIdLength > 0 then clientIdLength else 0;
    var buffer := new byte[size];
    var offset := 0;
    var key := WriteField(buffer, 2, h.apiKey, offset);
    if key.Err? {
      return Err(key.error);
    }
    offset := offset + 2;
    var version := WriteField(buffer, 2, h.apiVersion, offset);
    if version.Err? {
      return Err(version.error);
    }
    offset := offset + 2;
    var id := WriteField(buffer, 4, h.correlationId, offset);
    if id.Err? {
      return Err(id.error);
    }
    offset := offset + 4;
    assert buffer[..8] == IntBytes(2, h.apiKey) + IntBytes(2, h.apiVersion) + IntBytes(4, h.correlationId);
    var length := WriteField(buffer, 2, clientIdLength, offset);
    if length.Err? {
      return Err(length.error);
    }
    ghost var fixed := IntBytes(2, h.apiKey) + IntBytes(2, h.apiVersion) + IntBytes(4, h.correlationId);
    assert buffer[..10] == fixed + IntBytes(2, clientIdLength);
    if h.clientId != [] {
      offset := offset + 2;
      Blit(buffer, h.clientId, offset);
      Assoc(fixed, IntBytes(2, clientIdLength), h.clientId);
    }
    assert buffer[..buffer.Length] == buffer[..];
    r := Ok(buffer[..]);
  }

  function ReadFixedPart(buf: bytes, off: int): Result<((int, int, int), int)> {
    var (apiKey, o1) :- ReadInt(2, buf, off);
    var (apiVersion, o2) :- ReadInt(2, buf, o1);
    var (correlationId, o3) :- ReadInt(4, buf, o2);
    Ok(((apiKey, apiVersion, correlationId), o3))
  }

  function DecodeHeader(buf: bytes): Result<RequestHeader> {
    var ((apiKey, apiVersion, correlationId), o3) :- ReadFixedPart(buf, 0);
    var (client, end) :- ReadSized(2, buf, o3);
    Ok(RequestHeader(apiKey, apiVersion, correlationId, if client.Some? then client.value else []))
  }

  /** The correlation id and the size of a response header. */
  function DecodeResponseHeader(buf: bytes): Result<(int, int)> {
    ReadInt(4, buf, 0)
  }

  lemma ReadFixedPartAt(apiKey: int, apiVersion: int, correlationId: int, buf: bytes, off: int)
    requires FixedPart(apiKey, apiVersion, correlationId).Ok?
    requires At(buf, off, FixedPart(apiKey, apiVersion, correlationId).value)
    ensures ReadFixedPart(buf, off) == Ok(((apiKey, apiVersion, correlationId), off + 8))
  {
    var key, version, id := IntBytes(2, apiKey), IntBytes(2, apiVersion), IntBytes(4, correlationId);
    AtConcat(buf, off, key + version, id);
    AtConcat(buf, off, key, version);
    ReadIntAt(2, apiKey, buf, off);
    ReadIntAt(2, apiVersion, buf, off + 2);
    ReadIntAt(4, correlationId, buf, off + 4);
  }

  /** Every header that can be encoded decodes to itself, whatever follows it. */
  lemma HeaderRoundTrip(h: RequestHeader, buf: bytes)
    requires HeaderBytes(h).Ok? && At(buf, 0, HeaderBytes(h).value)
    ensures DecodeHeader(buf) == Ok(h)
  {
    var fixed := FixedPart(h.apiKey, h.apiVersion, h.correlationId).value;
    var client := if h.clientId == [] then None else Some(h.clientId);
    AtConcat(buf, 0, fixed, SizedBytes(2, client).value);
    ReadFixedPartAt(h.apiKey, h.apiVersion, h.correlationId, buf, 0);
    ReadSizedAt(2, client, buf, 8);
  }

  /** A header can be encoded exactly when its numbers fit their fields. */
  lemma HeaderEncodesIff(h: RequestHeader)
    ensures HeaderBytes(h).Ok? <==>
            FitsInt(2, h.apiKey) && FitsInt(2, h.apiVersion) && FitsInt(4, h.correlationId) && |h.clientId| <= 0x7FFF
    ensures HeaderBytes(h).Ok? ==> |HeaderBytes(h).value| == 10 + |h.clientId|
    ensures HeaderBytes(h).Err? ==> HeaderBytes(h).error == RangeError
  {
  }
}
