/** Reading and writing at explicit offsets (Protocol), and the metadata request, which
    sizes its buffer in one pass and fills it in another. */
module MetadataRequests {
  import opened Results
  import opened Bytes
  import opened BasicTypes

  // ----------------------------------------------------------------- Protocol

  /** writeString: returns the offset behind the field, throws if the count does not fit its
      field or the buffer. The content, if the count fits, has room. */
  method WriteString(buffer: array<byte>, value: Option<bytes>, offset: nat) returns (r: Result<nat>)
    requires value.Some? && offset + 2 <= buffer.Length && FitsInt(2, |value.value|) ==>
               offset + 2 + |value.value| <= buffer.Length
    modifies buffer
    ensures r.Ok? <==> SizedBytes(2, value).Ok? && offset + 2 <= buffer.Length
    ensures r.Ok? ==> r.value == offset + |SizedBytes(2, value).value| <= buffer.Length
    ensures r.Ok? ==> buffer[..r.value] == old(buffer[..offset]) + SizedBytes(2, value).value
    ensures r.Err? ==> r.error == RangeError && buffer[..] == old(buffer[..])
  {
    SizedNull(2);
    if offset + 2 > buffer.Length {
      return Err(RangeError);
    }
    if value == None {
      Blit(buffer, IntBytes(2, -1), offset);
      return Ok(offset + 2);
    }
    var length := |value.value|;
    var count := PutInt(2, length);
    if count.Err? {
      return Err(RangeError);
    }
    Blit(buffer, count.value, offset);
    var next := offset + 2;
    if length > 0 {
      Blit(buffer, value.value, next);
      next := next + length;
      Assoc(old(buffer[..offset]), count.value, value.value);
    } else {
      assert count.value + value.value == count.value;
    }
    r := Ok(next);
  }

  /** writeBoolean */
  method WriteBoolean(buffer: array<byte>, value: bool, offset: nat) returns (next: nat)
    requires offset < buffer.Length
    modifies buffer
    ensures next == offset + 1
    ensures buffer[..next] == old(buffer[..offset]) + BooleanBytes(value)
  {
    Blit(buffer, BooleanBytes(value), offset);
    next := offset + 1;
  }

  /** readArray of strings: the item loop of Protocol is that of the static arrays. */
  function ReadStrings(buf: bytes, off: int): Result<(Option<seq<Option<bytes>>>, int)> {
    ReadArray(buf, off, (b, o) => ReadSized(2, b, o))
  }

  // ---------------------------------------------------------- MetadataRequest

  datatype MetadataRequest = MetadataRequest(
    topics: Option<seq<bytes>>,
    allowAutoTopicCreation: bool,
    includeClusterAuthorizedOperations: bool,
    includeTopicAuthorizedOperations: bool)

  function TopicBytes(topic: bytes): Result<bytes> {
    SizedBytes(2, Some(topic))
  }

  function Flags(m: MetadataRequest): bytes {
    BooleanBytes(m.allowAutoTopicCreation) + BooleanBytes(m.includeClusterAuthorizedOperations)
    + BooleanBytes(m.includeTopicAuthorizedOperations)
  }

  /** Null topics ask for all, an empty array for none. */
  function RequestBytes(m: MetadataRequest): Result<bytes> {
    var topics :- ArrayBytes(m.topics, t => TopicBytes(t));
    Ok(topics + Flags(m))
  }

  /** The names one after another, each behind its length. */
  function NamesWire(topics: seq<bytes>): bytes {
    if topics == [] then [] else IntBytes(2, |topics[0]|) + topics[0] + NamesWire(topics[1..])
  }

  lemma {:induction false} NamesOnTheWire(topics: seq<bytes>)
    ensures var names := ElementsBytes(topics, t => TopicBytes(t));
            (names.Ok? <==> forall i :: 0 <= i < |topics| ==> |topics[i]| <= 0x7FFF)
            && (names.Ok? ==> names.value == NamesWire(topics))
  {
    Pow256Values();
    if topics != [] {
      NamesOnTheWire(topics[1..]);
    }
  }

  /** The request as it stands on the wire: the count of the topics, -1 for all, their names,
      then one byte for each flag: creation, cluster operations, topic operations. */
  lemma RequestOnTheWire(m: MetadataRequest)
    ensures RequestBytes(m).Ok? <==>
            m.topics.Some? ==> |m.topics.value| <= 0x7FFF_FFFF
                               && forall i :: 0 <= i < |m.topics.value| ==> |m.topics.value[i]| <= 0x7FFF
    ensures RequestBytes(m).Ok? ==>
              RequestBytes(m).value
              == (if m.topics.None? then [255, 255, 255, 255]
                  else IntBytes(4, |m.topics.value|) + NamesWire(m.topics.value))
                 + [if m.allowAutoTopicCreation then 1 else 0,
                    if m.includeClusterAuthorizedOperations then 1 else 0,
                    if m.includeTopicAuthorizedOperations then 1 else 0]
  {
    Pow256Values();
    if m.topics.Some? {
      NamesOnTheWire(m.topics.value);
    }
  }

  /** First pass: the bytes the topics take. */
  function TopicsSize(topics: seq<bytes>): nat {
    if topics == [] then 0 else 2 + |topics[0]| + TopicsSize(topics[1..])
  }

  method SizeTopics(topics: seq<bytes>) returns (size: nat)
    ensures size == TopicsSize(topics)
  {
    size := 0;
    for i := 0 to |topics|
      invariant size + TopicsSize(topics[i..]) == TopicsSize(topics)
    {
      assert topics[i..][0] == topics[i] && topics[i..][1..] == topics[i + 1..];
      size := size + 2 + |topics[i]|;
    }
  }

  /** Second pass over the topics, from `start`. */
  method FillTopics(buffer: array<byte>, topics: seq<bytes>, start: nat) returns (r: Result<nat>)
    requires start + TopicsSize(topics) <= buffer.Length
    modifies buffer
    ensures var spec := ElementsBytes(topics, t => TopicBytes(t));
            r.Ok? == spec.Ok? && (r.Err? ==> spec == Err(r.error))
            && (r.Ok? ==> r.value == start + TopicsSize(topics)
                          && buffer[..r.value] == old(buffer[..start]) + spec.value)
  {
    var offset := start;
    ghost var encode := (t: bytes) => TopicBytes(t);
    ghost var before := buffer[..start];
    ghost var done: bytes := [];
    assert topics[0..] == topics;
    PrefixedNothing(ElementsBytes(topics, encode));
    for i := 0 to |topics|
      invariant offset == start + |done| && offset + TopicsSize(topics[i..]) == start + TopicsSize(topics)
      invariant buffer[..offset] == before + done
      invariant ElementsBytes(topics, encode) == Prefixed(done, ElementsBytes(topics[i..], encode))
    {
      assert topics[i..][0] == topics[i] && topics[i..][1..] == topics[i + 1..];
      var next := WriteString(buffer, Some(topics[i]), offset);
      if next.Err? {
        return Err(next.error);
      }
      ghost var field := TopicBytes(topics[i]).value;
      PrefixedTwice(done, field, ElementsBytes(topics[i + 1..], encode));
      Assoc(before, done, field);
      done := done + field;
      offset := next.value;
    }
    assert done + [] == done;
    r := Ok(offset);
  }

  function TopicsRoom(topics: Option<seq<bytes>>): nat {
    4 + if topics.None? then 0 else TopicsSize(topics.value)
  }

  /** The topics array at the start of the buffer. */
  method FillArray(buffer: array<byte>, topics: Option<seq<bytes>>) returns (r: Result<nat>)
    requires TopicsRoom(topics) <= buffer.Length
    modifies buffer
    ensures var spec := ArrayBytes(topics, t => TopicBytes(t));
            r.Ok? == spec.Ok? && (r.Ok? ==> r.value == TopicsRoom(topics) && buffer[..r.value] == spec.value)
  {
    SizedNull(4);
    var offset := 0;
    var count := PutInt(4, if topics.None? then -1 else |topics.value|);
    if count.Err? {
      return Err(count.error);
    }
    Blit(buffer, count.value, offset);
    offset := offset + 4;
    assert buffer[..offset] == count.value;
    if topics == None {
      return Ok(offset);
    }
    r := FillTopics(buffer, topics.value, offset);
  }

  method FillFlags(buffer: array<byte>, m: MetadataRequest, start: nat)
    requires start + 3 == buffer.Length
    modifies buffer
    ensures buffer[..] == old(buffer[..start]) + Flags(m)
  {
    ghost var before := buffer[..start];
    var offset := WriteBoolean(buffer, m.allowAutoTopicCreation, start);
    offset := WriteBoolean(buffer, m.includeClusterAuthorizedOperations, offset);
    offset := WriteBoolean(buffer, m.includeTopicAuthorizedOperations, offset);
    assert buffer[..] == buffer[..offset];
    assert buffer[..] == before + Flags(m);
  }

  /** The buffer allocated from the first pass is filled to its last byte. */
  method EncodeRequest(m: MetadataRequest) returns (r: Result<bytes>)
    ensures r.Ok? == RequestBytes(m).Ok? && (r.Ok? ==> r == RequestBytes(m))
  {
    var size := 4;
    if m.topics != None {
      var topicsSize := SizeTopics(m.topics.value);
      size := size + topicsSize;
    }
    size := size + 1;
    size := size + 1;
    size := size + 1;
    var buffer := new byte[size];
    var topics := FillArray(buffer, m.topics);
    if topics.Err? {
      return Err(topics.error);
    }
    FillFlags(buffer, m, topics.value);
    r := Ok(buffer[..]);
  }

  /** The request read back with Protocol's readers: an array of strings, three booleans. */
  function ReadRequest(buf: bytes, off: int): Result<(Option<seq<Option<bytes>>>, bool, bool, bool, int)> {
    var (topics, o1) :- ReadStrings(buf, off);
    var (allow, o2) :- ReadBoolean(buf, o1);
    var (cluster, o3) :- ReadBoolean(buf, o2);
    var (topic, o4) :- ReadBoolean(buf, o3);
    Ok((topics, allow, cluster, topic, o4))
  }

  function Present(topics: seq<bytes>): (r: seq<Option<bytes>>) {
    seq(|topics|, i requires 0 <= i < |topics| => Some(topics[i]))
  }

  lemma {:induction false} SameElements(topics: seq<bytes>)
    ensures ElementsBytes(topics, t => TopicBytes(t)) == ElementsBytes(Present(topics), x => SizedBytes(2, x))
  {
    if topics != [] {
      SameElements(topics[1..]);
      assert Present(topics)[1..] == Present(topics[1..]);
    }
  }

  /** Every request that can be encoded reads back: the same topics, null apart from
      empty, the same flags, and the reader at the end of the buffer. */
  lemma RequestRoundTrip(m: MetadataRequest, buf: bytes, off: int)
    requires RequestBytes(m).Ok? && At(buf, off, RequestBytes(m).value)
    ensures var topics := if m.topics.None? then None else Some(Present(m.topics.value));
            ReadRequest(buf, off)
            == Ok((topics, m.allowAutoTopicCreation, m.includeClusterAuthorizedOperations,
                   m.includeTopicAuthorizedOperations, off + |RequestBytes(m).value|))
  {
    var topics := ArrayBytes(m.topics, t => TopicBytes(t)).value;
    AtConcat(buf, off, topics, Flags(m));
    TopicsReadBack(m.topics, buf, off);
    FlagsReadBack(m, buf, off + |topics|);
  }

  lemma TopicsReadBack(topics: Option<seq<bytes>>, buf: bytes, off: int)
    requires ArrayBytes(topics, t => TopicBytes(t)).Ok? && At(buf, off, ArrayBytes(topics, t => TopicBytes(t)).value)
    ensures ReadStrings(buf, off)
         == Ok((if topics.None? then None else Some(Present(topics.value)),
                off + |ArrayBytes(topics, t => TopicBytes(t)).value|))
  {
    var present := if topics.None? then None else Some(Present(topics.value));
    if topics.Some? {
      SameElements(topics.value);
    }
    assert ArrayBytes(topics, t => TopicBytes(t)) == ArrayBytes(present, x => SizedBytes(2, x));
    SizedDelimits(2);
    ReadArrayAt(present, x => true, x => SizedBytes(2, x), (b, o) => ReadSized(2, b, o), buf, off);
  }

  lemma FlagsReadBack(m: MetadataRequest, buf: bytes, off: int)
    requires At(buf, off, Flags(m))
    ensures ReadBoolean(buf, off) == Ok((m.allowAutoTopicCreation, off + 1))
    ensures ReadBoolean(buf, off + 1) == Ok((m.includeClusterAuthorizedOperations, off + 2))
    ensures ReadBoolean(buf, off + 2) == Ok((m.includeTopicAuthorizedOperations, off + 3))
  {
    var a, b := BooleanBytes(m.allowAutoTopicCreation), BooleanBytes(m.includeClusterAuthorizedOperations);
    var c := BooleanBytes(m.includeTopicAuthorizedOperations);
    AtConcat(buf, off, a + b, c);
    AtConcat(buf, off, a, b);
    ReadBooleanAt(m.allowAutoTopicCreation, buf, off);
    ReadBooleanAt(m.includeClusterAuthorizedOperations, buf, off + 1);
    ReadBooleanAt(m.includeTopicAuthorizedOperations, buf, off + 2);
  }
}
