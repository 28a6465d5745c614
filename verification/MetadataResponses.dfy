/** The metadata response: the layout its fields are read in, and the hand-written parser
    with one running offset through three levels of arrays. */
module MetadataResponses {
  import opened Results
  import opened Bytes
  import opened BasicTypes
  import opened Codecs

  datatype Broker = Broker(nodeId: int, host: bytes, port: int, rack: Option<bytes>)

  datatype PartitionMetadata = PartitionMetadata(
    errorCode: int,
    partitionIndex: int,
    leaderId: int,
    leaderEpoch: int,
    replicaNodes: seq<int>,
    isrNodes: seq<int>,
    offlineReplicas: seq<int>)

  datatype TopicMetadata = TopicMetadata(
    errorCode: int,
    name: bytes,
    isInternal: bool,
    partitions: seq<PartitionMetadata>,
    topicAuthorizedOperations: int)

  datatype MetadataResponse = MetadataResponse(
    throttleTimeMs: int,
    brokers: seq<Broker>,
    clusterId: Option<bytes>,
    controllerId: int,
    topics: seq<TopicMetadata>,
    clusterAuthorizedOperations: int)

  // ------------------------------------------------------------------- layout
  // Each record is the chain of its fields in the order they are read in.

  type BrokerFields = (int, (bytes, (int, Option<bytes>)))
  type PartitionFields = ((int, (int, (int, int))), (seq<int>, (seq<int>, seq<int>)))
  type TopicFields = ((int, (bytes, bool)), (seq<PartitionMetadata>, int))
  type ResponseFields = ((int, (seq<Broker>, (Option<bytes>, int))), (seq<TopicMetadata>, int))

  function BrokerLayout(): Codec<BrokerFields> {
    Both(Int(4), Both(PlainText(), Both(Int(4), Nullable())))
  }

  function MakeBroker(x: BrokerFields): Broker {
    Broker(x.0, x.1.0, x.1.1.0, x.1.1.1)
  }

  function FieldsOfBroker(b: Broker): BrokerFields {
    (b.nodeId, (b.host, (b.port, b.rack)))
  }

  function BrokerCodec(): Codec<Broker> {
    Mapped(BrokerLayout(), x => MakeBroker(x), b => FieldsOfBroker(b))
  }

  function Ints(): Codec<seq<int>> {
    ListOf(Int(4))
  }

  function PartitionHead(): Codec<(int, (int, (int, int)))> {
    Both(Int(2), Both(Int(4), Both(Int(4), Int(4))))
  }

  function PartitionLayout(): Codec<PartitionFields> {
    Both(PartitionHead(), Both(Ints(), Both(Ints(), Ints())))
  }

  function MakePartition(x: PartitionFields): PartitionMetadata {
    PartitionMetadata(x.0.0, x.0.1.0, x.0.1.1.0, x.0.1.1.1, x.1.0, x.1.1.0, x.1.1.1)
  }

  function FieldsOfPartition(p: PartitionMetadata): PartitionFields {
    ((p.errorCode, (p.partitionIndex, (p.leaderId, p.leaderEpoch))), (p.replicaNodes, (p.isrNodes, p.offlineReplicas)))
  }

  function PartitionCodec(): Codec<PartitionMetadata> {
    Mapped(PartitionLayout(), x => MakePartition(x), p => FieldsOfPartition(p))
  }

  function TopicHead(): Codec<(int, (bytes, bool))> {
    Both(Int(2), Both(PlainText(), Boolean()))
  }

  function TopicLayout(): Codec<TopicFields> {
    Both(TopicHead(), Both(ListOf(PartitionCodec()), Int(4)))
  }

  function MakeTopic(x: TopicFields): TopicMetadata {
    TopicMetadata(x.0.0, x.0.1.0, x.0.1.1, x.1.0, x.1.1)
  }

  function FieldsOfTopic(t: TopicMetadata): TopicFields {
    ((t.errorCode, (t.name, t.isInternal)), (t.partitions, t.topicAuthorizedOperations))
  }

  function TopicCodec(): Codec<TopicMetadata> {
    Mapped(TopicLayout(), x => MakeTopic(x), t => FieldsOfTopic(t))
  }

  function ClusterHead(): Codec<(int, (seq<Broker>, (Option<bytes>, int)))> {
    Both(Int(4), Both(ListOf(BrokerCodec()), Both(Nullable(), Int(4))))
  }

  function ResponseLayout(): Codec<ResponseFields> {
    Both(ClusterHead(), Both(ListOf(TopicCodec()), Int(4)))
  }

  function MakeResponse(x: ResponseFields): MetadataResponse {
    MetadataResponse(x.0.0, x.0.1.0, x.0.1.1.0, x.0.1.1.1, x.1.0, x.1.1)
  }

  function FieldsOfResponse(m: MetadataResponse): ResponseFields {
    ((m.throttleTimeMs, (m.brokers, (m.clusterId, m.controllerId))), (m.topics, m.clusterAuthorizedOperations))
  }

  function ResponseCodec(): Codec<MetadataResponse> {
    Mapped(ResponseLayout(), x => MakeResponse(x), m => FieldsOfResponse(m))
  }

  /** What the parser makes of a buffer. */
  function ReadResponse(buf: bytes): Result<MetadataResponse> {
    var (m, next) :- ResponseCodec().decode(buf, 0);
    Ok(m)
  }

  // --------------------------------------------------------------- round trip

  lemma IntsSound()
    ensures Sound(Ints(), Any())
  {
    IntSound(4);
    ListSound(Int(4));
  }

  lemma BrokerSound()
    ensures Sound(BrokerCodec(), Any())
  {
    IntSound(4);
    TextSound();
    NullableSound();
    BothSound(Int(4), Nullable());
    BothSound(PlainText(), Both(Int(4), Nullable()));
    BothSound(Int(4), Both(PlainText(), Both(Int(4), Nullable())));
    MappedSound(BrokerLayout(), x => MakeBroker(x), b => FieldsOfBroker(b));
  }

  lemma PartitionHeadSound()
    ensures Sound(PartitionHead(), Any())
  {
    IntSound(2);
    IntSound(4);
    BothSound(Int(4), Int(4));
    BothSound(Int(4), Both(Int(4), Int(4)));
    BothSound(Int(2), Both(Int(4), Both(Int(4), Int(4))));
  }

  lemma PartitionSound()
    ensures Sound(PartitionCodec(), Any())
  {
    PartitionHeadSound();
    IntsSound();
    BothSound(Ints(), Ints());
    BothSound(Ints(), Both(Ints(), Ints()));
    BothSound(PartitionHead(), Both(Ints(), Both(Ints(), Ints())));
    MappedSound(PartitionLayout(), x => MakePartition(x), p => FieldsOfPartition(p));
  }

  lemma TopicHeadSound()
    ensures Sound(TopicHead(), Any())
  {
    IntSound(2);
    TextSound();
    BooleanSound();
    BothSound(PlainText(), Boolean());
    BothSound(Int(2), Both(PlainText(), Boolean()));
  }

  lemma TopicSound()
    ensures Sound(TopicCodec(), Any())
  {
    TopicHeadSound();
    IntSound(4);
    PartitionSound();
    ListSound(PartitionCodec());
    BothSound(ListOf(PartitionCodec()), Int(4));
    BothSound(TopicHead(), Both(ListOf(PartitionCodec()), Int(4)));
    MappedSound(TopicLayout(), x => MakeTopic(x), t => FieldsOfTopic(t));
  }

  lemma ClusterHeadSound()
    ensures Sound(ClusterHead(), Any())
  {
    IntSound(4);
    NullableSound();
    BrokerSound();
    ListSound(BrokerCodec());
    BothSound(Nullable(), Int(4));
    BothSound(ListOf(BrokerCodec()), Both(Nullable(), Int(4)));
    BothSound(Int(4), Both(ListOf(BrokerCodec()), Both(Nullable(), Int(4))));
  }

  lemma ResponseSound()
    ensures Sound(ResponseCodec(), Any())
  {
    ClusterHeadSound();
    IntSound(4);
    TopicSound();
    ListSound(TopicCodec());
    BothSound(ListOf(TopicCodec()), Int(4));
    BothSound(ClusterHead(), Both(ListOf(TopicCodec()), Int(4)));
    MappedSound(ResponseLayout(), x => MakeResponse(x), m => FieldsOfResponse(m));
  }

  /** Parsing inverts the layout: every response whose fields fit, with any number of
      brokers, topics, partitions and replicas, comes back whole, whatever bytes follow. */
  lemma ResponseRoundTrip(m: MetadataResponse, buf: bytes)
    requires ResponseCodec().encode(m).Ok? && At(buf, 0, ResponseCodec().encode(m).value)
    ensures ReadResponse(buf) == Ok(m)
  {
    ResponseSound();
    UseSound(ResponseCodec(), m, buf);
  }

  lemma UseSound<T(!new)>(c: Codec<T>, v: T, buf: bytes)
    requires Sound(c, Any()) && c.encode(v).Ok? && At(buf, 0, c.encode(v).value)
    ensures c.decode(buf, 0) == Ok((v, |c.encode(v).value|))
  {
  }

  // ------------------------------------------------------------ the bytes it reads
  // The layout once more, apart from the codecs: fixed widths, lengths and contents.

  predicate Int16(n: int) {
    -0x8000 <= n <= 0x7FFF
  }

  predicate Int32(n: int) {
    -0x8000_0000 <= n <= 0x7FFF_FFFF
  }

  predicate Short(s: bytes) {
    |s| <= 0x7FFF
  }

  function Each<T>(write: T -> bytes, xs: seq<T>): bytes {
    if xs == [] then [] else write(xs[0]) + Each(write, xs[1..])
  }

  function TextWire(s: bytes): bytes {
    IntBytes(2, |s|) + s
  }

  function NullableWire(s: Option<bytes>): bytes {
    if s.None? then [255, 255] else TextWire(s.value)
  }

  function IntsWire(ns: seq<int>): bytes {
    IntBytes(4, |ns|) + Each(n => IntBytes(4, n), ns)
  }

  function BrokerWire(b: Broker): bytes {
    IntBytes(4, b.nodeId) + TextWire(b.host) + IntBytes(4, b.port) + NullableWire(b.rack)
  }

  function PartitionWire(p: PartitionMetadata): bytes {
    IntBytes(2, p.errorCode) + IntBytes(4, p.partitionIndex) + IntBytes(4, p.leaderId) + IntBytes(4, p.leaderEpoch)
    + IntsWire(p.replicaNodes) + IntsWire(p.isrNodes) + IntsWire(p.offlineReplicas)
  }

  function TopicWire(t: TopicMetadata): bytes {
    IntBytes(2, t.errorCode) + TextWire(t.name) + [if t.isInternal then 1 else 0]
    + (IntBytes(4, |t.partitions|) + Each(p => PartitionWire(p), t.partitions))
    + IntBytes(4, t.topicAuthorizedOperations)
  }

  function ResponseWire(m: MetadataResponse): bytes {
    IntBytes(4, m.throttleTimeMs) + (IntBytes(4, |m.brokers|) + Each(b => BrokerWire(b), m.brokers))
    + NullableWire(m.clusterId) + IntBytes(4, m.controllerId)
    + (IntBytes(4, |m.topics|) + Each(t => TopicWire(t), m.topics))
    + IntBytes(4, m.clusterAuthorizedOperations)
  }

  predicate IntsFit(ns: seq<int>) {
    Int32(|ns|) && forall i :: 0 <= i < |ns| ==> Int32(ns[i])
  }

  predicate BrokerFits(b: Broker) {
    Int32(b.nodeId) && Short(b.host) && Int32(b.port) && (b.rack.Some? ==> Short(b.rack.value))
  }

  predicate PartitionFits(p: PartitionMetadata) {
    && Int16(p.errorCode) && Int32(p.partitionIndex) && Int32(p.leaderId) && Int32(p.leaderEpoch)
    && IntsFit(p.replicaNodes) && IntsFit(p.isrNodes) && IntsFit(p.offlineReplicas)
  }

  predicate TopicFits(t: TopicMetadata) {
    && Int16(t.errorCode) && Short(t.name) && Int32(|t.partitions|) && Int32(t.topicAuthorizedOperations)
    && forall i :: 0 <= i < |t.partitions| ==> PartitionFits(t.partitions[i])
  }

  predicate ResponseFits(m: MetadataResponse) {
    && Int32(m.throttleTimeMs) && (m.clusterId.Some? ==> Short(m.clusterId.value)) && Int32(m.controllerId)
    && Int32(|m.brokers|) && Int32(|m.topics|) && Int32(m.clusterAuthorizedOperations)
    && (forall i :: 0 <= i < |m.brokers| ==> BrokerFits(m.brokers[i]))
    && (forall i :: 0 <= i < |m.topics| ==> TopicFits(m.topics[i]))
  }

  lemma FieldsWritten(n: int, s: Option<bytes>)
    ensures Int16(n) ==> Int(2).encode(n) == Ok(IntBytes(2, n))
    ensures Int32(n) ==> Int(4).encode(n) == Ok(IntBytes(4, n))
    ensures s.Some? && Short(s.value) ==> PlainText().encode(s.value) == Ok(TextWire(s.value))
    ensures (s.Some? ==> Short(s.value)) ==> Nullable().encode(s) == Ok(NullableWire(s))
  {
    Pow256Values();
    SizedNull(2);
  }

  lemma {:induction false} EachWritten<T>(c: Codec<T>, write: T -> bytes, xs: seq<T>)
    requires forall i :: 0 <= i < |xs| ==> c.encode(xs[i]) == Ok(write(xs[i]))
    ensures ElementsBytes(xs, c.encode) == Ok(Each(write, xs))
  {
    if xs != [] {
      EachWritten(c, write, xs[1..]);
    }
  }

  lemma ListWritten<T>(c: Codec<T>, write: T -> bytes, xs: seq<T>)
    requires forall i :: 0 <= i < |xs| ==> c.encode(xs[i]) == Ok(write(xs[i]))
    requires Int32(|xs|)
    ensures ListOf(c).encode(xs) == Ok(IntBytes(4, |xs|) + Each(write, xs))
  {
    Pow256Values();
    EachWritten(c, write, xs);
  }

  lemma BothWritten<A, B>(a: Codec<A>, b: Codec<B>, x: A, y: B, first: bytes, second: bytes)
    requires a.encode(x) == Ok(first) && b.encode(y) == Ok(second)
    ensures Both(a, b).encode((x, y)) == Ok(first + second)
  {
  }

  lemma FourWritten<A, B, C, D>(a: Codec<A>, b: Codec<B>, c: Codec<C>, d: Codec<D>, x: A, y: B, z: C, w: D,
                                p: bytes, q: bytes, r: bytes, s: bytes)
    requires a.encode(x) == Ok(p) && b.encode(y) == Ok(q) && c.encode(z) == Ok(r) && d.encode(w) == Ok(s)
    ensures Both(a, Both(b, Both(c, d))).encode((x, (y, (z, w)))) == Ok(p + q + r + s)
  {
    BothWritten(c, d, z, w, r, s);
    BothWritten(b, Both(c, d), y, (z, w), q, r + s);
    BothWritten(a, Both(b, Both(c, d)), x, (y, (z, w)), p, q + (r + s));
    assert p + (q + (r + s)) == p + q + r + s;
  }

  lemma MappedWritten<A, B>(c: Codec<A>, to: A -> B, from: B -> A, x: B, written: bytes)
    requires c.encode(from(x)) == Ok(written)
    ensures Mapped(c, to, from).encode(x) == Ok(written)
  {
  }

  lemma IntsWritten(ns: seq<int>)
    requires IntsFit(ns)
    ensures Ints().encode(ns) == Ok(IntsWire(ns))
  {
    forall i | 0 <= i < |ns| ensures Int(4).encode(ns[i]) == Ok(IntBytes(4, ns[i])) {
      FieldsWritten(ns[i], None);
    }
    ListWritten(Int(4), n => IntBytes(4, n), ns);
  }

  /** int32 node id, text host, int32 port, nullable text rack. */
  lemma BrokerWritten(b: Broker)
    requires BrokerFits(b)
    ensures BrokerCodec().encode(b) == Ok(BrokerWire(b))
  {
    FieldsWritten(b.nodeId, Some(b.host));
    FieldsWritten(b.port, b.rack);
    FourWritten(Int(4), PlainText(), Int(4), Nullable(), b.nodeId, b.host, b.port, b.rack,
                IntBytes(4, b.nodeId), TextWire(b.host), IntBytes(4, b.port), NullableWire(b.rack));
    MappedWritten(BrokerLayout(), x => MakeBroker(x), x => FieldsOfBroker(x), b, BrokerWire(b));
  }

  lemma PartitionHeadWritten(p: PartitionMetadata) returns (head: bytes)
    requires PartitionFits(p)
    ensures PartitionHead().encode(FieldsOfPartition(p).0) == Ok(head)
    ensures head == IntBytes(2, p.errorCode) + IntBytes(4, p.partitionIndex) + IntBytes(4, p.leaderId)
                    + IntBytes(4, p.leaderEpoch)
  {
    FieldsWritten(p.errorCode, None);
    FieldsWritten(p.partitionIndex, None);
    FieldsWritten(p.leaderId, None);
    FieldsWritten(p.leaderEpoch, None);
    var a, b, c, d := IntBytes(2, p.errorCode), IntBytes(4, p.partitionIndex), IntBytes(4, p.leaderId),
                      IntBytes(4, p.leaderEpoch);
    FourWritten(Int(2), Int(4), Int(4), Int(4), p.errorCode, p.partitionIndex, p.leaderId, p.leaderEpoch, a, b, c, d);
    head := a + b + c + d;
  }

  /** int16 error, int32 index, leader and epoch, then replicas, in-sync and offline ones. */
  lemma PartitionWritten(p: PartitionMetadata)
    requires PartitionFits(p)
    ensures PartitionCodec().encode(p) == Ok(PartitionWire(p))
  {
    var head := PartitionHeadWritten(p);
    IntsWritten(p.replicaNodes);
    IntsWritten(p.isrNodes);
    IntsWritten(p.offlineReplicas);
    FourWritten(PartitionHead(), Ints(), Ints(), Ints(),
                FieldsOfPartition(p).0, p.replicaNodes, p.isrNodes, p.offlineReplicas,
                head, IntsWire(p.replicaNodes), IntsWire(p.isrNodes), IntsWire(p.offlineReplicas));
    MappedWritten(PartitionLayout(), x => MakePartition(x), x => FieldsOfPartition(x), p, PartitionWire(p));
  }

  lemma TopicHeadWritten(t: TopicMetadata) returns (head: bytes)
    requires TopicFits(t)
    ensures TopicHead().encode(FieldsOfTopic(t).0) == Ok(head)
    ensures head == IntBytes(2, t.errorCode) + TextWire(t.name) + [if t.isInternal then 1 else 0]
  {
    FieldsWritten(t.errorCode, Some(t.name));
    var a, b, c := IntBytes(2, t.errorCode), TextWire(t.name), [if t.isInternal then 1 else 0];
    BothWritten(PlainText(), Boolean(), t.name, t.isInternal, b, c);
    BothWritten(Int(2), Both(PlainText(), Boolean()), t.errorCode, (t.name, t.isInternal), a, b + c);
    head := a + b + c;
    assert head == a + (b + c);
  }

  /** int16 error, text name, one byte, the counted partitions, int32 operations. */
  lemma TopicWritten(t: TopicMetadata)
    requires TopicFits(t)
    ensures TopicCodec().encode(t) == Ok(TopicWire(t))
  {
    var head := TopicHeadWritten(t);
    var partitions := PartitionsWritten(t.partitions);
    var written := EndWritten(TopicHead(), PartitionCodec(), FieldsOfTopic(t).0, t.partitions,
                              t.topicAuthorizedOperations, head, partitions);
    MappedWritten(TopicLayout(), x => MakeTopic(x), x => FieldsOfTopic(x), t, written);
  }

  /** A head, a list and a last int32. */
  lemma EndWritten<A, B>(h: Codec<A>, c: Codec<B>, x: A, xs: seq<B>, last: int, head: bytes, list: bytes)
    returns (written: bytes)
    requires h.encode(x) == Ok(head) && ListOf(c).encode(xs) == Ok(list) && Int32(last)
    ensures Both(h, Both(ListOf(c), Int(4))).encode((x, (xs, last))) == Ok(written)
    ensures written == head + list + IntBytes(4, last)
  {
    FieldsWritten(last, None);
    BothWritten(ListOf(c), Int(4), xs, last, list, IntBytes(4, last));
    BothWritten(h, Both(ListOf(c), Int(4)), x, (xs, last), head, list + IntBytes(4, last));
    written := head + list + IntBytes(4, last);
    assert head + (list + IntBytes(4, last)) == written;
  }

  lemma PartitionsWritten(ps: seq<PartitionMetadata>) returns (written: bytes)
    requires Int32(|ps|) && forall i :: 0 <= i < |ps| ==> PartitionFits(ps[i])
    ensures ListOf(PartitionCodec()).encode(ps) == Ok(written)
    ensures written == IntBytes(4, |ps|) + Each(p => PartitionWire(p), ps)
  {
    forall i | 0 <= i < |ps| ensures PartitionCodec().encode(ps[i]) == Ok(PartitionWire(ps[i])) {
      PartitionWritten(ps[i]);
    }
    written := IntBytes(4, |ps|) + Each(p => PartitionWire(p), ps);
    ListWritten(PartitionCodec(), p => PartitionWire(p), ps);
  }

  lemma BrokersWritten(bs: seq<Broker>) returns (written: bytes)
    requires Int32(|bs|) && forall i :: 0 <= i < |bs| ==> BrokerFits(bs[i])
    ensures ListOf(BrokerCodec()).encode(bs) == Ok(written)
    ensures written == IntBytes(4, |bs|) + Each(b => BrokerWire(b), bs)
  {
    forall i | 0 <= i < |bs| ensures BrokerCodec().encode(bs[i]) == Ok(BrokerWire(bs[i])) {
      BrokerWritten(bs[i]);
    }
    written := IntBytes(4, |bs|) + Each(b => BrokerWire(b), bs);
    ListWritten(BrokerCodec(), b => BrokerWire(b), bs);
  }

  lemma TopicsWritten(ts: seq<TopicMetadata>) returns (written: bytes)
    requires Int32(|ts|) && forall i :: 0 <= i < |ts| ==> TopicFits(ts[i])
    ensures ListOf(TopicCodec()).encode(ts) == Ok(written)
    ensures written == IntBytes(4, |ts|) + Each(t => TopicWire(t), ts)
  {
    forall i | 0 <= i < |ts| ensures TopicCodec().encode(ts[i]) == Ok(TopicWire(ts[i])) {
      TopicWritten(ts[i]);
    }
    written := IntBytes(4, |ts|) + Each(t => TopicWire(t), ts);
    ListWritten(TopicCodec(), t => TopicWire(t), ts);
  }

  lemma ClusterHeadWritten(m: MetadataResponse) returns (head: bytes)
    requires ResponseFits(m)
    ensures ClusterHead().encode(FieldsOfResponse(m).0) == Ok(head)
    ensures head == IntBytes(4, m.throttleTimeMs) + (IntBytes(4, |m.brokers|) + Each(b => BrokerWire(b), m.brokers))
                    + NullableWire(m.clusterId) + IntBytes(4, m.controllerId)
  {
    FieldsWritten(m.throttleTimeMs, m.clusterId);
    FieldsWritten(m.controllerId, None);
    var b := BrokersWritten(m.brokers);
    var a, c, d := IntBytes(4, m.throttleTimeMs), NullableWire(m.clusterId), IntBytes(4, m.controllerId);
    FourWritten(Int(4), ListOf(BrokerCodec()), Nullable(), Int(4),
                m.throttleTimeMs, m.brokers, m.clusterId, m.controllerId, a, b, c, d);
    head := a + b + c + d;
  }

  /** int32 throttle time, the counted brokers, nullable cluster id, int32 controller, the
      counted topics, int32 operations. */
  lemma ResponseWritten(m: MetadataResponse)
    requires ResponseFits(m)
    ensures ResponseCodec().encode(m) == Ok(ResponseWire(m))
  {
    var head := ClusterHeadWritten(m);
    var topics := TopicsWritten(m.topics);
    var written := EndWritten(ClusterHead(), TopicCodec(), FieldsOfResponse(m).0, m.topics,
                              m.clusterAuthorizedOperations, head, topics);
    MappedWritten(ResponseLayout(), x => MakeResponse(x), x => FieldsOfResponse(x), m, written);
  }

  lemma WrittenIsRead(m: MetadataResponse, written: bytes, buf: bytes)
    requires ResponseCodec().encode(m) == Ok(written) && written <= buf
    ensures ReadResponse(buf) == Ok(m)
  {
    AtIsSlice(buf, 0, written);
    ResponseRoundTrip(m, buf);
  }

  /** Every buffer that starts with the bytes of a response is parsed to that response. */
  lemma BytesAreParsed(m: MetadataResponse, buf: bytes)
    requires ResponseFits(m) && ResponseWire(m) <= buf
    ensures ReadResponse(buf) == Ok(m)
  {
    ResponseWritten(m);
    WrittenIsRead(m, ResponseWire(m), buf);
  }

  /** What no response has but the parser takes: a negative text length moves the offset
      back, a negative rack or cluster id length is null, a negative count is an empty array,
      every byte but 0 is true, and a text that ends behind the buffer is cut off there. */
  lemma OddFieldsAreParsed(buf: bytes, off: nat)
    requires off + 4 <= |buf|
    ensures var n := IntOf(buf[off..off + 2]);
            n < 0 ==> PlainText().decode(buf, off) == Ok(([], off + 2 + n))
                      && Nullable().decode(buf, off) == Ok((None, off + 2))
    ensures var n := IntOf(buf[off..off + 2]);
            n >= |buf| - off - 2 ==> PlainText().decode(buf, off) == Ok((buf[off + 2..], off + 2 + n))
    ensures IntOf(buf[off..off + 4]) < 0 ==> Ints().decode(buf, off) == Ok(([], off + 4))
    ensures Boolean().decode(buf, off) == Ok((buf[off] != 0, off + 1))
  {
    assert buf[off..off + 1] == [buf[off]];
    var n := IntOf(buf[off..off + 2]);
    assert ReadText(buf, off) == Ok((Text(buf, off + 2, off + 2 + n), off + 2 + n));
    assert buf[off + 2..|buf|] == buf[off + 2..];
    assert n >= |buf| - off - 2 ==> Text(buf, off + 2, off + 2 + n) == buf[off + 2..];
  }

  // ------------------------------------------------------------------- parser

  /** The loop over an array of int32. */
  method ParseInts(buffer: bytes, start: int) returns (r: Result<(seq<int>, int)>)
    ensures r == Ints().decode(buffer, start)
  {
    var count := ReadInt(4, buffer, start);
    if count.Err? {
      return Err(count.error);
    }
    var (length, offset) := count.value;
    r := DecodeElements(length, buffer, offset, Int(4).decode);
  }

  method ParseBroker(buffer: bytes, start: int) returns (r: Result<(Broker, int)>)
    ensures r == BrokerCodec().decode(buffer, start)
  {
    var node := ReadInt(4, buffer, start);
    if node.Err? {
      return Err(node.error);
    }
    var (nodeId, offset) := node.value;
    var hostField := ReadInt(2, buffer, offset);
    if hostField.Err? {
      return Err(hostField.error);
    }
    var hostLength := hostField.value.0;
    offset := hostField.value.1;
    var host := Text(buffer, offset, offset + hostLength);
    offset := offset + hostLength;
    var portField := ReadInt(4, buffer, offset);
    if portField.Err? {
      return Err(portField.error);
    }
    var port := portField.value.0;
    offset := portField.value.1;
    var rackField := ReadInt(2, buffer, offset);
    if rackField.Err? {
      return Err(rackField.error);
    }
    var rackLength := rackField.value.0;
    offset := rackField.value.1;
    var rack := None;
    if rackLength >= 0 {
      rack := Some(Text(buffer, offset, offset + rackLength));
      offset := offset + rackLength;
    }
    r := Ok((Broker(nodeId, host, port, rack), offset));
  }

  method ParseBrokers(buffer: bytes, start: int) returns (r: Result<(seq<Broker>, int)>)
    ensures r == ListOf(BrokerCodec()).decode(buffer, start)
  {
    var count := ReadInt(4, buffer, start);
    if count.Err? {
      return Err(count.error);
    }
    var (brokersLength, offset) := count.value;
    r := ParseBrokersLoop(buffer, brokersLength, offset);
  }

  method ParseBrokersLoop(buffer: bytes, brokersLength: int, start: int) returns (r: Result<(seq<Broker>, int)>)
    ensures r == ReadMany(Max(brokersLength, 0), buffer, start, BrokerCodec().decode)
  {
    var brokers: seq<Broker> := [];
    var offset := start;
    var i := 0;
    ghost var decode := BrokerCodec().decode;
    ghost var n: nat := Max(brokersLength, 0);
    ghost var all := ReadMany(n, buffer, offset, decode);
    LoopStarts(all);
    while i < brokersLength
      invariant 0 <= i <= n
      invariant all == Prepended(brokers, ReadMany(n - i, buffer, offset, decode))
    {
      LoopTurns(all, brokers, n - i, buffer, offset, decode);
      var broker := ParseBroker(buffer, offset);
      if broker.Err? {
        return Err(broker.error);
      }
      brokers := brokers + [broker.value.0];
      offset := broker.value.1;
      i := i + 1;
    }
    LoopEnds(all, brokers, buffer, offset, decode);
    r := Ok((brokers, offset));
  }

  method ParsePartitionHead(buffer: bytes, start: int) returns (r: Result<((int, (int, (int, int))), int)>)
    ensures r == PartitionHead().decode(buffer, start)
  {
    var error := ReadInt(2, buffer, start);
    if error.Err? {
      return Err(error.error);
    }
    var (errorCode, offset) := error.value;
    var index := ReadInt(4, buffer, offset);
    if index.Err? {
      return Err(index.error);
    }
    offset := index.value.1;
    var leader := ReadInt(4, buffer, offset);
    if leader.Err? {
      return Err(leader.error);
    }
    offset := leader.value.1;
    var epoch := ReadInt(4, buffer, offset);
    if epoch.Err? {
      return Err(epoch.error);
    }
    r := Ok(((errorCode, (index.value.0, (leader.value.0, epoch.value.0))), epoch.value.1));
  }

  method ParsePartition(buffer: bytes, start: int) returns (r: Result<(PartitionMetadata, int)>)
    ensures r == PartitionCodec().decode(buffer, start)
  {
    var head := ParsePartitionHead(buffer, start);
    if head.Err? {
      return Err(head.error);
    }
    var ((errorCode, (partitionIndex, (leaderId, leaderEpoch))), offset) := head.value;
    var replicaNodes := ParseInts(buffer, offset);
    if replicaNodes.Err? {
      return Err(replicaNodes.error);
    }
    offset := replicaNodes.value.1;
    var isrNodes := ParseInts(buffer, offset);
    if isrNodes.Err? {
      return Err(isrNodes.error);
    }
    offset := isrNodes.value.1;
    var offlineReplicas := ParseInts(buffer, offset);
    if offlineReplicas.Err? {
      return Err(offlineReplicas.error);
    }
    offset := offlineReplicas.value.1;
    r := Ok((PartitionMetadata(errorCode, partitionIndex, leaderId, leaderEpoch,
                               replicaNodes.value.0, isrNodes.value.0, offlineReplicas.value.0), offset));
  }

  method ParsePartitions(buffer: bytes, start: int) returns (r: Result<(seq<PartitionMetadata>, int)>)
    ensures r == ListOf(PartitionCodec()).decode(buffer, start)
  {
    var count := ReadInt(4, buffer, start);
    if count.Err? {
      return Err(count.error);
    }
    var (partitionsLength, offset) := count.value;
    r := ParsePartitionsLoop(buffer, partitionsLength, offset);
  }

  method ParsePartitionsLoop(buffer: bytes, partitionsLength: int, start: int)
    returns (r: Result<(seq<PartitionMetadata>, int)>)
    ensures r == ReadMany(Max(partitionsLength, 0), buffer, start, PartitionCodec().decode)
  {
    var partitions: seq<PartitionMetadata> := [];
    var offset := start;
    var j := 0;
    ghost var decode := PartitionCodec().decode;
    ghost var n: nat := Max(partitionsLength, 0);
    ghost var all := ReadMany(n, buffer, offset, decode);
    LoopStarts(all);
    while j < partitionsLength
      invariant 0 <= j <= n
      invariant all == Prepended(partitions, ReadMany(n - j, buffer, offset, decode))
    {
      LoopTurns(all, partitions, n - j, buffer, offset, decode);
      var partition := ParsePartition(buffer, offset);
      if partition.Err? {
        return Err(partition.error);
      }
      partitions := partitions + [partition.value.0];
      offset := partition.value.1;
      j := j + 1;
    }
    LoopEnds(all, partitions, buffer, offset, decode);
    r := Ok((partitions, offset));
  }

  method ParseTopicHead(buffer: bytes, start: int) returns (r: Result<((int, (bytes, bool)), int)>)
    ensures r == TopicHead().decode(buffer, start)
  {
    var error := ReadInt(2, buffer, start);
    if error.Err? {
      return Err(error.error);
    }
    var (errorCode, offset) := error.value;
    var nameField := ReadInt(2, buffer, offset);
    if nameField.Err? {
      return Err(nameField.error);
    }
    var nameLength := nameField.value.0;
    offset := nameField.value.1;
    var name := Text(buffer, offset, offset + nameLength);
    offset := offset + nameLength;
    var internal := ReadInt(1, buffer, offset);
    if internal.Err? {
      return Err(internal.error);
    }
    r := Ok(((errorCode, (name, internal.value.0 != 0)), internal.value.1));
  }

  method ParseTopic(buffer: bytes, start: int) returns (r: Result<(TopicMetadata, int)>)
    ensures r == TopicCodec().decode(buffer, start)
  {
    var head := ParseTopicHead(buffer, start);
    if head.Err? {
      return Err(head.error);
    }
    var ((errorCode, (name, isInternal)), offset) := head.value;
    var partitions := ParsePartitions(buffer, offset);
    if partitions.Err? {
      return Err(partitions.error);
    }
    offset := partitions.value.1;
    var operations := ReadInt(4, buffer, offset);
    if operations.Err? {
      return Err(operations.error);
    }
    r := Ok((TopicMetadata(errorCode, name, isInternal, partitions.value.0, operations.value.0), operations.value.1));
  }

  method ParseTopics(buffer: bytes, start: int) returns (r: Result<(seq<TopicMetadata>, int)>)
    ensures r == ListOf(TopicCodec()).decode(buffer, start)
  {
    var count := ReadInt(4, buffer, start);
    if count.Err? {
      return Err(count.error);
    }
    var (topicsLength, offset) := count.value;
    r := ParseTopicsLoop(buffer, topicsLength, offset);
  }

  method ParseTopicsLoop(buffer: bytes, topicsLength: int, start: int) returns (r: Result<(seq<TopicMetadata>, int)>)
    ensures r == ReadMany(Max(topicsLength, 0), buffer, start, TopicCodec().decode)
  {
    var topics: seq<TopicMetadata> := [];
    var offset := start;
    var i := 0;
    ghost var decode := TopicCodec().decode;
    ghost var n: nat := Max(topicsLength, 0);
    ghost var all := ReadMany(n, buffer, offset, decode);
    LoopStarts(all);
    while i < topicsLength
      invariant 0 <= i <= n
      invariant all == Prepended(topics, ReadMany(n - i, buffer, offset, decode))
    {
      LoopTurns(all, topics, n - i, buffer, offset, decode);
      var topic := ParseTopic(buffer, offset);
      if topic.Err? {
        return Err(topic.error);
      }
      topics := topics + [topic.value.0];
      offset := topic.value.1;
      i := i + 1;
    }
    LoopEnds(all, topics, buffer, offset, decode);
    r := Ok((topics, offset));
  }

  method ParseClusterHead(buffer: bytes) returns (r: Result<((int, (seq<Broker>, (Option<bytes>, int))), int)>)
    ensures r == ClusterHead().decode(buffer, 0)
  {
    var throttle := ReadInt(4, buffer, 0);
    if throttle.Err? {
      return Err(throttle.error);
    }
    var (throttleTimeMs, offset) := throttle.value;
    var brokers := ParseBrokers(buffer, offset);
    if brokers.Err? {
      return Err(brokers.error);
    }
    offset := brokers.value.1;
    var clusterId := ReadSized(2, buffer, offset);
    if clusterId.Err? {
      return Err(clusterId.error);
    }
    offset := clusterId.value.1;
    var controllerId := ReadInt(4, buffer, offset);
    if controllerId.Err? {
      return Err(controllerId.error);
    }
    r := Ok(((throttleTimeMs, (brokers.value.0, (clusterId.value.0, controllerId.value.0))), controllerId.value.1));
  }

  /** MetadataResponse.parse: its loops are the methods above, all on one offset. */
  method Parse(buffer: bytes) returns (r: Result<MetadataResponse>)
    ensures r == ReadResponse(buffer)
    ensures forall m :: ResponseFits(m) && ResponseWire(m) <= buffer ==> r == Ok(m)
  {
    forall m | ResponseFits(m) && ResponseWire(m) <= buffer ensures ReadResponse(buffer) == Ok(m) {
      BytesAreParsed(m, buffer);
    }
    var head := ParseClusterHead(buffer);
    if head.Err? {
      return Err(head.error);
    }
    var ((throttleTimeMs, (brokers, (clusterId, controllerId))), offset) := head.value;
    var topics := ParseTopics(buffer, offset);
    if topics.Err? {
      return Err(topics.error);
    }
    offset := topics.value.1;
    var operations := ReadInt(4, buffer, offset);
    if operations.Err? {
      return Err(operations.error);
    }
    r := Ok(MetadataResponse(throttleTimeMs, brokers, clusterId, controllerId, topics.value.0, operations.value.0));
  }
}
