/** Bytes kept from an old socket: disconnect does not clear the buffer. With any byte
    left there, some answer goes astray. */
module ConnectionResidue {
  import opened Results
  import opened Bytes
  import opened Framing
  import opened ReceiveLoop
  import opened Connection
  import opened ConnectionSafety
  import opened ConnectionDelivery

  // ---------------------------------------------------------------- what is kept

  /** Either the beginning of a message, or a whole stream on which the loop throws. */
  predicate Residue(kept: bytes) {
    (!Takes(kept) && !Stuck(kept)) || Received(kept).1 == Thrown
  }

  lemma {:induction false} WalkLeaves(s: bytes, at: int, n: nat)
    ensures var end := Walk(s, at, n).1; end.Left? ==> Turn(s, end.at) == end
    decreases n
  {
    if n > 0 && Turn(s, at).Running? {
      WalkLeaves(s, Turn(s, at).at, n - 1);
    }
  }

  lemma LeftIsIncomplete(s: bytes, at: nat)
    requires at <= |s| && Turn(s, at) == Left(at)
    ensures !Takes(s[at..]) && !Stuck(s[at..])
  {
  }

  lemma DataLeavesResidue(c: Conn, data: bytes)
    requires Ends(Kept(c) + data)
    ensures Residue(Kept(HandleData(c, data)))
  {
    var stream := Kept(c) + data;
    var end := Received(stream).1;
    WalkLeaves(stream, 0, |stream| + 2);
    LeftInRange(stream, 0, |stream| + 2);
    if end.Left? {
      LeftIsIncomplete(stream, end.at);
      assert stream[0..] == stream;
    }
  }

  lemma EnterKeepsBuffer(c: Conn, apiKey: int, apiVersion: int, data: bytes, timeout: int, encoded: Result<bytes>)
    ensures Enter(c, apiKey, apiVersion, data, timeout, encoded).buffer == c.buffer
  {
  }

  lemma StepKeepsResidue(cfg: Config, c: Conn, e: Event)
    requires Allowed(c, e) && Residue(Kept(c))
    ensures Residue(Kept(Step(cfg, c, e)))
  {
    if e.Data? {
      DataLeavesResidue(c, e.data);
    } else if e.SendCall? {
      EnterKeepsBuffer(c, e.apiKey, e.apiVersion, e.requestData, EffectiveTimeout(cfg, e.timeout),
                       RequestBytes(cfg, NextId(c), e.apiKey, e.apiVersion, e.requestData));
    }
  }

  lemma {:induction false} RunKeepsResidue(cfg: Config, c: Conn, es: seq<Event>)
    requires AllowedRun(cfg, c, es) && Residue(Kept(c))
    ensures Residue(Kept(Run(cfg, c, es)))
    decreases |es|
  {
    if es != [] {
      StepKeepsResidue(cfg, c, es[0]);
      RunKeepsResidue(cfg, Step(cfg, c, es[0]), es[1..]);
    }
  }

  // ------------------------------------------------------------ spoiled answers

  /** Behind the kept bytes these framed messages do not give the request waiting under
      `id` its first answer, and the receiving loop ends on them. */
  ghost predicate Spoiled(kept: bytes, id: int, messages: seq<bytes>, payload: bytes) {
    && AllHeaded(messages) && FramesOf(messages).Ok? && FirstAnswer(messages, id) == Some(payload)
    && Ends(kept + FramesOf(messages).value)
    && FateIn(Received(kept + FramesOf(messages).value).0, id) != Resolved(payload)
  }

  /** The bytes of an id, the first of them below 128. */
  lemma IdBytes(id: int) returns (e: bytes)
    requires 0 <= id < ID_COUNT
    ensures |e| == 4 && IntOf(e) == id && e[0] < 128
    ensures forall other: bytes :: |other| == 4 && IntOf(other) == id ==> other == e
  {
    e := IntBytes(4, id);
    Pow256Values();
    IntOfBytes(4, id);
    IntOfFour(e[0], e[1], e[2], e[3]);
    assert e == [e[0], e[1], e[2], e[3]];
    forall other: bytes | |other| == 4 && IntOf(other) == id ensures other == e {
      IntBytesOf(other);
    }
  }

  lemma SmallFrame(message: bytes)
    requires |message| < 256
    ensures FrameOf(message) == Ok([0, 0, 0, |message|] + message)
  {
    Pow256Values();
    var n := |message|;
    assert IntBytes(1, 0) == IntBytes(0, 0) + [0] == [0];
    assert IntBytes(2, 0) == IntBytes(1, 0) + [0] == [0, 0];
    assert IntBytes(3, 0) == IntBytes(2, 0) + [0] == [0, 0, 0];
    assert IntBytes(4, n) == IntBytes(3, 0) + [n] == [0, 0, 0, n];
  }

  /** One answer, in one frame. */
  lemma OneFrame(e: bytes, id: int, payload: bytes)
    requires |e| == 4 && IntOf(e) == id && |payload| < 100
    ensures AllHeaded([e + payload]) && FirstAnswer([e + payload], id) == Some(payload)
    ensures FramesOf([e + payload]) == Ok([0, 0, 0, 4 + |payload|] + e + payload)
  {
    var m := e + payload;
    SmallFrame(m);
    FramesHead(m, []);
    assert [m] + [] == [m];
    assert m[..4] == e && m[4..] == payload;
    assert [0, 0, 0, |m|] + m + [] == [0, 0, 0, |m|] + e + payload;
  }

  /** An answer behind a message for another id. */
  lemma TwoFrames(f: bytes, e: bytes, id: int, payload: bytes)
    requires 4 <= |f| < 256 && IntOf(f[..4]) != id && |e| == 4 && IntOf(e) == id && |payload| < 100
    ensures AllHeaded([f, e + payload]) && FirstAnswer([f, e + payload], id) == Some(payload)
    ensures FramesOf([f, e + payload]) == Ok([0, 0, 0, |f|] + f + ([0, 0, 0, 4 + |payload|] + e + payload))
  {
    OneFrame(e, id, payload);
    SmallFrame(f);
    FramesHead(f, [e + payload]);
    assert [f] + [e + payload] == [f, e + payload];
    assert [f, e + payload][1..] == [e + payload];
  }

  lemma StopsAtOnce(s: bytes)
    requires Turn(s, 0).Left?
    ensures Ends(s) && Received(s).0 == []
  {
  }

  lemma StopsAfterOne(s: bytes)
    requires Turn(s, 0).Running? && !Turn(s, Turn(s, 0).at).Running?
    ensures Ends(s) && Received(s).0 == [MessageAt(s, 0)]
  {
    var q := Turn(s, 0).at;
    assert Walk(s, q, |s| + 1) == ([], Turn(s, q));
    assert [MessageAt(s, 0)] + [] == [MessageAt(s, 0)];
  }

  lemma FateOfOne(message: bytes, id: int)
    ensures FateIn([message], id)
         == if |message| < 4 then Rejected(ConnectionClosed)
            else if IntOf(message[..4]) == id then Resolved(message[4..]) else Pending
  {
  }

  // ------------------------------------------------- fewer than four bytes kept

  /** The size in front of fewer than four kept bytes and a short frame is a multiple of
      256; if it is 0, the next one is out of reach. */
  lemma ShortWalk(kept: bytes, e: bytes)
    requires 1 <= |kept| < 4 && |e| == 4 && e[0] < 128
    ensures var s := kept + ([0, 0, 0, 4] + e);
            Turn(s, 0).Left?
            || (Turn(s, 0).Running? && !Turn(s, Turn(s, 0).at).Running? && MessageAt(s, 0) == [])
  {
    var s := kept + ([0, 0, 0, 4] + e);
    assert s[0..] == s && s[..4] == [s[0], s[1], s[2], 0];
    IntOfFour(s[0], s[1], s[2], 0);
    assert s[4..][..4] == [s[4], s[5], s[6], s[7]];
    IntOfFour(s[4], s[5], s[6], s[7]);
    var b0, b1, b2: int := s[0], s[1], s[2];
    var x := 65536 * (if b0 < 128 then b0 else b0 - 256) + 256 * b1 + b2;
    assert SizeOf(s) == 256 * x;
    if x == 0 {
      ShortTail(kept, e);
    }
  }

  lemma ShortTail(kept: bytes, e: bytes)
    requires 1 <= |kept| < 4 && |e| == 4 && e[0] < 128
    ensures var s := kept + ([0, 0, 0, 4] + e); |s| >= 8 && |s| - 8 < SizeOf(s[4..])
  {
    var s := kept + ([0, 0, 0, 4] + e);
    assert s[4..][..4] == [s[4], s[5], s[6], s[7]];
    IntOfFour(s[4], s[5], s[6], s[7]);
    if |kept| == 1 {
      assert s[4] == 4;
    } else if |kept| == 2 {
      assert s[4] == 0 && s[5] == 4;
    } else {
      assert s[4] == 0 && s[5] == 0 && s[6] == 4;
    }
  }

  lemma ShortSpoils(kept: bytes, id: int) returns (messages: seq<bytes>, payload: bytes)
    requires 1 <= |kept| < 4 && 0 <= id < ID_COUNT
    ensures Spoiled(kept, id, messages, payload)
  {
    var e := IdBytes(id);
    messages, payload := [e + []], [];
    OneFrame(e, id, []);
    assert [0, 0, 0, 4] + e + [] == [0, 0, 0, 4] + e;
    var s := kept + ([0, 0, 0, 4] + e);
    ShortWalk(kept, e);
    if Turn(s, 0).Left? {
      StopsAtOnce(s);
    } else {
      StopsAfterOne(s);
      FateOfOne([], id);
    }
  }

  // ------------------------------------------------- the beginning of a message

  /** A message that needs more than the answer brings is not complete with it. */
  lemma LongSpoils(kept: bytes, id: int) returns (messages: seq<bytes>, payload: bytes)
    requires |kept| >= 4 && SizeOf(kept) > |kept| + 4 && 0 <= id < ID_COUNT
    ensures Spoiled(kept, id, messages, payload)
  {
    var e := IdBytes(id);
    messages, payload := [e + []], [];
    OneFrame(e, id, []);
    var s := kept + FramesOf(messages).value;
    assert s[0..] == s && s[..4] == kept[..4];
    StopsAtOnce(s);
  }

  /** The size read at a place within the frame of a message of 12 bytes. */
  function SizeWithin(f: bytes, r: nat): int
    requires |f| == 12 && r <= 12
  {
    SizeOf(([0, 0, 0, 12] + f)[r..])
  }

  /** Read 1 to 8 bytes late, its size is at least 3072. */
  ghost predicate Filler(f: bytes, id: int) {
    |f| == 12 && IntOf(f[..4]) != id && forall r :: 1 <= r <= 8 ==> SizeWithin(f, r) >= 3072
  }

  lemma FillerSize(last: byte, r: nat)
    requires 126 <= last <= 127 && 1 <= r <= 8
    ensures SizeWithin([127, 127, 127, last, 127, 127, 127, 127, 127, 127, 127, 127], r) >= 3072
  {
    var f: bytes := [127, 127, 127, last, 127, 127, 127, 127, 127, 127, 127, 127];
    var h := [0, 0, 0, 12] + f;
    assert h == [0, 0, 0, 12, 127, 127, 127, last, 127, 127, 127, 127, 127, 127, 127, 127];
    assert h[r..][..4] == [h[r], h[r + 1], h[r + 2], h[r + 3]];
    IntOfFour(h[r], h[r + 1], h[r + 2], h[r + 3]);
    assert h[r] < 128 && h[r + 2] >= 12;
  }

  /** A message of large bytes for another id. */
  lemma FillerFor(id: int) returns (f: bytes)
    requires 0 <= id < ID_COUNT
    ensures Filler(f, id)
  {
    var e := IdBytes(id);
    var last: byte := if e == [127, 127, 127, 127] then 126 else 127;
    f := [127, 127, 127, last, 127, 127, 127, 127, 127, 127, 127, 127];
    assert f[..4] == [127, 127, 127, last];
    forall r | 1 <= r <= 8 ensures SizeWithin(f, r) >= 3072 {
      FillerSize(last, r);
    }
  }

  /** The kept message ends within the filler's frame, and the next size is out of reach. */
  lemma FilledWalk(kept: bytes, f: bytes, id: int, tail: bytes)
    requires |kept| >= 4 && |kept| - 4 < SizeOf(kept) <= |kept| + 4 && Filler(f, id) && |tail| < 100
    ensures var s := kept + ([0, 0, 0, 12] + f + tail);
            Turn(s, 0).Running? && Turn(s, Turn(s, 0).at).Left? && |MessageAt(s, 0)| == SizeOf(kept)
  {
    var h := [0, 0, 0, 12] + f;
    var s := kept + (h + tail);
    var q := 4 + SizeOf(kept);
    var r := q - |kept|;
    assert s[0..] == s && s[..4] == kept[..4];
    assert s[q..][..4] == h[r..][..4];
    assert SizeWithin(f, r) >= 3072;
  }

  /** What the message completed by the filler does to the request is not what the answer
      would do. */
  lemma FilledSpoils(kept: bytes, id: int) returns (messages: seq<bytes>, payload: bytes)
    requires |kept| >= 4 && |kept| - 4 < SizeOf(kept) <= |kept| + 4 && 0 <= id < ID_COUNT
    ensures Spoiled(kept, id, messages, payload)
  {
    var e := IdBytes(id);
    var f := FillerFor(id);
    payload := if SizeOf(kept) == 4 then [0] else [];
    messages := [f, e + payload];
    var tail := [0, 0, 0, 4 + |payload|] + e + payload;
    TwoFrames(f, e, id, payload);
    var s := kept + ([0, 0, 0, 12] + f + tail);
    FilledWalk(kept, f, id, tail);
    StopsAfterOne(s);
    FateOfOne(MessageAt(s, 0), id);
  }

  // ------------------------------------------------- a stream on which the loop threw

  lemma {:induction false} WalkLonger(s: bytes, at: int, n: nat, m: nat)
    requires n <= m && !Walk(s, at, n).1.Running?
    ensures Walk(s, at, m) == Walk(s, at, n)
    decreases n
  {
    if n > 0 && Turn(s, at).Running? {
      WalkLonger(s, Turn(s, at).at, n - 1, m - 1);
    }
  }

  /** Equal but for what comes behind the first five bytes. */
  predicate SameStart(a: bytes, b: bytes) {
    |a| == |b| && forall j :: 0 <= j < |a| && j < 5 ==> a[j] == b[j]
  }

  ghost predicate AllSameStart(a: seq<bytes>, b: seq<bytes>) {
    |a| == |b| && forall i :: 0 <= i < |a| ==> SameStart(a[i], b[i])
  }

  lemma {:induction false} SameFate(a: seq<bytes>, b: seq<bytes>, id: int, x: byte)
    requires AllSameStart(a, b) && FateIn(a, id) == Resolved([x])
    ensures FateIn(b, id) == Resolved([x])
  {
    assert SameStart(a[0], b[0]);
    if |a[0]| >= 4 {
      assert a[0][..4] == b[0][..4];
      if IntOf(a[0][..4]) == id {
        assert |a[0][4..]| == 1 && a[0][4..][0] == a[0][4];
        assert b[0][4..] == [x];
      } else {
        SameFate(a[1..], b[1..], id, x);
      }
    }
  }

  /** One turn within the kept bytes, whatever follows them. */
  lemma TurnWithin(kept: bytes, s: bytes, at: int)
    requires Turn(kept, at).Running? && kept <= s
    ensures Turn(s, at) == Turn(kept, at) && 0 <= at && at + 4 <= |kept| && Turn(kept, at).at <= |kept|
  {
    assert s[at..][..4] == kept[at..][..4];
  }

  lemma MessageWithin(kept: bytes, s: bytes, t: bytes, at: int)
    requires Turn(kept, at).Running? && kept <= s && kept <= t && |s| == |t| >= |kept| + 8
    requires s[..|kept| + 8] == t[..|kept| + 8]
    ensures Turn(s, at).Running? && Turn(t, at).Running? && SameStart(MessageAt(s, at), MessageAt(t, at))
  {
    TurnWithin(kept, s, at);
    TurnWithin(kept, t, at);
    var a, b, next := MessageAt(s, at), MessageAt(t, at), Turn(kept, at).at;
    assert a == Slice(s, at + 4, next) && b == Slice(t, at + 4, next);
    forall j | 0 <= j < |a| && j < 5 ensures a[j] == b[j] {
      assert a[j] == s[at + 4 + j] == s[..|kept| + 8][at + 4 + j];
      assert b[j] == t[at + 4 + j] == t[..|kept| + 8][at + 4 + j];
    }
  }

  /** Where the loop throws on the kept bytes alone, it throws whatever follows them, and
      the messages taken differ at most behind their first five bytes. */
  lemma {:induction false} ThrowsAgain(kept: bytes, s: bytes, t: bytes, at: int, n: nat)
    requires Walk(kept, at, n).1 == Thrown && kept <= s && kept <= t && |s| == |t| >= |kept| + 8
    requires s[..|kept| + 8] == t[..|kept| + 8]
    ensures Walk(s, at, n).1 == Walk(t, at, n).1 == Thrown && AllSameStart(Walk(s, at, n).0, Walk(t, at, n).0)
    decreases n
  {
    if Turn(kept, at).Running? {
      MessageWithin(kept, s, t, at);
      TurnWithin(kept, s, at);
      TurnWithin(kept, t, at);
      ThrowsAgain(kept, s, t, Turn(kept, at).at, n - 1);
    }
  }

  lemma Jammed(kept: bytes, s: bytes, t: bytes)
    requires Received(kept).1 == Thrown && kept <= s && kept <= t && |s| == |t| >= |kept| + 8
    requires s[..|kept| + 8] == t[..|kept| + 8]
    ensures Ends(s) && Ends(t) && AllSameStart(Received(s).0, Received(t).0)
  {
    var n := |kept| + 2;
    ThrowsAgain(kept, s, t, 0, n);
    WalkLonger(s, 0, n, |s| + 2);
    WalkLonger(t, 0, n, |t| + 2);
  }

  lemma JamSpoils(kept: bytes, id: int) returns (messages: seq<bytes>, payload: bytes)
    requires Received(kept).1 == Thrown && 0 <= id < ID_COUNT
    ensures Spoiled(kept, id, messages, payload)
  {
    var e := IdBytes(id);
    OneFrame(e, id, [0]);
    OneFrame(e, id, [1]);
    var s, t := kept + ([0, 0, 0, 5] + e + [0]), kept + ([0, 0, 0, 5] + e + [1]);
    assert s[..|kept| + 8] == kept + ([0, 0, 0, 5] + e) == t[..|kept| + 8];
    Jammed(kept, s, t);
    if FateIn(Received(s).0, id) == Resolved([0]) {
      SameFate(Received(s).0, Received(t).0, id, 0);
      messages, payload := [e + [1]], [1];
    } else {
      messages, payload := [e + [0]], [0];
    }
  }

  // -------------------------------------------------------------------- the rule

  /** Whatever is kept, some first answer goes astray. */
  lemma AnyResidueSpoils(kept: bytes, id: int) returns (messages: seq<bytes>, payload: bytes)
    requires kept != [] && Residue(kept) && 0 <= id < ID_COUNT
    ensures Spoiled(kept, id, messages, payload)
  {
    if Received(kept).1 == Thrown {
      messages, payload := JamSpoils(kept, id);
    } else if |kept| < 4 {
      messages, payload := ShortSpoils(kept, id);
    } else if SizeOf(kept) > |kept| + 4 {
      messages, payload := LongSpoils(kept, id);
    } else {
      messages, payload := FilledSpoils(kept, id);
    }
  }

  /** The first of the messages with the promise's id resolves it. */
  ghost predicate FirstAnswerArrives(cfg: Config, c: Conn, s: nat, p: nat, messages: seq<bytes>, chunks: seq<bytes>) {
    var d := Run(cfg, c, DataEvents(s, chunks));
    p < |c.births| && p < |d.promises|
    && FirstAnswer(messages, IdOf(c.births[p])).Some?
    && d.promises[p] == Resolved(FirstAnswer(messages, IdOf(c.births[p])).value)
  }

  ghost predicate Answered(c: Conn, p: nat, messages: seq<bytes>) {
    p < |c.births| && FirstAnswer(messages, IdOf(c.births[p])).Some?
  }

  lemma NothingKeptArrives(cfg: Config, c: Conn, s: nat, p: nat, messages: seq<bytes>, chunks: seq<bytes>)
    requires Invariant(c) && p < |c.promises| && c.promises[p].Pending? && Kept(c) == []
    requires Framed(messages, chunks) && Answered(c, p, messages)
    ensures FirstAnswerArrives(cfg, c, s, p, messages, chunks)
  {
    ResponsesReachTheirRequests(cfg, c, s, messages, chunks);
    assert Waits(c, p);
    var id := IdOf(c.births[p]);
    assert OutcomeOf(c, Run(cfg, c, DataEvents(s, chunks)), id, FirstAnswer(messages, id));
  }

  lemma SpoiledGoesAstray(cfg: Config, c: Conn, s: nat, p: nat, messages: seq<bytes>, payload: bytes)
    requires Invariant(c) && p < |c.promises| && c.promises[p].Pending? && s in c.live && s !in c.pending
    requires Spoiled(Kept(c), IdOf(c.births[p]), messages, payload)
    ensures var chunks := [FramesOf(messages).value];
            Framed(messages, chunks) && Answered(c, p, messages) && AllowedRun(cfg, c, DataEvents(s, chunks))
            && !FirstAnswerArrives(cfg, c, s, p, messages, chunks)
  {
    var data := FramesOf(messages).value;
    FlattenOne(data);
    OneDataEvent(cfg, c, s, data);
    MessagesDecide(c, Received(Kept(c) + data).0, p);
  }

  lemma OneDataEvent(cfg: Config, c: Conn, s: nat, data: bytes)
    ensures Run(cfg, c, DataEvents(s, [data])) == HandleData(c, data)
    ensures AllowedRun(cfg, c, DataEvents(s, [data])) <==> Allowed(c, Data(s, data))
  {
  }

  /** On an established connection of any run, a waiting request gets its first answer from
      every list of framed responses, in whatever chunks, if and only if no byte was kept
      from before. */
  lemma AnswersArriveIff(cfg: Config, now: int, es: seq<Event>, s: nat, p: nat)
    requires AllowedRun(cfg, Fresh(now), es)
    requires var c := Run(cfg, Fresh(now), es);
             p < |c.promises| && c.promises[p].Pending? && s in c.live && s !in c.pending
    ensures var c := Run(cfg, Fresh(now), es);
            (forall messages, chunks ::
               Framed(messages, chunks) && Answered(c, p, messages) && AllowedRun(cfg, c, DataEvents(s, chunks)) ==>
                 FirstAnswerArrives(cfg, c, s, p, messages, chunks))
            <==> Kept(c) == []
  {
    var c := Run(cfg, Fresh(now), es);
    FreshIsValid(now);
    RunKeeps(cfg, Fresh(now), es);
    RunKeepsResidue(cfg, Fresh(now), es);
    if Kept(c) == [] {
      forall messages, chunks | Framed(messages, chunks) && Answered(c, p, messages)
        ensures FirstAnswerArrives(cfg, c, s, p, messages, chunks)
      {
        NothingKeptArrives(cfg, c, s, p, messages, chunks);
      }
    } else {
      var messages, payload := AnyResidueSpoils(Kept(c), IdOf(c.births[p]));
      SpoiledGoesAstray(cfg, c, s, p, messages, payload);
    }
  }

  /** A connection that ends within a message leaves its bytes to the next one: so a run
      comes to be connected with a byte kept. */
  lemma KeptByteIsReached(cfg: Config, now: int)
    ensures var es := [ConnectCall, SocketConnected(0), Data(0, [0]), SocketEnd(0), ConnectCall, SocketConnected(1)];
            var c := Run(cfg, Fresh(now), es);
            AllowedRun(cfg, Fresh(now), es) && IsConnected(c) && Kept(c) == [0] && 1 in c.live && 1 !in c.pending
  {
    StopsAtOnce([0]);
  }
}
