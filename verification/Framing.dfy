/** The length-prefixed stream: how received bytes are cut into messages. */
module Framing {
  import opened Results
  import opened Bytes

  /** The signed size in front of a message. */
  function SizeOf(s: bytes): int
    requires |s| >= 4
  {
    IntOf(s[..4])
  }

  /** The loop takes one more message off `s`: the prefix is there, the message is
      complete, and taking it moves forward. */
  predicate Takes(s: bytes) {
    |s| >= 4 && |s| - 4 >= SizeOf(s) && SizeOf(s) > -4
  }

  /** A complete prefix of -4 or less: the loop would not move forward. */
  predicate Stuck(s: bytes) {
    |s| >= 4 && SizeOf(s) <= -4
  }

  /** The message a turn of the loop hands on. A negative size slices an empty one. */
  function MessageOf(s: bytes): bytes
    requires Takes(s)
  {
    if SizeOf(s) < 0 then [] else s[4..4 + SizeOf(s)]
  }

  /** All messages the loop takes off `s`, and the bytes it leaves. */
  function Split(s: bytes): (r: (seq<bytes>, bytes))
    ensures !Takes(r.1)
    decreases |s|
  {
    if Takes(s) then
      var (messages, rest) := Split(s[4 + SizeOf(s)..]);
      ([MessageOf(s)] + messages, rest)
    else ([], s)
  }

  function FrameOf(message: bytes): Result<bytes> {
    var size :- PutInt(4, |message|);
    Ok(size + message)
  }

  function FramesOf(messages: seq<bytes>): Result<bytes> {
    if messages == [] then Ok([])
    else
      var first :- FrameOf(messages[0]);
      var rest :- FramesOf(messages[1..]);
      Ok(first + rest)
  }

  // ------------------------------------------------------------------- chunks

  /** Receiving `more` later instead of now changes nothing: the messages of the first
      part, then those of its rest joined with the new bytes. */
  lemma {:induction false} SplitResumes(s: bytes, more: bytes)
    ensures var (first, rest) := Split(s);
            var (second, end) := Split(rest + more);
            Split(s + more) == (first + second, end)
    decreases |s|
  {
    if Takes(s) {
      TakesMore(s, more);
      var tail := s[4 + SizeOf(s)..];
      SplitResumes(tail, more);
      SplitStep(s, more);
      Assoc([MessageOf(s)], Split(tail).0, Split(Split(tail).1 + more).0);
    } else {
      assert [] + Split(s + more).0 == Split(s + more).0;
    }
  }

  /** A complete prefix of -4 or less stays in front whatever follows. */
  lemma StuckStays(s: bytes, more: bytes)
    requires Stuck(Split(s).1)
    ensures Stuck(Split(s + more).1)
  {
    var rest := Split(s).1;
    SplitResumes(s, more);
    assert (rest + more)[..4] == rest[..4];
  }

  lemma TakesMore(s: bytes, more: bytes)
    requires Takes(s)
    ensures Takes(s + more) && SizeOf(s + more) == SizeOf(s) && MessageOf(s + more) == MessageOf(s)
    ensures (s + more)[4 + SizeOf(s)..] == s[4 + SizeOf(s)..] + more
  {
    assert (s + more)[..4] == s[..4];
  }

  lemma SplitStep(s: bytes, more: bytes)
    requires Takes(s)
    ensures var tail := s[4 + SizeOf(s)..];
            Split(s).0 == [MessageOf(s)] + Split(tail).0 && Split(s).1 == Split(tail).1
            && Split(s + more).0 == [MessageOf(s)] + Split(tail + more).0 && Split(s + more).1 == Split(tail + more).1
  {
    TakesMore(s, more);
  }

  /** The messages and the leftover of receiving the chunks one by one, starting with
      `kept` from before. */
  function SplitChunks(kept: bytes, chunks: seq<bytes>): (seq<bytes>, bytes)
    decreases |chunks|
  {
    if chunks == [] then ([], kept)
    else
      var (first, rest) := Split(kept + chunks[0]);
      var (later, end) := SplitChunks(rest, chunks[1..]);
      (first + later, end)
  }

  /** However a stream is cut into chunks, empty ones included, the messages delivered
      and the bytes kept are those of receiving it at once. */
  lemma {:induction false} SplitIgnoresChunking(kept: bytes, chunks: seq<bytes>)
    requires !Takes(kept)
    ensures SplitChunks(kept, chunks) == Split(kept + Flatten(chunks))
    decreases |chunks|
  {
    if chunks == [] {
      assert kept + [] == kept;
    } else {
      var rest := Split(kept + chunks[0]).1;
      SplitIgnoresChunking(rest, chunks[1..]);
      SplitResumes(kept + chunks[0], Flatten(chunks[1..]));
      assert kept + chunks[0] + Flatten(chunks[1..]) == kept + Flatten(chunks);
    }
  }

  // ------------------------------------------------------------- conservation

  /** No message was cut with a negative size. */
  predicate SizesNonNegative(s: bytes)
    decreases |s|
  {
    Takes(s) ==> SizeOf(s) >= 0 && SizesNonNegative(s[4 + SizeOf(s)..])
  }

  lemma FrameOfMessage(s: bytes)
    requires Takes(s) && SizeOf(s) >= 0
    ensures FrameOf(MessageOf(s)) == Ok(s[..4 + SizeOf(s)])
  {
    IntBytesOf(s[..4]);
    assert |MessageOf(s)| == SizeOf(s);
    assert s[..4] + s[4..4 + SizeOf(s)] == s[..4 + SizeOf(s)];
  }

  /** A frame is never shorter than what a turn of the loop consumes. */
  lemma {:induction false} FramesCoverStream(s: bytes)
    ensures var (messages, rest) := Split(s);
            FramesOf(messages).Ok? ==> |FramesOf(messages).value| + |rest| >= |s|
    ensures var (messages, rest) := Split(s);
            !SizesNonNegative(s) && FramesOf(messages).Ok? ==> |FramesOf(messages).value| + |rest| > |s|
    decreases |s|
  {
    if Takes(s) {
      var tail := s[4 + SizeOf(s)..];
      FramesCoverStream(tail);
      SplitStep(s, []);
      FramesHead(MessageOf(s), Split(tail).0);
      FrameSize(MessageOf(s));
      assert |tail| == |s| - 4 - SizeOf(s);
    }
  }

  lemma FrameSize(message: bytes)
    ensures FrameOf(message).Ok? ==> |FrameOf(message).value| == 4 + |message|
  {
  }

  lemma FramesHead(first: bytes, messages: seq<bytes>)
    ensures FramesOf([first] + messages).Ok? <==> FrameOf(first).Ok? && FramesOf(messages).Ok?
    ensures FramesOf([first] + messages).Ok? ==>
              FramesOf([first] + messages).value == FrameOf(first).value + FramesOf(messages).value
  {
  }

  lemma {:induction false} FramesRebuild(s: bytes)
    requires SizesNonNegative(s)
    ensures var (messages, rest) := Split(s);
            FramesOf(messages).Ok? && FramesOf(messages).value + rest == s
    decreases |s|
  {
    if Takes(s) {
      var tail := s[4 + SizeOf(s)..];
      FramesRebuild(tail);
      SplitStep(s, []);
      FrameOfMessage(s);
      FramesHead(MessageOf(s), Split(tail).0);
      Rejoin(s, 4 + SizeOf(s), FramesOf(Split(tail).0).value, Split(tail).1);
    } else {
      assert [] + s == s;
    }
  }

  lemma Rejoin(s: bytes, k: nat, middle: bytes, end: bytes)
    requires k <= |s| && middle + end == s[k..]
    ensures s[..k] + middle + end == s
  {
  }

  /** Received bytes are conserved - the delivered messages framed again, then the bytes
      kept, are the stream - exactly when no message was cut with a negative size. */
  lemma ConservedIff(s: bytes)
    ensures var (messages, rest) := Split(s);
            (FramesOf(messages).Ok? && FramesOf(messages).value + rest == s) <==> SizesNonNegative(s)
  {
    if SizesNonNegative(s) {
      FramesRebuild(s);
    } else {
      FramesCoverStream(s);
    }
  }

  /** Any sequence of frames splits back into its messages, leaving whatever follows to
      be split on its own. */
  lemma {:induction false} FramesSplitBack(messages: seq<bytes>, more: bytes)
    requires FramesOf(messages).Ok?
    ensures Split(FramesOf(messages).value + more) == (messages + Split(more).0, Split(more).1)
  {
    if messages == [] {
      assert [] + more == more && [] + Split(more).0 == Split(more).0;
    } else {
      var first, rest := FrameOf(messages[0]).value, FramesOf(messages[1..]).value;
      Assoc(first, rest, more);
      FrameTaken(messages[0], rest + more);
      FramesSplitBack(messages[1..], more);
      Assoc([messages[0]], messages[1..], Split(more).0);
      assert messages == [messages[0]] + messages[1..];
    }
  }

  lemma FrameTaken(message: bytes, more: bytes)
    requires FrameOf(message).Ok?
    ensures Split(FrameOf(message).value + more) == ([message] + Split(more).0, Split(more).1)
  {
    var s := FrameOf(message).value + more;
    IntOfBytes(4, |message|);
    assert s[..4] == IntBytes(4, |message|);
    assert s[4..4 + |message|] == message;
    assert s[4 + |message|..] == more;
  }
}
