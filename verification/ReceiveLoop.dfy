/** The loop over received bytes turn by turn, on every stream: where it takes messages
    beyond those of the split, and when it ends. */
module ReceiveLoop {
  import opened Results
  import opened Bytes
  import opened Framing

  /** In the loop at a position, out of it at a position, or out of it by an exception. */
  datatype Position = Running(at: int) | Left(at: int) | Thrown

  /** One turn. A size below -4 moves the position back, before the start if it is low
      enough, and reading a size there throws. */
  function Turn(s: bytes, at: int): Position {
    if at >= |s| || |s| - at < 4 then Left(at)
    else if at < 0 then Thrown
    else if |s| - at - 4 < SizeOf(s[at..]) then Left(at)
    else Running(at + 4 + SizeOf(s[at..]))
  }

  /** The message a turn hands on; its end may count from the back of the stream. */
  function MessageAt(s: bytes, at: int): bytes
    requires Turn(s, at).Running?
  {
    Slice(s, at + 4, at + 4 + SizeOf(s[at..]))
  }

  /** Up to `n` turns from a position: the messages handed on and where they lead. */
  function Walk(s: bytes, at: int, n: nat): (seq<bytes>, Position)
    decreases n
  {
    if n == 0 then ([], Running(at))
    else
      match Turn(s, at)
      case Running(next) =>
        var (messages, end) := Walk(s, next, n - 1);
        ([MessageAt(s, at)] + messages, end)
      case end => ([], end)
  }

  /** The loop is out within two turns more than the stream has bytes. */
  predicate Ends(s: bytes) {
    !Walk(s, 0, |s| + 2).1.Running?
  }

  /** What the loop makes of a stream on which it ends. */
  function Received(s: bytes): (seq<bytes>, Position) {
    Walk(s, 0, |s| + 2)
  }

  /** A turn moves forward exactly if the size is above -4, which is when it takes a message
      of the split, and stands still exactly at -4. */
  lemma TurnAdvancesIff(s: bytes, at: nat)
    requires Turn(s, at).Running?
    ensures Turn(s, at).at > at <==> SizeOf(s[at..]) > -4
    ensures Turn(s, at).at > at <==> Takes(s[at..])
    ensures Turn(s, at).at == at <==> SizeOf(s[at..]) == -4
  {
  }

  /** The message of a turn: as many bytes as its size says; for a negative size none, unless
      its end is in front of the stream, where it counts from the back. */
  lemma WhatATurnTakes(s: bytes, at: nat)
    requires Turn(s, at).Running?
    ensures var size, end := SizeOf(s[at..]), at + 4 + SizeOf(s[at..]);
            Turn(s, at) == Running(end)
            && MessageAt(s, at) == if size >= 0 then s[at + 4..end]
                                   else if end < 0 && at + 4 < |s| + end then s[at + 4..|s| + end]
                                   else []
  {
  }

  // ------------------------------------------------------------ well-formed sizes

  lemma TurnTakes(s: bytes, at: int)
    requires 0 <= at <= |s| && Takes(s[at..])
    ensures var next := at + 4 + SizeOf(s[at..]);
            Turn(s, at) == Running(next) && at < next <= |s|
            && Split(s[at..]) == ([MessageAt(s, at)] + Split(s[next..]).0, Split(s[next..]).1)
  {
    var t, size := s[at..], SizeOf(s[at..]);
    assert t[4 + size..] == s[at + 4 + size..];
    if size >= 0 {
      assert t[4..4 + size] == s[at + 4..at + 4 + size];
    }
  }

  lemma {:induction false} WalkSplits(s: bytes, at: int, n: nat)
    requires 0 <= at <= |s| && !Stuck(Split(s[at..]).1) && n > |s| - at
    ensures Walk(s, at, n) == (Split(s[at..]).0, Left(|s| - |Split(s[at..]).1|))
    decreases n
  {
    if Takes(s[at..]) {
      TurnTakes(s, at);
      WalkSplits(s, at + 4 + SizeOf(s[at..]), n - 1);
    }
  }

  /** As long as no complete size of -4 or less is in front of the leftover, the loop ends
      and takes exactly the messages of the split. */
  lemma SplitIsReceived(s: bytes)
    requires !Stuck(Split(s).1)
    ensures Ends(s) && Received(s) == (Split(s).0, Left(|s| - |Split(s).1|))
  {
    assert s[0..] == s;
    WalkSplits(s, 0, |s| + 2);
  }

  // ---------------------------------------------------------- positions over time

  function Next(s: bytes, p: Position): Position {
    if p.Running? then Turn(s, p.at) else p
  }

  /** The position after `n` turns. */
  function After(s: bytes, p: Position, n: nat): Position {
    if n == 0 then p else Next(s, After(s, p, n - 1))
  }

  lemma {:induction false} AfterTwice(s: bytes, p: Position, m: nat, n: nat)
    ensures After(s, After(s, p, m), n) == After(s, p, m + n)
  {
    if n > 0 {
      AfterTwice(s, p, m, n - 1);
    }
  }

  lemma {:induction false} StaysOut(s: bytes, p: Position, n: nat)
    requires !p.Running?
    ensures After(s, p, n) == p
  {
    if n > 0 {
      StaysOut(s, p, n - 1);
    }
  }

  lemma {:induction false} WalkIsAfter(s: bytes, at: int, n: nat)
    ensures Walk(s, at, n).1 == After(s, Running(at), n)
    decreases n
  {
    if n > 0 {
      var p := Turn(s, at);
      AfterTwice(s, Running(at), 1, n - 1);
      assert After(s, Running(at), 1) == Next(s, After(s, Running(at), 0)) == p;
      if p.Running? {
        WalkIsAfter(s, p.at, n - 1);
      } else {
        StaysOut(s, p, n - 1);
      }
    }
  }

  lemma OutStaysOut(s: bytes, p: Position, m: nat, n: nat)
    requires m <= n && After(s, p, n).Running?
    ensures After(s, p, m).Running?
  {
  }

  // --------------------------------------------------------------- when it ends

  /** The loop comes back to a position it was at before. */
  ghost predicate Repeats(s: bytes, i: nat, j: nat) {
    i < j && After(s, Running(0), i).Running? && After(s, Running(0), i) == After(s, Running(0), j)
  }

  lemma {:induction false} Cycles(s: bytes, p: Position, d: nat, k: nat) returns (m: nat)
    requires d > 0 && After(s, p, d) == p
    ensures m >= k && After(s, p, m) == p
  {
    m := 0;
    if k > 0 {
      var m' := Cycles(s, p, d, k - 1);
      AfterTwice(s, p, m', d);
      m := m' + d;
    }
  }

  lemma RepeatingNeverEnds(s: bytes, i: nat, j: nat, n: nat)
    requires Repeats(s, i, j)
    ensures After(s, Running(0), n).Running?
  {
    var p := After(s, Running(0), i);
    AfterTwice(s, Running(0), i, j - i);
    var m := Cycles(s, p, j - i, n);
    AfterTwice(s, Running(0), i, m);
    OutStaysOut(s, Running(0), n, i + m);
  }

  /** The first `n` positions, all of them inside the loop. */
  ghost function Trail(s: bytes, n: nat): seq<int>
    requires After(s, Running(0), n).Running?
  {
    seq(n, k requires 0 <= k < n => OutStaysOut(s, Running(0), k, n); After(s, Running(0), k).at)
  }

  lemma TrailInside(s: bytes, n: nat, k: nat)
    requires After(s, Running(0), n).Running? && k < n
    ensures 0 <= Trail(s, n)[k] < |s|
  {
  }

  /** More numbers below `m` than `m`: two are the same. */
  lemma {:induction false} Pigeonhole(xs: seq<int>, m: nat) returns (i: nat, j: nat)
    requires |xs| > m && forall k :: 0 <= k < |xs| ==> 0 <= xs[k] < m
    ensures i < j < |xs| && xs[i] == xs[j]
    decreases m
  {
    if a, b :| 0 <= a < b < |xs| && xs[a] == xs[b] == m - 1 {
      i, j := a, b;
    } else if a :| 0 <= a < |xs| && xs[a] == m - 1 {
      var rest := xs[..a] + xs[a + 1..];
      assert forall k :: 0 <= k < |rest| ==> rest[k] == xs[if k < a then k else k + 1];
      var i', j' := Pigeonhole(rest, m - 1);
      i, j := if i' < a then i' else i' + 1, if j' < a then j' else j' + 1;
    } else {
      assert m > 0 by {
        assert 0 <= xs[0] < m;
      }
      i, j := Pigeonhole(xs, m - 1);
    }
  }

  lemma LongWalkRepeats(s: bytes) returns (i: nat, j: nat)
    requires After(s, Running(0), |s| + 2).Running?
    ensures j <= |s| + 1 && Repeats(s, i, j)
  {
    var n := |s| + 2;
    forall k | 0 <= k < n ensures 0 <= Trail(s, n)[k] < |s| {
      TrailInside(s, n, k);
    }
    i, j := Pigeonhole(Trail(s, n), |s|);
    OutStaysOut(s, Running(0), i, n);
    OutStaysOut(s, Running(0), j, n);
  }

  /** On every stream the loop ends if and only if it does not come back to a position, and
      then it is out within two turns more than the stream has bytes: there is a bound
      that tells. */
  lemma EndsIff(s: bytes)
    ensures Ends(s) <==> exists n: nat :: !After(s, Running(0), n).Running?
    ensures !Ends(s) <==> exists i: nat, j: nat :: j <= |s| + 1 && Repeats(s, i, j)
  {
    WalkIsAfter(s, 0, |s| + 2);
    if Ends(s) {
      forall i: nat, j: nat ensures !Repeats(s, i, j) {
        if Repeats(s, i, j) {
          RepeatingNeverEnds(s, i, j, |s| + 2);
        }
      }
    } else {
      var i, j := LongWalkRepeats(s);
      forall n: nat ensures After(s, Running(0), n).Running? {
        RepeatingNeverEnds(s, i, j, n);
      }
    }
  }

  // ----------------------------------------------------------- sizes of -4 and less

  /** Every stream leads to the leftover of its split first. */
  lemma {:induction false} ReachesLeftover(s: bytes, at: int) returns (k: nat)
    requires 0 <= at <= |s|
    ensures After(s, Running(at), k) == Running(|s| - |Split(s[at..]).1|)
    decreases |s| - at
  {
    if Takes(s[at..]) {
      TurnTakes(s, at);
      var next := at + 4 + SizeOf(s[at..]);
      var m := ReachesLeftover(s, next);
      AfterTwice(s, Running(at), 1, m);
      assert After(s, Running(at), 1) == Next(s, After(s, Running(at), 0)) == Running(next);
      k := m + 1;
    } else {
      k := 0;
    }
  }

  lemma LeftoverIsSuffix(s: bytes)
    ensures |Split(s).1| <= |s| && Split(s).1 == s[|s| - |Split(s).1|..]
    decreases |s|
  {
  }

  /** The turn on a stuck leftover, and when it is reached. */
  lemma StuckTurn(s: bytes) returns (k: nat, at: nat)
    requires Stuck(Split(s).1)
    ensures at == |s| - |Split(s).1| && After(s, Running(0), k) == Running(at)
    ensures |s| >= 4 && Turn(s, at) == Running(at + 4 + SizeOf(Split(s).1))
  {
    assert s[0..] == s;
    LeftoverIsSuffix(s);
    k := ReachesLeftover(s, 0);
    at := |s| - |Split(s).1|;
  }

  lemma StillNeverEnds(s: bytes, k: nat, at: nat)
    requires After(s, Running(0), k) == Running(at) && Turn(s, at) == Running(at)
    ensures !Ends(s)
  {
    assert Repeats(s, k, k + 1);
    RepeatingNeverEnds(s, k, k + 1, |s| + 2);
    WalkIsAfter(s, 0, |s| + 2);
  }

  /** Among the streams whose leftover starts with no complete size below -4, the loop ends
      if and only if that size is not -4. */
  lemma EndsIffNotMinusFour(s: bytes)
    requires Stuck(Split(s).1) ==> SizeOf(Split(s).1) == -4
    ensures Ends(s) <==> !Stuck(Split(s).1)
  {
    if Stuck(Split(s).1) {
      var k, at := StuckTurn(s);
      StillNeverEnds(s, k, at);
    } else {
      SplitIsReceived(s);
    }
  }

  /** Where the loop is out, it stays, and this is what is received. */
  lemma OutIsReceived(s: bytes, m: nat)
    requires !After(s, Running(0), m).Running?
    ensures Ends(s) && Received(s).1 == After(s, Running(0), m)
  {
    var n := |s| + 2;
    EndsIff(s);
    WalkIsAfter(s, 0, n);
    if m <= n {
      AfterTwice(s, Running(0), m, n - m);
      StaysOut(s, After(s, Running(0), m), n - m);
    } else {
      AfterTwice(s, Running(0), n, m - n);
      StaysOut(s, After(s, Running(0), n), m - n);
    }
  }

  lemma BeforeStartThrows(s: bytes, k: nat, at: nat, low: int)
    requires After(s, Running(0), k) == Running(at) && Turn(s, at) == Running(low) && low < 0 && |s| >= 4
    ensures Ends(s) && Received(s).1 == Thrown
  {
    assert After(s, Running(0), k + 1) == Running(low);
    assert After(s, Running(0), k + 2) == Thrown;
    OutIsReceived(s, k + 2);
  }

  /** A size that leads before the start of the stream ends the loop with an exception. */
  lemma JumpBeforeStartThrows(s: bytes)
    requires Stuck(Split(s).1) && |s| - |Split(s).1| + 4 + SizeOf(Split(s).1) < 0
    ensures Ends(s) && Received(s).1 == Thrown
  {
    var k, at := StuckTurn(s);
    BeforeStartThrows(s, k, at, at + 4 + SizeOf(Split(s).1));
  }

  lemma IntOfFour(a: byte, b: byte, c: byte, d: byte)
    ensures IntOf([a, b, c, d]) == 256 * (256 * (256 * (if a < 128 then a else a - 256) + b) + c) + d
  {
    var s1: bytes, s2: bytes, s3: bytes := [a], [a, b], [a, b, c];
    assert s2[..1] == s1 && IntOf(s2) == 256 * IntOf(s1) + b;
    assert s3[..2] == s2 && IntOf(s3) == 256 * IntOf(s2) + c;
    assert [a, b, c, d][..3] == s3 && IntOf([a, b, c, d]) == 256 * IntOf(s3) + d;
  }

  /** A size of -8 behind a message of 4 bytes leads into the middle of that message, where
      the next size is out of reach: the loop ends, though the leftover of the split
      starts with a complete size below -4. */
  lemma SomeBackwardJumpsEnd()
    ensures var s := [0, 0, 0, 4, 0x7F, 0xFF, 0xFF, 0xFF, 0xFF, 0xFF, 0xFF, 0xF8];
            Stuck(Split(s).1) && Ends(s) && Received(s).1 == Left(4)
  {
    var s: bytes := [0, 0, 0, 4, 0x7F, 0xFF, 0xFF, 0xFF, 0xFF, 0xFF, 0xFF, 0xF8];
    IntOfFour(0, 0, 0, 4);
    IntOfFour(0xFF, 0xFF, 0xFF, 0xF8);
    IntOfFour(0x7F, 0xFF, 0xFF, 0xFF);
    assert s[0..] == s && s[..4] == [0, 0, 0, 4];
    assert s[8..][..4] == [0xFF, 0xFF, 0xFF, 0xF8] && s[4..][..4] == [0x7F, 0xFF, 0xFF, 0xFF];
    assert Takes(s) && !Takes(s[8..]) && Split(s).1 == Split(s[8..]).1 == s[8..];
    assert After(s, Running(0), 0) == Running(0);
    assert After(s, Running(0), 1) == Running(8);
    assert After(s, Running(0), 2) == Running(4);
    assert After(s, Running(0), 3) == Left(4);
    OutIsReceived(s, 3);
  }

  /** The same size behind an empty message leads back to the start, over and over. */
  lemma SomeBackwardJumpsDoNot()
    ensures var s := [0, 0, 0, 0, 0xFF, 0xFF, 0xFF, 0xF8]; Stuck(Split(s).1) && !Ends(s)
  {
    var s: bytes := [0, 0, 0, 0, 0xFF, 0xFF, 0xFF, 0xF8];
    IntOfFour(0, 0, 0, 0);
    IntOfFour(0xFF, 0xFF, 0xFF, 0xF8);
    assert s[0..] == s && s[..4] == [0, 0, 0, 0];
    assert s[4..][..4] == [0xFF, 0xFF, 0xFF, 0xF8];
    assert Takes(s) && !Takes(s[4..]) && Split(s).1 == Split(s[4..]).1 == s[4..];
    assert After(s, Running(0), 0) == Running(0);
    assert After(s, Running(0), 1) == Running(4);
    assert After(s, Running(0), 2) == Running(0);
    assert Repeats(s, 0, 2);
    RepeatingNeverEnds(s, 0, 2, |s| + 2);
    WalkIsAfter(s, 0, |s| + 2);
  }

  /** Four bytes, the size -4, keep the loop where it is forever. */
  lemma LoopCanStandStill(n: nat)
    ensures var s := [0xFF, 0xFF, 0xFF, 0xFC]; !Ends(s) && After(s, Running(0), n) == Running(0)
  {
    var s: bytes := [0xFF, 0xFF, 0xFF, 0xFC];
    IntOfFour(0xFF, 0xFF, 0xFF, 0xFC);
    assert s[0..] == s && s[..4] == s && Split(s).1 == s;
    EndsIffNotMinusFour(s);
    StandsStill(s, n);
  }

  lemma {:induction false} StandsStill(s: bytes, n: nat)
    requires Turn(s, 0) == Running(0)
    ensures After(s, Running(0), n) == Running(0)
  {
    if n > 0 {
      StandsStill(s, n - 1);
    }
  }

  // -------------------------------------------------------- positions are in range

  lemma {:induction false} LeftInRange(s: bytes, at: int, n: nat)
    requires at <= |s| && (at >= 0 || |s| >= 4)
    ensures var end := Walk(s, at, n).1; end.Left? ==> 0 <= end.at <= |s|
    decreases n
  {
    if n > 0 && Turn(s, at).Running? {
      LeftInRange(s, Turn(s, at).at, n - 1);
    }
  }
}
