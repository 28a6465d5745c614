/** The producer's default partition of a record: a 32-bit hash of the key. */
module Partitioner {
  import opened Results
  import opened JsNumber

  /** A UTF-16 code unit, as charCodeAt returns it. */
  type Unit = u: int | 0 <= u < 0x1_0000

  const PARTITIONS: int := 10

  function Power31(n: nat): int {
    if n == 0 then 1 else 31 * Power31(n - 1)
  }

  /** The polynomial of the code units in 31, over unbounded integers. */
  function Polynomial(s: seq<Unit>): int {
    if s == [] then 0 else 31 * Polynomial(s[..|s| - 1]) + s[|s| - 1]
  }

  /** Wrapped once, at the end. */
  function Hash(s: seq<Unit>): int {
    ToInt32(Polynomial(s))
  }

  // ----------------------------------------------------------------- wrapping

  lemma Wraps(x: int) returns (k: int)
    ensures x == ToInt32(x) + TWO_32 * k
  {
    k := if x % TWO_32 < TWO_31 then x / TWO_32 else x / TWO_32 + 1;
  }

  lemma WholeTurns(x: int, k: int)
    ensures ToInt32(x + TWO_32 * k) == ToInt32(x)
  {
  }

  lemma Distribute(a: int, k: int, p: int)
    ensures (a + TWO_32 * k) * p == a * p + TWO_32 * (k * p)
  {
  }

  /** Wrapping the parts of a sum of products first makes no difference. */
  lemma WrapParts(a: int, p: int, b: int, whole: int)
    requires whole == a * p + b
    ensures ToInt32(ToInt32(a) * p + ToInt32(b)) == ToInt32(whole)
  {
    var i := Wraps(a);
    var j := Wraps(b);
    Distribute(ToInt32(a), i, p);
    WholeTurns(ToInt32(a) * p + ToInt32(b), i * p + j);
  }

  /** One turn of the loop. */
  lemma TurnWraps(h: int, n: int, c: Unit)
    requires h == ToInt32(n)
    ensures Or(Shl(h, 5) - h + c, 0) == ToInt32(31 * n + c)
  {
    OrZero(Shl(h, 5) - h + c);
    Pow2Values();
    assert ToInt32(h) == h && Shl(h, 5) == ToInt32(h * 32);
    var k := Wraps(h * 32);
    WholeTurns(Shl(h, 5) - h + c, k);
    WrapParts(n, 31, c, 31 * n + c);
  }

  // ---------------------------------------------------------------- the method

  /** Without a key the partition is `random`, else the hash's absolute value modulo 10. */
  method CalculatePartition(key: Option<seq<Unit>>, random: nat) returns (partition: int)
    requires random < PARTITIONS
    ensures 0 <= partition < PARTITIONS
    ensures key.None? ==> partition == random
    ensures key.Some? ==> partition == PartitionOf(Hash(key.value))
  {
    if key.None? {
      return random;
    }
    var keyStr := key.value;
    var hash := 0;
    for i := 0 to |keyStr|
      invariant hash == Hash(keyStr[..i])
    {
      assert keyStr[..i + 1][..i] == keyStr[..i];
      hash := MixIn(hash, keyStr[i], Polynomial(keyStr[..i]));
    }
    assert keyStr[..|keyStr|] == keyStr;
    partition := PartitionOf(hash);
  }

  method MixIn(hash: int, unit: Unit, ghost n: int) returns (next: int)
    requires hash == ToInt32(n)
    ensures next == ToInt32(31 * n + unit)
  {
    TurnWraps(hash, n, unit);
    next := Shl(hash, 5) - hash + unit;
    next := Or(next, 0);
  }

  function PartitionOf(hash: int): (p: int)
    ensures 0 <= p < PARTITIONS
  {
    (if hash < 0 then -hash else hash) % PARTITIONS
  }

  /** The partition is what the absolute value of the hash leaves when tens are taken off. */
  lemma PartitionIsLastDigit(hash: int) returns (q: nat)
    ensures 0 <= PartitionOf(hash) <= 9
    ensures hash == 10 * q + PartitionOf(hash) || -hash == 10 * q + PartitionOf(hash)
    ensures hash >= 0 ==> hash == 10 * q + PartitionOf(hash)
  {
    q := (if hash < 0 then -hash else hash) / 10;
  }

  // --------------------------------------------------------------------- laws

  lemma {:induction false} PolynomialConcat(s: seq<Unit>, t: seq<Unit>)
    ensures Polynomial(s + t) == Polynomial(s) * Power31(|t|) + Polynomial(t)
    decreases |t|
  {
    if t == [] {
      assert s + t == s;
    } else {
      var t', n := t[..|t| - 1], |t| - 1;
      assert (s + t)[..|s + t| - 1] == s + t';
      PolynomialConcat(s, t');
      Rearrange(Polynomial(s), Power31(n), Polynomial(t'), t[n]);
    }
  }

  lemma Rearrange(a: int, p: int, b: int, c: int)
    ensures 31 * (a * p + b) + c == a * (31 * p) + (31 * b + c)
  {
  }

  /** The hash of what comes first, moved up by a power of 31, and that of what follows. */
  function Joined(first: int, power: int, second: int): int {
    ToInt32(first * power + second)
  }

  lemma HashParts(s: seq<Unit>, t: seq<Unit>) returns (a: int, p: int, b: int, whole: int)
    ensures a == Polynomial(s) && p == Power31(|t|) && b == Polynomial(t) && whole == Polynomial(s + t)
    ensures whole == a * p + b
  {
    PolynomialConcat(s, t);
    a, p, b, whole := Polynomial(s), Power31(|t|), Polynomial(t), Polynomial(s + t);
  }

  lemma JoinWraps(a: int, p: int, b: int, whole: int, first: int, second: int, both: int)
    requires whole == a * p + b && first == ToInt32(a) && second == ToInt32(b) && both == ToInt32(whole)
    ensures both == Joined(first, p, second)
  {
    WrapParts(a, p, b, whole);
  }

  /** The hash of a concatenation follows from the hashes of its parts. */
  lemma HashConcat(s: seq<Unit>, t: seq<Unit>)
    ensures Hash(s + t) == Joined(Hash(s), Power31(|t|), Hash(t))
  {
    var a, p, b, whole := HashParts(s, t);
    JoinWraps(a, p, b, whole, Hash(s), Hash(t), Hash(s + t));
  }

  /** Each further unit takes the hash times 31, adds itself and wraps to 32 bits. */
  lemma HashStep(s: seq<Unit>, u: Unit) returns (turns: int)
    ensures 31 * Hash(s) + u == Hash(s + [u]) + 0x1_0000_0000 * turns
    ensures -0x8000_0000 <= Hash(s + [u]) <= 0x7FFF_FFFF && Hash([]) == 0
  {
    assert (s + [u])[..|s|] == s;
    turns := StepWraps(Polynomial(s), u, Hash(s));
  }

  lemma StepWraps(n: int, u: Unit, h: int) returns (turns: int)
    requires h == ToInt32(n)
    ensures 31 * h + u == ToInt32(31 * n + u) + TWO_32 * turns
  {
    turns := Wraps(31 * h + u);
    WrapParts(n, 31, u, 31 * n + u);
  }

  /** The smallest hash occurs, and its absolute value, which is no 32-bit integer, still
      gives a partition. */
  lemma SmallestHash()
    ensures var key: seq<Unit> := [2325, 9, 30, 12, 2]; Hash(key) == -TWO_31 && PartitionOf(Hash(key)) == 8
  {
    var key: seq<Unit> := [2325, 9, 30, 12, 2];
    assert key[..4][..3] == key[..3] && key[..3][..2] == key[..2] && key[..2][..1] == key[..1];
    assert Polynomial(key[..1]) == 2325 by {
      assert key[..1][..0] == [];
    }
    assert Polynomial(key[..2]) == 31 * 2325 + 9;
    assert Polynomial(key[..3]) == 31 * Polynomial(key[..2]) + 30;
    assert Polynomial(key[..4]) == 31 * Polynomial(key[..3]) + 12;
  }
}
