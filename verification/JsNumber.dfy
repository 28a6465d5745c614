/** JavaScript's 32-bit integer operators on numbers that are integers. The bitwise
    ones are defined bit by bit, so that their arithmetic meaning is a theorem. */
module JsNumber {

  const TWO_31: int := 0x8000_0000
  const TWO_32: int := 0x1_0000_0000

  function ToUint32(x: int): nat {
    x % TWO_32
  }

  /** `x | 0` */
  function ToInt32(x: int): (r: int)
    ensures -TWO_31 <= r < TWO_31
    ensures -TWO_31 <= x < TWO_31 ==> r == x
  {
    var u := x % TWO_32;
    if u < TWO_31 then u else u - TWO_32
  }

  function BitAnd(a: nat, b: nat): nat {
    if a == 0 || b == 0 then 0 else
    (if a % 2 == 1 && b % 2 == 1 then 1 else 0) + 2 * BitAnd(a / 2, b / 2)
  }

  function BitOr(a: nat, b: nat): nat
    decreases a + b
  {
    if a == 0 then b else if b == 0 then a else
    (if a % 2 == 1 || b % 2 == 1 then 1 else 0) + 2 * BitOr(a / 2, b / 2)
  }

  function Pow2(k: nat): (p: nat)
    ensures p >= 1
  {
    if k == 0 then 1 else 2 * Pow2(k - 1)
  }

  function And(a: int, b: int): int {
    ToInt32(BitAnd(ToUint32(a), ToUint32(b)))
  }

  function Or(a: int, b: int): int {
    ToInt32(BitOr(ToUint32(a), ToUint32(b)))
  }

  /** `a << k`: the shift count is taken modulo 32. */
  function Shl(a: int, k: nat): int {
    ToInt32(ToInt32(a) * Pow2(k % 32))
  }

  /** `a >> k` keeps the sign, so it divides rounding down. */
  function Sar(a: int, k: nat): int {
    ToInt32(a) / Pow2(k % 32)
  }

  lemma Pow2Values()
    ensures Pow2(5) == 32 && Pow2(7) == 128
  {
  }

  lemma {:induction false} Pow2Add(a: nat, b: nat)
    ensures Pow2(a + b) == Pow2(a) * Pow2(b)
  {
    if a > 0 {
      Pow2Add(a - 1, b);
      assert Pow2(a + b) == 2 * Pow2(a - 1 + b);
      assert Pow2(a) * Pow2(b) == 2 * (Pow2(a - 1) * Pow2(b));
    }
  }

  /** A mask of low bits keeps the remainder. */
  lemma {:induction false} BitAndLow(a: nat, q: nat, r: nat, k: nat, p: nat)
    requires p == Pow2(k) && r < p && a == q * p + r
    ensures BitAnd(a, p - 1) == r
  {
    if k > 0 && a > 0 {
      var h := Pow2(k - 1);
      BitAndOdd(a, h);
      Halve(a, q, r, h);
      BitAndLow(a / 2, q, r / 2, k - 1, h);
    } else if a == 0 {
      assert q * p >= 0;
    }
  }

  lemma Halve(a: nat, q: nat, r: nat, h: nat)
    requires a == q * (2 * h) + r
    ensures a / 2 == q * h + r / 2 && a % 2 == r % 2
  {
  }

  lemma BitAndOdd(a: nat, p: nat)
    requires a > 0 && p > 0
    ensures BitAnd(a, 2 * p - 1) == a % 2 + 2 * BitAnd(a / 2, p - 1)
  {
  }

  /** Testing the highest bit. */
  lemma {:induction false} BitAndTop(a: nat, k: nat)
    requires a < 2 * Pow2(k)
    ensures BitAnd(a, Pow2(k)) == if a >= Pow2(k) then Pow2(k) else 0
  {
    if k == 0 {
      assert a == 1 ==> BitAnd(a, 1) == 1 + 2 * BitAnd(0, 0);
    } else if a > 0 {
      BitAndTop(a / 2, k - 1);
      var p := Pow2(k - 1);
      assert (2 * p) % 2 == 0 && (2 * p) / 2 == p;
    }
  }

  /** Numbers without a common bit are joined by addition. */
  lemma {:induction false} BitOrDisjoint(a: nat, b: nat, k: nat)
    requires a < Pow2(k)
    ensures BitOr(a, b * Pow2(k)) == a + b * Pow2(k)
    decreases k
  {
    if k > 0 && a > 0 && b > 0 {
      var p := Pow2(k - 1);
      var y := b * Pow2(k);
      assert y == 2 * (b * p);
      assert y > 0;
      BitOrDisjoint(a / 2, b, k - 1);
    }
  }

  lemma OrZero(x: int)
    ensures Or(x, 0) == ToInt32(x)
  {
  }

  lemma Pow2Is32()
    ensures Pow2(31) == TWO_31 && Pow2(32) == TWO_32
  {
    Pow2Values();
    Pow2Add(7, 7);
    Pow2Add(14, 7);
    Pow2Add(21, 5);
    Pow2Add(26, 5);
  }

  lemma OrOfNaturals(a: nat, b: nat)
    requires a < TWO_31 && b < TWO_31
    ensures Or(a, b) == ToInt32(BitOr(a, b))
  {
    Unsigned(a);
    Unsigned(b);
  }

  lemma Unsigned(a: nat)
    requires a < TWO_32
    ensures ToUint32(a) == a
  {
  }

  // The operators with the constants the codec uses, as arithmetic.

  lemma And0x7F(x: int)
    ensures And(x, 0x7F) == x % 128
  {
    var u := ToUint32(x);
    assert BitAnd(u, 0x7F) == u % 128 by {
      Pow2Values();
      BitAndLow(u, u / 128, u % 128, 7, 128);
    }
    Unsigned(0x7F);
    Mod128(x);
  }

  lemma Mod128(x: int)
    ensures ToUint32(x) % 128 == x % 128
  {
  }

  lemma Or0x80(x: nat)
    requires x < 128
    ensures Or(x, 0x80) == x + 128
  {
    assert BitOr(x, 128) == x + 128 by {
      Pow2Values();
      BitOrDisjoint(x, 1, 7);
      assert 1 * Pow2(7) == 128;
    }
    OrOfNaturals(x, 128);
  }

  lemma And0x80(x: nat)
    requires x < 256
    ensures (And(x, 0x80) != 0) == (x >= 128)
  {
    assert BitAnd(x, 128) == if x >= 128 then 128 else 0 by {
      Pow2Values();
      BitAndTop(x, 7);
    }
    Unsigned(x);
    Unsigned(0x80);
  }

  lemma OrSum(a: nat, b: nat)
    requires BitOr(a, b) == a + b < TWO_31
    ensures Or(a, b) == a + b
  {
    OrOfNaturals(a, b);
  }

  lemma DisjointSum(low: nat, group: nat, shift: nat, shifted: nat)
    requires low < Pow2(shift) && shifted == group * Pow2(shift)
    requires low + shifted < TWO_31
    ensures Or(low, shifted) == low + shifted
  {
    BitOrDisjoint(low, group, shift);
    OrSum(low, shifted);
  }

  /** Or-ing in a group shifted above the bits present so far adds it. */
  lemma OrShifted(low: nat, group: nat, shift: nat, shifted: nat)
    requires shift <= 31 && low < Pow2(shift) && shifted == group * Pow2(shift)
    requires group < TWO_31 && low + shifted < TWO_31
    ensures Or(low, Shl(group, shift)) == low + shifted
  {
    ShlInRange(group, shift, shifted);
    DisjointSum(low, group, shift, shifted);
  }

  lemma ShlInRange(group: nat, shift: nat, shifted: nat)
    requires shift <= 31 && group < TWO_31 && shifted == group * Pow2(shift) < TWO_31
    ensures Shl(group, shift) == shifted
  {
  }
}
