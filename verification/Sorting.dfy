/** The default order of `Array.prototype.sort`: elements compare as their strings, so
    numbers compare by their decimal digits, 10 before 9. */
module Sorting {

  function Digit(d: nat): char
    requires d < 10
  {
    "0123456789"[d]
  }

  function Decimal(n: nat): (s: string)
    ensures s != [] && s[0] != '-'
  {
    if n < 10 then [Digit(n)] else Decimal(n / 10) + [Digit(n % 10)]
  }

  /** `String(n)` of an integer. */
  function Numeral(n: int): string {
    if n < 0 then "-" + Decimal(-n) else Decimal(n)
  }

  /** Comparison of strings by code units: `a` comes before `b` or is equal to it. */
  predicate Precedes(a: string, b: string) {
    if a == [] then true
    else if b == [] then false
    else if a[0] == b[0] then Precedes(a[1..], b[1..])
    else a[0] < b[0]
  }

  predicate NotAfter(x: int, y: int) {
    Precedes(Numeral(x), Numeral(y))
  }

  // ------------------------------------------------------------ a total order

  lemma DigitsDiffer(d: nat, e: nat)
    requires d < 10 && e < 10 && Digit(d) == Digit(e)
    ensures d == e
  {
  }

  lemma {:induction false} DecimalInjective(m: nat, n: nat)
    requires Decimal(m) == Decimal(n)
    ensures m == n
  {
    var s := Decimal(m);
    if m >= 10 && n >= 10 {
      assert s[..|s| - 1] == Decimal(m / 10) && s[..|s| - 1] == Decimal(n / 10);
      DecimalInjective(m / 10, n / 10);
      assert s[|s| - 1] == Digit(m % 10) && s[|s| - 1] == Digit(n % 10);
      DigitsDiffer(m % 10, n % 10);
    } else {
      SingleDigit(m);
      SingleDigit(n);
      DigitsDiffer(m, n);
    }
  }

  lemma SingleDigit(n: nat)
    ensures |Decimal(n)| == 1 <==> n < 10
  {
  }

  lemma NumeralInjective(m: int, n: int)
    requires Numeral(m) == Numeral(n)
    ensures m == n
  {
    var s := Numeral(m);
    if m < 0 {
      assert n < 0;
      assert s[1..] == Decimal(-m) && s[1..] == Decimal(-n);
      DecimalInjective(-m, -n);
    } else {
      assert n >= 0;
      DecimalInjective(m, n);
    }
  }

  lemma {:induction false} PrecedesTotal(a: string, b: string)
    ensures Precedes(a, b) || Precedes(b, a)
  {
    if a != [] && b != [] {
      PrecedesTotal(a[1..], b[1..]);
    }
  }

  lemma {:induction false} PrecedesAntisymmetric(a: string, b: string)
    requires Precedes(a, b) && Precedes(b, a)
    ensures a == b
  {
    if a != [] {
      PrecedesAntisymmetric(a[1..], b[1..]);
      assert a == [a[0]] + a[1..] && b == [b[0]] + b[1..];
    }
  }

  lemma {:induction false} PrecedesTransitive(a: string, b: string, c: string)
    requires Precedes(a, b) && Precedes(b, c)
    ensures Precedes(a, c)
  {
    if a != [] && c != [] && a[0] == b[0] == c[0] {
      PrecedesTransitive(a[1..], b[1..], c[1..]);
    }
  }

  /** The numbers are totally ordered by their strings: equal only if identical. */
  lemma OrderAntisymmetric(x: int, y: int)
    requires NotAfter(x, y) && NotAfter(y, x)
    ensures x == y
  {
    PrecedesAntisymmetric(Numeral(x), Numeral(y));
    NumeralInjective(x, y);
  }

  // ----------------------------------------------------------------- sorting

  ghost predicate Sorted(s: seq<int>) {
    forall i, j :: 0 <= i < j < |s| ==> NotAfter(s[i], s[j])
  }

  /** What any implementation of the default sort yields. */
  function Insert(x: int, s: seq<int>): (r: seq<int>)
    requires Sorted(s)
    ensures multiset(r) == multiset{x} + multiset(s)
  {
    if s == [] then [x]
    else if NotAfter(x, s[0]) then [x] + s
    else
      assert s == [s[0]] + s[1..];
      [s[0]] + Insert(x, s[1..])
  }

  lemma {:induction false} InsertSorts(x: int, s: seq<int>)
    requires Sorted(s)
    ensures Sorted(Insert(x, s))
  {
    var r := Insert(x, s);
    if s == [] {
    } else if NotAfter(x, s[0]) {
      forall j | 0 <= j < |s| ensures NotAfter(x, s[j]) {
        if j > 0 {
          PrecedesTransitive(Numeral(x), Numeral(s[0]), Numeral(s[j]));
        }
      }
    } else {
      PrecedesTotal(Numeral(x), Numeral(s[0]));
      InsertSorts(x, s[1..]);
      var t := Insert(x, s[1..]);
      forall y | y in t ensures NotAfter(s[0], y) {
        Among(x, s[1..], t, y);
      }
    }
  }

  lemma Among(x: int, s: seq<int>, t: seq<int>, y: int)
    requires multiset(t) == multiset{x} + multiset(s) && y in t
    ensures y == x || y in s
  {
    assert y in multiset(t);
  }

  /** `[...a].sort()`. */
  method DefaultSort(a: seq<int>) returns (s: seq<int>)
    ensures Sorted(s) && multiset(s) == multiset(a)
  {
    s := [];
    for i := 0 to |a|
      invariant Sorted(s) && multiset(s) == multiset(a[..i])
    {
      InsertSorts(a[i], s);
      s := Insert(a[i], s);
      assert a[..i + 1] == a[..i] + [a[i]];
    }
    assert a[..|a|] == a;
  }

  lemma FirstIsLeast(s: seq<int>, x: int)
    requires Sorted(s) && x in s
    ensures NotAfter(s[0], x)
  {
    PrecedesTotal(Numeral(x), Numeral(x));
  }

  lemma SameHead(s: seq<int>, t: seq<int>)
    requires Sorted(s) && Sorted(t) && s != [] && t != [] && s[0] in t && t[0] in s
    ensures s[0] == t[0]
  {
    FirstIsLeast(t, s[0]);
    FirstIsLeast(s, t[0]);
    OrderAntisymmetric(s[0], t[0]);
  }

  lemma HeadAndTail(s: seq<int>)
    requires s != []
    ensures multiset(s) == multiset{s[0]} + multiset(s[1..])
  {
    assert s == [s[0]] + s[1..];
  }

  lemma SameElements(s: seq<int>, t: seq<int>)
    requires multiset(s) == multiset(t)
    ensures |s| == |t| && forall x :: x in s <==> x in t
  {
    assert |multiset(s)| == |multiset(t)|;
    assert forall x :: x in s <==> x in multiset(s);
  }

  /** The sorted form is canonical: two sorted arrays with the same elements are equal. */
  lemma {:induction false} SortedIsCanonical(s: seq<int>, t: seq<int>)
    requires Sorted(s) && Sorted(t) && multiset(s) == multiset(t)
    ensures s == t
  {
    SameElements(s, t);
    if s != [] {
      assert s[0] in s && t[0] in t;
      SameHead(s, t);
      HeadAndTail(s);
      HeadAndTail(t);
      RemoveHead(s[0], multiset(s[1..]), multiset(t[1..]));
      SortedIsCanonical(s[1..], t[1..]);
      assert s == [s[0]] + s[1..] && t == [t[0]] + t[1..];
    }
  }

  lemma RemoveHead(x: int, a: multiset<int>, b: multiset<int>)
    requires multiset{x} + a == multiset{x} + b
    ensures a == b
  {
    assert a == (multiset{x} + a) - multiset{x};
    assert b == (multiset{x} + b) - multiset{x};
  }

  /** The order is not the numeric one. */
  lemma TenPrecedesNine()
    ensures NotAfter(10, 9) && !NotAfter(9, 10)
  {
  }
}
