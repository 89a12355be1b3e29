/**
 * Positional notation over natural numbers: the arithmetic shared by every
 * codec of the identifier. A 16-byte identifier is the 128-bit big-endian
 * number FromDigits(bytes, 256); the hexadecimal, Id22, Id25 and Id26 texts
 * are fixed-width expansions of that number (or, for Id26, of a slightly
 * longer one) in bases 16, 58, 35 and 32.
 */
module Radix {

  function Pow(b: nat, e: nat): (p: nat)
    ensures b > 0 ==> p > 0
  {
    if e == 0 then 1 else b * Pow(b, e - 1)
  }

  /** Value of a digit sequence, most significant digit first. */
  function FromDigits(ds: seq<nat>, b: nat): nat
  {
    if |ds| == 0 then 0 else FromDigits(ds[..|ds| - 1], b) * b + ds[|ds| - 1]
  }

  /** The w least significant base-b digits of n, most significant first. */
  function Digits(n: nat, b: nat, w: nat): (ds: seq<nat>)
    requires b >= 2
    ensures |ds| == w
    ensures forall i :: 0 <= i < w ==> ds[i] < b
  {
    if w == 0 then [] else Digits(n / b, b, w - 1) + [n % b]
  }

  ghost predicate AllBelow(ds: seq<nat>, b: nat)
  {
    forall i :: 0 <= i < |ds| ==> ds[i] < b
  }

  lemma {:induction false} PowPositive(b: nat, e: nat)
    requires b > 0
    ensures Pow(b, e) > 0
  {
    if e > 0 {
      PowPositive(b, e - 1);
    }
  }

  lemma {:induction false} PowAdd(b: nat, x: nat, y: nat)
    ensures Pow(b, x + y) == Pow(b, x) * Pow(b, y)
  {
    if y > 0 {
      PowAdd(b, x, y - 1);
      assert Pow(b, x + y) == b * Pow(b, x + y - 1);
      MulShuffle(b, Pow(b, x), Pow(b, y - 1));
    }
  }

  lemma MulShuffle(b: int, p: int, q: int)
    ensures b * (p * q) == p * (b * q)
  {
  }

  lemma Regroup(f: int, p: int, g: int, b: int, d: int)
    ensures (f * p + g) * b + d == f * (b * p) + (g * b + d)
  {
  }

  lemma {:induction false} PowMonotone(b: nat, x: nat, y: nat)
    requires b > 0 && x <= y
    ensures Pow(b, x) <= Pow(b, y)
  {
    if x < y {
      PowMonotone(b, x, y - 1);
      PowPositive(b, y - 1);
      MulLe(1, b, Pow(b, y - 1));
    }
  }

  lemma MulLe(x: int, y: int, c: nat)
    requires x <= y
    ensures x * c <= y * c
  {
  }

  lemma BoundStep(f: nat, p: nat, d: nat, b: nat)
    requires f < p && d < b
    ensures f * b + d < b * p
  {
    MulLe(f, p - 1, b);
  }

  /** Euclidean division is unique: a quotient and remainder in range are THE quotient and remainder. */
  lemma DivModUnique(n: int, m: int, q: int, r: int)
    requires m > 0 && 0 <= r < m && n == q * m + r
    ensures n / m == q && n % m == r
  {
    var q0, r0 := n / m, n % m;
    assert n == q0 * m + r0;
    if q0 < q {
      MulLe(q0 + 1, q, m);
      assert false;
    } else if q < q0 {
      MulLe(q + 1, q0, m);
      assert false;
    }
  }

  lemma DivDiv(n: nat, x: nat, y: nat)
    requires x > 0 && y > 0
    ensures n / x / y == n / (x * y)
  {
    var q1, r1 := n / x, n % x;
    var q2, r2 := q1 / y, q1 % y;
    assert n == q2 * (x * y) + (r2 * x + r1) by {
      calc {
        n;
        q1 * x + r1;
        (q2 * y + r2) * x + r1;
        q2 * (x * y) + (r2 * x + r1);
      }
    }
    MulLe(r2, y - 1, x);
    DivModUnique(n, x * y, q2, r2 * x + r1);
  }

  /** Peeling the lowest digit off n modulo b*m. */
  lemma ModMul(n: nat, b: nat, m: nat)
    requires b > 0 && m > 0
    ensures (n / b) % m * b + n % b == n % (m * b)
  {
    var q, r := n / b, n % b;
    var s, t := q / m, q % m;
    assert n == s * (m * b) + (t * b + r) by {
      calc {
        n;
        q * b + r;
        (s * m + t) * b + r;
        s * (m * b) + (t * b + r);
      }
    }
    MulLe(t, m - 1, b);
    DivModUnique(n, m * b, s, t * b + r);
  }

  /** If n = p * m + r with r < m, only p survives a division by m * k. */
  lemma DivHigh(p: nat, m: nat, r: nat, k: nat)
    requires m > 0 && k > 0 && r < m
    ensures (p * m + r) / (m * k) == p / k
  {
    DivModUnique(p * m + r, m, p, r);
    DivDiv(p * m + r, m, k);
  }

  lemma {:induction false} FromDigitsBound(ds: seq<nat>, b: nat)
    requires b > 0 && AllBelow(ds, b)
    ensures FromDigits(ds, b) < Pow(b, |ds|)
  {
    if |ds| > 0 {
      var init := ds[..|ds| - 1];
      assert AllBelow(init, b);
      FromDigitsBound(init, b);
      var f, p, d := FromDigits(init, b), Pow(b, |init|), ds[|ds| - 1];
      assert FromDigits(ds, b) == f * b + d;
      assert Pow(b, |ds|) == b * p;
      BoundStep(f, p, d, b);
    }
  }

  lemma {:induction false} FromDigitsAppend(a: seq<nat>, c: seq<nat>, b: nat)
    ensures FromDigits(a + c, b) == FromDigits(a, b) * Pow(b, |c|) + FromDigits(c, b)
  {
    if |c| == 0 {
      assert a + c == a;
    } else {
      var c' := c[..|c| - 1];
      assert (a + c)[..|a + c| - 1] == a + c';
      FromDigitsAppend(a, c', b);
      assert FromDigits(a + c, b) == FromDigits(a + c', b) * b + c[|c| - 1];
      assert FromDigits(c, b) == FromDigits(c', b) * b + c[|c| - 1];
      Regroup(FromDigits(a, b), Pow(b, |c'|), FromDigits(c', b), b, c[|c| - 1]);
    }
  }

  /** Reading back w digits recovers the number modulo b^w. */
  lemma {:induction false} FromDigitsOfDigits(n: nat, b: nat, w: nat)
    requires b >= 2
    ensures FromDigits(Digits(n, b, w), b) == n % Pow(b, w)
  {
    if w == 0 {
      assert Digits(n, b, w) == [];
      assert n % Pow(b, w) == 0 by { assert Pow(b, w) == 1; }
    } else {
      var ds := Digits(n, b, w);
      var init := Digits(n / b, b, w - 1);
      assert ds == init + [n % b];
      assert ds[..w - 1] == init;
      calc {
        FromDigits(ds, b);
        FromDigits(init, b) * b + n % b;
        { FromDigitsOfDigits(n / b, b, w - 1); }
        (n / b) % Pow(b, w - 1) * b + n % b;
        { ModPow(n, b, w); }
        n % Pow(b, w);
      }
    }
  }

  lemma ModPow(n: nat, b: nat, w: nat)
    requires b >= 2 && w > 0
    ensures (n / b) % Pow(b, w - 1) * b + n % b == n % Pow(b, w)
  {
    var p := Pow(b, w - 1);
    ModMul(n, b, p);
    assert Pow(b, w) == p * b;
  }

  /** Writing out the value of w digits gives the same digits back. */
  lemma {:induction false} DigitsOfFromDigits(ds: seq<nat>, b: nat)
    requires b >= 2 && AllBelow(ds, b)
    ensures Digits(FromDigits(ds, b), b, |ds|) == ds
  {
    if |ds| > 0 {
      var init := ds[..|ds| - 1];
      assert AllBelow(init, b);
      DivModUnique(FromDigits(ds, b), b, FromDigits(init, b), ds[|ds| - 1]);
      DigitsOfFromDigits(init, b);
    }
  }

  /** Digits depend only on the number modulo b^w. */
  lemma DigitsOfSmall(n: nat, b: nat, w: nat)
    requires b >= 2 && n < Pow(b, w)
    ensures FromDigits(Digits(n, b, w), b) == n
  {
    FromDigitsOfDigits(n, b, w);
    DivModUnique(n, Pow(b, w), 0, n);
  }

  lemma {:induction false} FromDigitsZeros(ds: seq<nat>, b: nat)
    requires forall i :: 0 <= i < |ds| ==> ds[i] == 0
    ensures FromDigits(ds, b) == 0
  {
    if |ds| > 0 {
      FromDigitsZeros(ds[..|ds| - 1], b);
    }
  }

  lemma {:induction false} DigitsOfZero(b: nat, w: nat)
    requires b >= 2
    ensures forall i :: 0 <= i < w ==> Digits(0, b, w)[i] == 0
  {
    if w > 0 {
      DigitsOfZero(b, w - 1);
    }
  }

  /** Digit i of a w-digit expansion, counted from the most significant end. */
  lemma {:induction false} DigitsAt(n: nat, b: nat, w: nat, i: nat)
    requires b >= 2 && i < w
    ensures Digits(n, b, w)[i] == (n / Pow(b, w - 1 - i)) % b
  {
    if i == w - 1 {
      assert Pow(b, 0) == 1;
    } else {
      DigitsAt(n / b, b, w - 1, i);
      DivDiv(n, b, Pow(b, w - 2 - i));
      assert Pow(b, w - 1 - i) == b * Pow(b, w - 2 - i);
    }
  }

  /** Reducing modulo p*q first does not change the remainder modulo p. */
  lemma ModModMul(x: nat, p: nat, q: nat)
    requires p > 0 && q > 0
    ensures (x % (p * q)) % p == x % p
  {
    var t := x / (p * q);
    assert x == (t * q) * p + x % (p * q) by {
      assert t * (p * q) == (t * q) * p;
    }
    DivModUnique(x, p, t * q + (x % (p * q)) / p, (x % (p * q)) % p);
  }

  /**
   * Shifting k digits in at the bottom: numbers that agree modulo p agree
   * modulo p*k after multiplying by k and adding the same d < k.
   */
  lemma ShiftInMod(r: nat, v: nat, d: nat, p: nat, k: nat)
    requires p > 0 && d < k && r % p == v % p
    ensures (r * k + d) % (p * k) == (v * k + d) % (p * k)
  {
    var t := r % p;
    BoundStep(t, p, d, k);
    assert r * k + d == (r / p) * (p * k) + (t * k + d) by {
      assert r == (r / p) * p + t;
      Regroup(r / p, p, t, k, d);
    }
    assert v * k + d == (v / p) * (p * k) + (t * k + d) by {
      assert v == (v / p) * p + t;
      Regroup(v / p, p, t, k, d);
    }
    DivModUnique(r * k + d, p * k, r / p, t * k + d);
    DivModUnique(v * k + d, p * k, v / p, t * k + d);
  }

  /** Numbers that agree modulo l*k have the same k-digit group above the lowest l. */
  lemma ExtractDigits(r: nat, v: nat, l: nat, k: nat)
    requires l > 0 && k > 0 && r % (l * k) == v % (l * k)
    ensures (r / l) % k == (v / l) % k
  {
    ModMul(r, l, k);
    ModMul(v, l, k);
    ModModMul(r, l, k);
    ModModMul(v, l, k);
    assert (r / l) % k * l == (v / l) % k * l;
  }

  /** Powers of a power. */
  lemma {:induction false} PowOfPow(b: nat, m: nat, k: nat)
    ensures Pow(b, m * k) == Pow(Pow(b, m), k)
  {
    if k > 0 {
      PowOfPow(b, m, k - 1);
      PowAdd(b, m * (k - 1), m);
      assert m * k == m * (k - 1) + m;
    }
  }
}
