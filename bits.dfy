// Bit-level facts about unsigned words modelled as integers: bit k of x is
// Words.Bit(x, k); a left shift inside an n-bit word is a product reduced
// modulo 2^n; setting a bit is an addition when the bit is clear.

module Bits {
  import opened Words

  /** x << s inside an n-bit word: the bits pushed past the top are lost. */
  function ShiftLeft(x: int, s: nat, n: nat): (r: int)
    requires x >= 0
    ensures 0 <= r < Pow2(n)
  {
    (x * Pow2(s)) % Pow2(n)
  }

  /** x with bit k set: x | (1 << k). */
  function SetBit(x: int, k: nat): (r: int)
    requires x >= 0
    ensures r >= x
  {
    if Bit(x, k) then x else x + Pow2(k)
  }

  /** Adding an even number keeps the parity. */
  lemma ParityEven(a: int, t: int)
    ensures (a + 2 * t) % 2 == a % 2
  {
  }

  /** The quotient of q * d + r by d, for a remainder below d. */
  lemma DivOfSum(q: int, d: int, r: int)
    requires d > 0 && 0 <= r < d
    ensures (q * d + r) / d == q && (q * d + r) % d == r
  {
    DivUnique(q * d + r, d, q, r);
  }

  /** (y mod pj*pt) / pj and y / pj differ by a multiple of pt. */
  lemma ModThenDiv(y: int, pj: int, pt: int)
    requires y >= 0 && pj > 0 && pt > 0
    ensures (y % (pj * pt)) / pj + (y / (pj * pt)) * pt == y / pj
  {
    var pn := pj * pt;
    var q, r := y / pn, y % pn;
    var a, b := r / pj, r % pj;
    assert y == q * pn + r;
    assert r == a * pj + b;
    assert q * pn == (q * pt) * pj;
    assert y == (a + q * pt) * pj + b;
    DivOfSum(a + q * pt, pj, b);
  }

  /** Multiplying by pj * pt and dividing by pj multiplies by pt. */
  lemma MulThenDiv(x: int, pj: int, pt: int)
    requires pj > 0
    ensures (x * (pj * pt)) / pj == x * pt
  {
    assert x * (pj * pt) == (x * pt) * pj;
    DivOfSum(x * pt, pj, 0);
  }

  /** x * (2 * h) is even. */
  lemma EvenProduct(x: int, h: int)
    ensures x * (2 * h) == 2 * (x * h)
  {
  }

  /** Reducing modulo 2^n keeps the bits below n. */
  lemma BitOfMod(y: int, j: nat, n: nat)
    requires y >= 0 && j < n
    ensures Bit(y % Pow2(n), j) == Bit(y, j)
  {
    var pj, pt := Pow2(j), Pow2(n - j);
    Pow2Add(j, n - j);
    ModThenDiv(y, pj, pt);
    var h := pt / 2;
    assert pt == 2 * h;
    var q := y / (pj * pt);
    EvenProduct(q, h);
    ParityEven((y % (pj * pt)) / pj, q * h);
  }

  /** Multiplying by 2^s moves bit j - s to bit j and clears the bits below s. */
  lemma BitOfMul(x: int, s: nat, j: nat)
    requires x >= 0
    ensures Bit(x * Pow2(s), j) == (j >= s && Bit(x, j - s))
  {
    var ps := Pow2(s);
    if j >= s {
      var pt := Pow2(j - s);
      Pow2Add(s, j - s);
      DivDivInt(x * ps, ps, pt);
      DivOfSum(x, ps, 0);
    } else {
      var pj, pt := Pow2(j), Pow2(s - j);
      Pow2Add(j, s - j);
      MulThenDiv(x, pj, pt);
      var h := pt / 2;
      assert pt == 2 * h;
      EvenProduct(x, h);
      ParityEven(0, x * h);
    }
  }

  /** Adding m multiples of d adds m to the quotient by d. */
  lemma AddMultipleDiv(x: int, d: int, m: int)
    requires d > 0
    ensures (x + m * d) / d == x / d + m
  {
    assert x == (x / d) * d + x % d;
    assert x + m * d == (x / d + m) * d + x % d;
    DivOfSum(x / d + m, d, x % d);
  }

  /** An even number and its successor have the same quotient by an even divisor. */
  lemma EvenSuccDiv(c: int, h: int)
    requires c >= 0 && c % 2 == 0 && h > 0
    ensures (c + 1) / (2 * h) == c / (2 * h)
  {
    var d := 2 * h;
    var a, b := c / d, c % d;
    assert c == a * d + b;
    assert a * d == 2 * (a * h);
    assert b % 2 == 0;
    DivOfSum(a, d, b + 1);
  }

  /** An even quotient below 2t leaves room for one more multiple of pk below pk * 2t. */
  lemma AddBelowEvenQuotient(x: int, pk: int, t: int)
    requires 0 <= x < pk * (2 * t) && pk > 0 && t > 0 && (x / pk) % 2 == 0
    ensures x + pk < pk * (2 * t)
  {
    var c := x / pk;
    assert x == c * pk + x % pk;
    assert c < 2 * t by {
      if c >= 2 * t {
        MulMonotone(2 * t, c, pk);
      }
    }
    assert c + 2 <= 2 * t;
    MulMonotone(c + 2, 2 * t, pk);
  }

  /** Setting a clear bit k leaves bit j > k alone. */
  lemma SetBitAbove(x: int, k: nat, j: nat)
    requires x >= 0 && !Bit(x, k) && j > k
    ensures Bit(x + Pow2(k), j) == Bit(x, j)
  {
    var pk, pt := Pow2(k), Pow2(j - k);
    Pow2Add(k, j - k);
    var h := pt / 2;
    assert pt == 2 * h;
    assert Pow2(j) == pk * (2 * h);
    AddClearBit(x, pk, h);
  }

  /** SetBitAbove with the powers of two named: pk the weight of bit k, pk * 2h that of bit j. */
  lemma AddClearBit(x: int, pk: int, h: int)
    requires x >= 0 && pk > 0 && h > 0 && (x / pk) % 2 == 0
    ensures (x + pk) / (pk * (2 * h)) == x / (pk * (2 * h))
  {
    DivDivInt(x, pk, 2 * h);
    DivDivInt(x + pk, pk, 2 * h);
    AddMultipleDiv(x, pk, 1);
    EvenSuccDiv(x / pk, h);
  }

  lemma MulComm(a: int, b: int, c: int)
    requires b == c
    ensures a * b == c * a
  {
  }

  /** Adding an even multiple of pj keeps the parity of the quotient by pj. */
  lemma AddEvenMultipleParity(x: int, pj: int, h: int)
    requires pj > 0
    ensures ((x + (2 * h) * pj) / pj) % 2 == (x / pj) % 2
  {
    AddMultipleDiv(x, pj, 2 * h);
    ParityEven(x / pj, h);
  }

  /** Setting a clear bit k leaves bit j < k alone. */
  lemma SetBitBelow(x: int, k: nat, j: nat)
    requires x >= 0 && j < k
    ensures Bit(x + Pow2(k), j) == Bit(x, j)
  {
    var pk, pj, pt := Pow2(k), Pow2(j), Pow2(k - j);
    Pow2Add(j, k - j);
    var h := pt / 2;
    assert pt == 2 * h;
    assert pk == pj * pt;
    MulComm(pj, pt, 2 * h);
    AddEvenMultipleParity(x, pj, h);
  }

  /** Setting bit k changes bit k only. */
  lemma BitOfSetBit(x: int, k: nat, j: nat)
    requires x >= 0
    ensures Bit(SetBit(x, k), j) == (j == k || Bit(x, j))
  {
    if !Bit(x, k) {
      if j == k {
        AddMultipleDiv(x, Pow2(k), 1);
      } else if j < k {
        SetBitBelow(x, k, j);
      } else {
        SetBitAbove(x, k, j);
      }
    }
  }

  /** 2^n splits at bit k < n into 2^k, the factor 2 of bit k, and the bits above. */
  lemma Pow2SplitAt(k: nat, n: nat)
    requires k < n
    ensures Pow2(n) == Pow2(k) * (2 * Pow2(n - k - 1))
  {
    var pk, pt := Pow2(k), Pow2(n - k - 1);
    Pow2Add(k + 1, n - k - 1);
    var p1 := Pow2(k + 1);
    assert p1 == 2 * pk;
    assert Pow2(n) == p1 * pt;
    MulComm(pt, p1, 2 * pk);
    TwiceLeft(pk, pt);
  }

  lemma TwiceLeft(a: int, b: int)
    ensures (2 * a) * b == a * (2 * b) && b * (2 * a) == a * (2 * b)
  {
  }

  /** Setting bit k of an n-bit word, k < n, gives an n-bit word. */
  lemma SetBitBound(x: int, k: nat, n: nat)
    requires 0 <= x < Pow2(n) && k < n
    ensures SetBit(x, k) < Pow2(n)
  {
    if !Bit(x, k) {
      Pow2SplitAt(k, n);
      AddBelowEvenQuotient(x, Pow2(k), Pow2(n - k - 1));
    }
  }

  /** A left shift inside an n-bit word moves bit j - s to bit j. */
  lemma BitOfShiftLeft(x: int, s: nat, n: nat, j: nat)
    requires x >= 0 && j < n
    ensures Bit(ShiftLeft(x, s, n), j) == (j >= s && Bit(x, j - s))
  {
    BitOfMod(x * Pow2(s), j, n);
    BitOfMul(x, s, j);
  }

  /** Dividing by 2^s and then by 2^j divides by 2^(j + s). */
  lemma DivPow2Twice(x: int, s: nat, j: nat)
    requires x >= 0
    ensures x / Pow2(s) / Pow2(j) == x / Pow2(j + s)
  {
    var ps, pj := Pow2(s), Pow2(j);
    Pow2Add(s, j);
    DivDivInt(x, ps, pj);
  }

  /** A right shift by s moves bit j + s to bit j. */
  lemma BitOfShiftRight(x: int, s: nat, j: nat)
    requires x >= 0
    ensures Bit(x / Pow2(s), j) == Bit(x, j + s)
  {
    DivPow2Twice(x, s, j);
  }

  /** a | b: bit j of the result is set when it is set in a or in b (OrBit). */
  function Or(a: int, b: int): (r: int)
    requires a >= 0 && b >= 0
    ensures r >= 0
    decreases a + b
  {
    if a == 0 && b == 0 then 0
    else 2 * Or(a / 2, b / 2) + (if a % 2 == 1 || b % 2 == 1 then 1 else 0)
  }

  /** Bit j of x is bit j - 1 of x / 2. */
  lemma BitOfHalf(x: int, j: nat)
    requires x >= 0 && j >= 1
    ensures Bit(x, j) == Bit(x / 2, j - 1)
  {
    assert Pow2(1) == 2;
    DivPow2Twice(x, 1, j - 1);
  }

  lemma {:induction false} OrBit(a: int, b: int, j: nat)
    requires a >= 0 && b >= 0
    ensures Bit(Or(a, b), j) == (Bit(a, j) || Bit(b, j))
    decreases j
  {
    var low := if a % 2 == 1 || b % 2 == 1 then 1 else 0;
    if a == 0 && b == 0 {
      assert 0 / Pow2(j) == 0;
    } else {
      var h := Or(a / 2, b / 2);
      DivOfSum(h, 2, low);
      if j == 0 {
        assert Pow2(0) == 1;
      } else {
        BitOfHalf(Or(a, b), j);
        BitOfHalf(a, j);
        BitOfHalf(b, j);
        OrBit(a / 2, b / 2, j - 1);
      }
    }
  }

  /** The bits of an n-bit number at n and above are clear. */
  lemma BitBeyond(x: int, n: nat, k: nat)
    requires 0 <= x < Pow2(n) && k >= n
    ensures !Bit(x, k)
  {
    Pow2Monotone(n, k);
    DivUnique(x, Pow2(k), 0, x);
  }

  /** The Or of two n-bit numbers is an n-bit number. */
  lemma {:induction false} OrBound(a: int, b: int, n: nat)
    requires 0 <= a < Pow2(n) && 0 <= b < Pow2(n)
    ensures Or(a, b) < Pow2(n)
    decreases n
  {
    if !(a == 0 && b == 0) {
      assert n >= 1;
      assert a / 2 < Pow2(n - 1) && b / 2 < Pow2(n - 1);
      OrBound(a / 2, b / 2, n - 1);
    }
  }

  /** x >> t: dividing by 2^t never grows a non-negative number. */
  function ShiftRight(x: int, t: nat): (r: int)
    requires x >= 0
    ensures 0 <= r <= x
  {
    DivNotAbove(x, Pow2(t));
    x / Pow2(t)
  }

  lemma DivNotAbove(x: int, p: int)
    requires x >= 0 && p >= 1
    ensures 0 <= x / p <= x
  {
    var q := x / p;
    assert x == q * p + x % p;
    if q > x {
      MulAtLeast(q, p);
    }
  }
}
