// Shared helpers: optional values and results, and the fixed-width integer
// types of the C# / C sources with their explicit wrap-around.

module Wrappers {
  datatype Option<T> = None | Some(value: T)
  {
    predicate IsSome() { Some? }
  }

  /** The outcome of an operation that the source may abort with an exception. */
  datatype Result<T> = Ok(value: T) | Fail(reason: string)
}

module Words {
  const U8: int := 0x100
  const U16: int := 0x1_0000
  const U31: int := 0x8000_0000
  const U32: int := 0x1_0000_0000
  const U63: int := 0x8000_0000_0000_0000
  const U64: int := 0x1_0000_0000_0000_0000

  type byte = x: int | 0 <= x < 0x100
  type ushort = x: int | 0 <= x < 0x1_0000
  type uint = x: int | 0 <= x < 0x1_0000_0000
  type int32 = x: int | -0x8000_0000 <= x < 0x8000_0000
  type ulong = x: int | 0 <= x < 0x1_0000_0000_0000_0000
  type int64 = x: int | -0x8000_0000_0000_0000 <= x < 0x8000_0000_0000_0000

  /** 2 to the power n. */
  function Pow2(n: nat): (r: nat)
    ensures r >= 1
    ensures n >= 1 ==> r % 2 == 0
  {
    if n == 0 then 1 else 2 * Pow2(n - 1)
  }

  /** x * 2^n, unfolded one doubling at a time (keeps x * 2^n out of proofs that do not need it). */
  function Scaled(x: int, n: nat): int
  {
    if n == 0 then x else 2 * Scaled(x, n - 1)
  }

  lemma {:induction false} ScaledIsProduct(x: int, n: nat)
    ensures Scaled(x, n) == x * Pow2(n)
  {
    if n > 0 {
      ScaledIsProduct(x, n - 1);
      assert x * Pow2(n) == 2 * (x * Pow2(n - 1));
    }
  }

  lemma {:induction false} Pow2Add(a: nat, b: nat)
    ensures Pow2(a + b) == Pow2(a) * Pow2(b)
  {
    if a > 0 {
      Pow2Add(a - 1, b);
    }
  }

  lemma {:induction false} Pow2Monotone(a: nat, b: nat)
    requires a <= b
    ensures Pow2(a) <= Pow2(b)
  {
    if a < b {
      Pow2Monotone(a, b - 1);
    }
  }

  /** The powers of two of the byte widths. */
  lemma Pow2Bytes()
    ensures Pow2(8) == 256 && Pow2(16) == U16 && Pow2(32) == U32
  {
    assert Pow2(8) == 256;
    Pow2Add(8, 8);
    Pow2Add(16, 16);
  }

  /** A C# `(byte)` cast: keep the low 8 bits. */
  function ToU8(x: int): (r: byte)
    ensures 0 <= x < U8 ==> r == x
    ensures (r - x) % U8 == 0
  {
    x % U8
  }

  /** A C# `(ushort)` cast: keep the low 16 bits. */
  function ToU16(x: int): (r: ushort)
    ensures 0 <= x < U16 ==> r == x
    ensures (r - x) % U16 == 0
  {
    x % U16
  }

  /** A C# `(uint)` cast or unsigned 32-bit arithmetic: keep the low 32 bits. */
  function ToU32(x: int): (r: uint)
    ensures 0 <= x < U32 ==> r == x
    ensures (r - x) % U32 == 0
  {
    x % U32
  }

  /** A C# `(int)` cast of a wider value: keep the low 32 bits, read as two's complement. */
  function ToI32(x: int): (r: int32)
    ensures -U31 <= x < U31 ==> r == x
    ensures (r - x) % U32 == 0
  {
    var u := x % U32;
    if u >= U31 then u - U32 else u
  }

  /** Unchecked 64-bit signed arithmetic: keep the low 64 bits, read as two's complement. */
  function ToI64(x: int): (r: int64)
    ensures -U63 <= x < U63 ==> r == x
    ensures (r - x) % U64 == 0
  {
    var u := x % U64;
    if u >= U63 then u - U64 else u
  }

  /** Two multiples of 2^32 add up, and negate, to a multiple of 2^32. */
  lemma ResidueSum32(x: int, y: int)
    requires x % U32 == 0 && y % U32 == 0
    ensures (x + y) % U32 == 0 && (-x - y) % U32 == 0
  {
    assert x + y == U32 * (x / U32 + y / U32);
    assert -x - y == U32 * (-(x / U32) - y / U32);
  }

  /** The 32-bit value congruent to x. */
  lemma U32Residue(x: int, y: int)
    requires 0 <= y < U32 && (x - y) % U32 == 0
    ensures ToU32(x) == y
  {
  }

  /** C#'s `/` on integers: the quotient is truncated toward zero. */
  function DivT(a: int, b: int): (q: int)
    requires b != 0
    ensures a >= 0 && b > 0 ==> q == a / b
    ensures a < 0 && b > 0 ==> q == -((-a) / b)
  {
    var n := (if a < 0 then -a else a) / (if b < 0 then -b else b);
    if (a < 0) == (b < 0) then n else -n
  }

  /** C#'s `%` on integers: the remainder takes the sign of the dividend. */
  function RemT(a: int, b: int): (r: int)
    requires b != 0
    ensures a >= 0 ==> r >= 0
    ensures a == DivT(a, b) * b + r
  {
    a - DivT(a, b) * b
  }

  /** Bit k of x (for a negative x, of its two's complement). */
  predicate Bit(x: int, k: nat)
  {
    (x / Pow2(k)) % 2 == 1
  }

  /** Halving a quotient by 2^k gives the quotient by 2^(k+1): one step of a right shift. */
  lemma DivPow2Step(x: nat, k: nat)
    ensures x / Pow2(k) / 2 == x / Pow2(k + 1)
  {
    var a := Pow2(k);
    var q := x / a;
    var r := x % a;
    assert x == a * q + r;
    assert q == 2 * (q / 2) + q % 2;
    assert x == (2 * a) * (q / 2) + (a * (q % 2) + r);
    assert 0 <= a * (q % 2) + r < 2 * a;
    DivUnique(x, 2 * a, q / 2, a * (q % 2) + r);
  }

  lemma DivUnique(x: int, d: int, q: int, r: int)
    requires d > 0 && 0 <= r < d && x == d * q + r
    ensures x / d == q && x % d == r
  {
    var q0, r0 := x / d, x % d;
    assert d * (q - q0) == r0 - r by {
      assert d * q0 + r0 == d * q + r;
    }
    if q > q0 {
      MulAtLeast(d, q - q0);
    } else if q < q0 {
      MulAtLeast(d, q0 - q);
    }
  }

  lemma MulAtLeast(d: int, k: int)
    requires d > 0 && k >= 1
    ensures d * k >= d
  {
  }

  lemma MulMonotone(a: int, b: int, c: int)
    requires a <= b && 0 <= c
    ensures a * c <= b * c
  {
  }

  /** Cancelling a positive factor from both sides of <=. */
  lemma MulCancelLe(x: int, y: int, p: int)
    requires p > 0 && x * p <= y * p
    ensures x <= y
  {
    if x > y {
      MulMonotone(y + 1, x, p);
    }
  }

  lemma DivAtLeast(x: int, k: int, p: int)
    requires p > 0 && x >= k * p
    ensures x / p >= k
  {
    var q := x / p;
    assert x == q * p + x % p;
    if q < k {
      MulMonotone(q, k - 1, p);
    }
  }

  lemma DivBelow(x: int, k: int, p: int)
    requires p > 0 && 0 <= x < k * p
    ensures x / p < k
  {
    var q := x / p;
    assert x == q * p + x % p;
    if q >= k {
      MulMonotone(k, q, p);
    }
  }

  /** Dividing by a and then by b divides by a * b. */
  lemma DivDivInt(v: int, a: int, b: int)
    requires v >= 0 && a > 0 && b > 0
    ensures v / a / b == v / (a * b)
  {
    var q1, r1 := v / a, v % a;
    var q2, r2 := q1 / b, q1 % b;
    assert v == a * q1 + r1;
    assert q1 == b * q2 + r2;
    assert a * q1 == (a * b) * q2 + a * r2;
    MulMonotone(r2, b - 1, a);
    assert r2 * a <= a * b - a;
    DivUnique(v, a * b, q2, a * r2 + r1);
  }

  lemma MulDouble(x: int, y: int)
    ensures x * (2 * y) == 2 * (x * y)
  {
  }
}
