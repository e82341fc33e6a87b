/** The 32-bit integer operations of JavaScript on integer-valued numbers: the
    ToInt32 conversion of section 7.1.6 of ECMA-262, the `<<` operator and
    `Math.imul`. JavaScript numbers are modelled by unbounded integers, which is
    exact for the integer values below 2^53 that the hashes produce. */
module Int32 {

  const Two31: int := 0x8000_0000
  const Two32: int := 0x1_0000_0000

  predicate IsInt32(x: int) {
    -Two31 <= x < Two31
  }

  /** ToInt32 of an integer: the unique signed 32-bit value congruent to `x`
      modulo 2^32. */
  function ToInt32(x: int): (r: int)
    ensures IsInt32(r)
    ensures (x - r) % Two32 == 0
  {
    var m := x % Two32;
    if m >= Two31 then m - Two32 else m
  }

  /** Congruence modulo 2^32 determines the ToInt32 value, so ToInt32 is the
      identity on 32-bit values and cannot tell congruent inputs apart. */
  lemma ToInt32Unique(x: int, r: int)
    requires IsInt32(r)
    requires (x - r) % Two32 == 0
    ensures ToInt32(x) == r
  {
    var q := (x - r) / Two32;
    assert x - r == Two32 * q;
    if r >= 0 {
      assert x == Two32 * q + r;
    } else {
      assert x == Two32 * (q - 1) + (r + Two32);
    }
  }

  lemma ToInt32Congruent(a: int, b: int)
    requires (a - b) % Two32 == 0
    ensures ToInt32(a) == ToInt32(b)
  {
    var r := ToInt32(b);
    var p := (a - b) / Two32;
    var q := (b - r) / Two32;
    assert a - r == Two32 * (p + q);
    ToInt32Unique(a, r);
  }

  /** If `a` and `b` agree modulo 2^32, so do `k * a + c` and `k * b + c`. */
  lemma CongruentAffine(a: int, b: int, k: int, c: int)
    requires (a - b) % Two32 == 0
    ensures ((k * a + c) - (k * b + c)) % Two32 == 0
  {
    var q := (a - b) / Two32;
    assert a - b == Two32 * q;
    assert (k * a + c) - (k * b + c) == k * (a - b);
    assert k * (a - b) == Two32 * (k * q);
  }

  lemma CongruentTrans(a: int, b: int, d: int)
    requires (a - b) % Two32 == 0 && (b - d) % Two32 == 0
    ensures (a - d) % Two32 == 0
  {
    var p, q := (a - b) / Two32, (b - d) / Two32;
    assert a - d == Two32 * (p + q);
  }

  function Pow2(n: nat): (r: nat)
    ensures r >= 1
  {
    if n == 0 then 1 else 2 * Pow2(n - 1)
  }

  /** `x << n` for a shift count below 32: the operand is converted with ToInt32
      and the shifted bits are read back as a signed 32-bit value. */
  function ShiftLeft(x: int, n: nat): (r: int)
    requires n < 32
    ensures IsInt32(r)
    ensures (x * Pow2(n) - r) % Two32 == 0
  {
    var r := ToInt32(ToInt32(x) * Pow2(n));
    CongruentAffine(x, ToInt32(x), Pow2(n), 0);
    assert ((x * Pow2(n)) - (ToInt32(x) * Pow2(n))) % Two32 == 0;
    ToInt32Congruent(x * Pow2(n), ToInt32(x) * Pow2(n));
    r
  }

  /** `Math.imul(a, b)` on integer arguments: the low 32 bits of the product, signed. */
  function Imul(a: int, b: int): (r: int)
    ensures IsInt32(r)
    ensures (a * b - r) % Two32 == 0
  {
    ToInt32(a * b)
  }

  /** `Math.abs`. */
  function Abs(x: int): (r: nat)
    ensures r == x || r == -x
  {
    if x < 0 then -x else x
  }
}
