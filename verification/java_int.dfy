/**
 * Java's fixed-width integer arithmetic on top of Dafny's unbounded `int`:
 * the `int` and `long` ranges, the wrap-around of `int` arithmetic and of the
 * narrowing cast `(int)`, and `long` division, which truncates toward zero.
 */
module JavaInt {

  const TWO_32: int := 0x1_0000_0000
  const MIN_INT: int := -0x8000_0000
  const MAX_INT: int := 0x7fff_ffff
  const MIN_LONG: int := -0x8000_0000_0000_0000
  const MAX_LONG: int := 0x7fff_ffff_ffff_ffff

  /** A value of Java type `int`. */
  type Int32 = x: int | MIN_INT <= x <= MAX_INT

  /** A value of Java type `long`. */
  type Int64 = x: int | MIN_LONG <= x <= MAX_LONG

  /** `a` and `b` agree in their low 32 bits. */
  predicate Congruent32(a: int, b: int) {
    (a - b) % TWO_32 == 0
  }

  /** The Java `int` holding the low 32 bits of `x` (two's complement). */
  function Wrap32(x: int): (r: Int32)
    ensures Congruent32(x, r)
    ensures MIN_INT <= x <= MAX_INT ==> r == x
  {
    var m := (x - MIN_INT) % TWO_32;
    assert (x - (m + MIN_INT)) % TWO_32 == 0 by {
      assert x - MIN_INT == TWO_32 * ((x - MIN_INT) / TWO_32) + m;
      MultipleMod(TWO_32, (x - MIN_INT) / TWO_32);
    }
    if MIN_INT <= x <= MAX_INT then
      assert (x - MIN_INT) / TWO_32 == 0;
      m + MIN_INT
    else
      m + MIN_INT
  }

  /** Java `int` addition: `a + b` wraps around. */
  function Add32(a: Int32, b: Int32): (r: Int32)
    ensures Congruent32(a + b, r)
  {
    Wrap32(a + b)
  }

  /** Java `int` multiplication: `a * b` wraps around. */
  function Mul32(a: Int32, b: Int32): (r: Int32)
    ensures Congruent32(a * b, r)
  {
    Wrap32(a * b)
  }

  /** Java integer division for a positive divisor: the quotient is rounded toward zero. */
  function TruncDiv(a: int, b: int): (q: int)
    requires b > 0
    ensures -b < a - q * b < b
    ensures a >= 0 ==> 0 <= a - q * b
    ensures a <= 0 ==> a - q * b <= 0
  {
    if a >= 0 then a / b else -((-a) / b)
  }

  lemma MultipleMod(m: int, k: int)
    requires m > 0
    ensures (m * k) % m == 0
  {
    var r := (m * k) % m;
    var q := (m * k) / m;
    assert m * k == m * q + r;
    assert m * (k - q) == r;
    SmallMultiple(m, k - q);
  }

  /** The only multiple of `m` strictly between `-m` and `m` is zero. */
  lemma SmallMultiple(m: int, k: int)
    requires m > 0 && -m < m * k < m
    ensures k == 0
  {
  }

  /** Two integers with the same low 32 bits wrap to the same Java `int`. */
  lemma {:induction false} CongruentWrap(a: int, b: int)
    requires Congruent32(a, b)
    ensures Wrap32(a) == Wrap32(b)
  {
    var ra, rb := Wrap32(a), Wrap32(b);
    CongruentTrans(ra, a, b);
    CongruentTrans(ra, b, rb);
    // ra and rb are congruent and both lie in the Int32 range, so they coincide.
    var k := (ra - rb) / TWO_32;
    assert ra - rb == TWO_32 * k;
    SmallMultiple(TWO_32, k);
  }

  lemma CongruentTrans(a: int, b: int, c: int)
    requires Congruent32(b, a) && Congruent32(b, c)
    ensures Congruent32(a, c)
  {
    var j := (b - a) / TWO_32;
    var k := (b - c) / TWO_32;
    assert b - a == TWO_32 * j;
    assert b - c == TWO_32 * k;
    assert a - c == TWO_32 * (k - j);
    MultipleMod(TWO_32, k - j);
  }

  lemma CongruentAdd(a: int, a': int, b: int, b': int)
    requires Congruent32(a, a') && Congruent32(b, b')
    ensures Congruent32(a + b, a' + b')
  {
    var j := (a - a') / TWO_32;
    var k := (b - b') / TWO_32;
    assert a - a' == TWO_32 * j;
    assert b - b' == TWO_32 * k;
    assert (a + b) - (a' + b') == TWO_32 * (j + k);
    MultipleMod(TWO_32, j + k);
  }

  lemma CongruentScale(a: int, a': int, c: int)
    requires Congruent32(a, a')
    ensures Congruent32(c * a, c * a')
  {
    var j := (a - a') / TWO_32;
    assert a - a' == TWO_32 * j;
    assert c * a - c * a' == c * (a - a');
    assert c * (TWO_32 * j) == TWO_32 * (c * j);
    MultipleMod(TWO_32, c * j);
  }
}
