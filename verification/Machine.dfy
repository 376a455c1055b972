/**
  Fixed-width machine arithmetic as the Go code uses it: 64-bit words are integers below
  2^64, a conversion to a signed type reads the low bits as two's complement, a left shift
  drops the bits that leave the word, and `|` works bit by bit.
 */
module Machine {
  type Byte = b: int | 0 <= b < 256
  type Bytes = seq<Byte>

  const TWO_32: int := 0x1_0000_0000
  const TWO_64: int := 0x1_0000_0000_0000_0000
  const MAX_INT: int := 0x7FFF_FFFF_FFFF_FFFF

  /** int64(x), and equally the result of a wrapping 64-bit signed addition */
  function ToInt64(x: int): (r: int)
    ensures -MAX_INT - 1 <= r <= MAX_INT
    ensures -MAX_INT - 1 <= x <= MAX_INT ==> r == x
    ensures MAX_INT < x <= TWO_64 + MAX_INT ==> r == x - TWO_64
  {
    var low := x % TWO_64;
    if low <= MAX_INT then low else low - TWO_64
  }

  /** int32(x) */
  function ToInt32(x: int): int {
    var low := x % TWO_32;
    if 2 * low < TWO_32 then low else low - TWO_32
  }

  function Pow2(n: nat): (p: nat)
    ensures p > 0
  {
    if n == 0 then 1 else 2 * Pow2(n - 1)
  }

  /** uint64 x << n */
  function ShiftLeft(x: nat, n: nat): nat {
    (x * Pow2(n)) % TWO_64
  }

  /** x | y on unsigned words, bit by bit */
  function Or(x: nat, y: nat): nat
    decreases x + y
  {
    if x == 0 && y == 0 then 0
    else (if x % 2 == 1 || y % 2 == 1 then 1 else 0) + 2 * Or(x / 2, y / 2)
  }

  lemma {:induction false} Pow2Add(m: nat, n: nat)
    ensures Pow2(m + n) == Pow2(m) * Pow2(n)
  {
    if m > 0 {
      Pow2Add(m - 1, n);
    }
  }

  /** Words without common bits: the bitwise or is the sum. */
  lemma {:induction false} OrIsSum(x: nat, y: nat, n: nat)
    requires x < Pow2(n)
    ensures Or(x, y * Pow2(n)) == x + y * Pow2(n)
    decreases n, y
  {
    if n > 0 {
      var half := y * Pow2(n - 1);
      assert y * Pow2(n) == 2 * half;
      OrIsSum(x / 2, y, n - 1);
    } else if y > 0 {
      OrZero(y);
    }
  }

  lemma {:induction false} OrZero(y: nat)
    ensures Or(0, y) == y
    decreases y
  {
    if y > 0 {
      OrZero(y / 2);
    }
  }

  /** The bits of a shifted digit that stay in the word form a multiple of the shift weight. */
  lemma ShiftLeftMultiple(x: nat, n: nat) returns (q: nat)
    requires n <= 64
    ensures ShiftLeft(x, n) == q * Pow2(n)
    ensures (q + 1) * Pow2(n) <= TWO_64
  {
    hide Pow2;
    Pow2Add(64 - n, n);
    Pow2Of64();
    var w, p := Pow2(64 - n), Pow2(n);
    q := x % w;
    ModScale(x, w, p);
    ScaleMonotone(q + 1, w, p);
  }

  lemma ScaleMonotone(a: int, b: int, p: nat)
    requires a <= b
    ensures a * p <= b * p
  {
  }

  lemma Pow2Of64()
    ensures Pow2(64) == TWO_64
  {
    hide Pow2;
    Pow2Of4();
    Pow2Add(4, 4);
    Pow2Add(8, 8);
    Pow2Add(16, 16);
    Pow2Add(32, 32);
  }

  lemma Pow2Of4()
    ensures Pow2(4) == 16
  {
  }

  lemma ModScale(x: nat, w: nat, p: nat)
    requires w > 0 && p > 0
    ensures (x * p) % (w * p) == (x % w) * p
  {
    var d, r := x / w, x % w;
    assert x == d * w + r;
    assert x * p == d * (w * p) + r * p by {
      calc {
        x * p;
        (d * w + r) * p;
        d * w * p + r * p;
        d * (w * p) + r * p;
      }
    }
    assert 0 <= r * p < w * p;
    ModUnique(x * p, w * p, d, r * p);
  }

  lemma ModUnique(x: int, m: int, d: int, r: int)
    requires m > 0 && 0 <= r < m && x == d * m + r
    ensures x % m == r
  {
    var e, s := x / m, x % m;
    assert x == e * m + s;
    assert (d - e) * m == s - r;
    ScaleAtLeast(d - e, m);
  }

  lemma ScaleAtLeast(k: int, m: int)
    requires m > 0
    ensures k >= 1 ==> k * m >= m
    ensures k <= -1 ==> k * m <= -m
  {
  }
}
