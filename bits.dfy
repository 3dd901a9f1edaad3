/** Fixed-width integers of the C++ code, written as ranges of `int`, and the
    division facts the wrap-around arithmetic of both cores rests on. */
module Bits {

  /** `uint8_t` */
  type Byte = b: int | 0 <= b < 0x100
  /** `uint16_t` */
  type Word = w: int | 0 <= w < 0x1_0000

  /** 256^n: the range of an n-byte unsigned integer. */
  function Pow256(n: nat): (r: nat)
    ensures r >= 1
  {
    if n == 0 then 1 else 256 * Pow256(n - 1)
  }

  /** 16^n: the range of an n-digit hexadecimal number. */
  function Pow16(n: nat): (r: nat)
    ensures r >= 1
  {
    if n == 0 then 1 else 16 * Pow16(n - 1)
  }

  /** A positive multiple of m is at least m. */
  lemma {:induction false} MulAtLeast(k: int, m: int)
    requires k >= 1 && m >= 0
    ensures k * m >= m
    decreases k
  {
    if k > 1 {
      MulAtLeast(k - 1, m);
      assert k * m == (k - 1) * m + m;
    }
  }

  /** Euclidean division has one quotient and one remainder. */
  lemma DivModUnique(n: int, m: int, q: int, r: int)
    requires m > 0 && 0 <= r < m && n == q * m + r
    ensures n / m == q && n % m == r
  {
    var q', r' := n / m, n % m;
    assert n == q' * m + r';
    assert (q - q') * m == r' - r by {
      assert (q - q') * m == q * m - q' * m;
    }
    if q > q' {
      MulAtLeast(q - q', m);
    } else if q < q' {
      MulAtLeast(q' - q, m);
    }
  }

  /** Multiplying by a non-negative factor keeps the order. */
  lemma MulMonotone(a: int, b: int, m: int)
    requires a <= b && m >= 0
    ensures a * m <= b * m
  {
    if a < b {
      MulAtLeast(b - a, m);
      assert b * m - a * m == (b - a) * m;
    }
  }

  /** Splitting a remainder by a product: the low part modulo q and the next
      digit in base r. */
  lemma ModOfProduct(n: int, q: int, r: int)
    requires q > 0 && r > 0
    ensures n % (q * r) == ((n / q) % r) * q + n % q
    ensures n / (q * r) == (n / q) / r
  {
    var a, b := n / q, n % q;
    var c, d := a / r, a % r;
    assert n == a * q + b;
    assert a == c * r + d;
    assert a * q == c * (q * r) + d * q by {
      assert a * q == (c * r + d) * q;
      assert (c * r + d) * q == (c * r) * q + d * q;
      assert (c * r) * q == c * (q * r);
    }
    MulMonotone(d, r - 1, q);
    assert (r - 1) * q == q * r - q;
    DivModUnique(n, q * r, c, d * q + b);
  }

  /** Adding a multiple of the modulus does not change the remainder. */
  lemma ModAddMultiple(n: int, k: int, m: int)
    requires m > 0
    ensures (n + k * m) % m == n % m
  {
    DivModUnique(n + k * m, m, n / m + k, n % m);
  }

  /** Reducing an operand before adding does not change the sum's remainder. */
  lemma ModAddMod(a: int, b: int, m: int)
    requires m > 0
    ensures (a % m + b) % m == (a + b) % m
  {
    ModAddMultiple(a % m + b, a / m, m);
  }

  /** One more factor of m. */
  lemma MulNext(k: int, m: int)
    ensures (k + 1) * m == k * m + m
  {
  }

  /** Appending to a sequence that already has a prefix. */
  lemma AppendAssoc<T>(a: seq<T>, b: seq<T>, c: seq<T>)
    ensures (a + b) + c == a + (b + c)
  {
  }
}
