/**
 * Integer readings of the JavaScript number operations the build engine and
 * the hotbar rely on. JavaScript numbers are doubles; every value that reaches
 * these operations in the game is an integer, so they are modelled on `int`.
 */
module JsNumbers {

  /** `clamp(v, a, b)`, written `Math.max(a, Math.min(b, v))` in both build.js and inventory.js. */
  function Clamp(v: int, lo: int, hi: int): (r: int)
    ensures lo <= hi ==> lo <= r <= hi
    ensures lo <= v <= hi ==> r == v
    ensures v < lo ==> r == lo
    ensures lo <= hi < v ==> r == hi
    ensures hi < lo ==> r == lo
  {
    var m := if hi < v then hi else v;
    if m < lo then lo else m
  }

  const TwoTo31: int := 0x8000_0000
  const TwoTo32: int := 0x1_0000_0000

  /** `v | 0`: ToInt32, the two's-complement wrap-around of an integer into 32 bits. */
  function ToInt32(v: int): (r: int)
    ensures -TwoTo31 <= r < TwoTo31
    ensures (v - r) % TwoTo32 == 0
    ensures -TwoTo31 <= v < TwoTo31 ==> r == v
  {
    (v + TwoTo31) % TwoTo32 - TwoTo31
  }

  /** `a % n` for a positive divisor: JavaScript's remainder truncates toward zero, so it takes the sign of `a`. */
  function JsRem(a: int, n: int): (r: int)
    requires n > 0
    ensures a >= 0 ==> 0 <= r < n
    ensures a < 0 ==> -n < r <= 0
    ensures (a - r) % n == 0
  {
    if a >= 0 then
      Residue(a - a % n, n, a / n, 0);
      a % n
    else
      Residue(a + (-a) % n, n, -((-a) / n), 0);
      -((-a) % n)
  }

  /** Division with remainder is unique: `m = n * q + r` with `0 <= r < n` makes `r` the remainder of `m`. */
  lemma Residue(m: int, n: int, q: int, r: int)
    requires n > 0 && 0 <= r < n && m == n * q + r
    ensures m % n == r
  {
    var d, e := m / n, m % n;
    assert m == n * d + e;
    assert n * (q - d) == e - r;
    if q != d {
      NonzeroMultiple(n, q - d);
    }
  }

  /** A non-zero multiple of `n` is at least `n` away from zero. */
  lemma NonzeroMultiple(n: int, k: int)
    requires n > 0 && k != 0
    ensures n * k >= n || n * k <= -n
  {
  }
}
