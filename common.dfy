/** Value types shared by every component, and the integer semantics of the
    Python operators the integration relies on (int() truncation, floor-mod,
    round-half-even, max/min clamping). */
module Common {

  datatype Option<T> = None | Some(value: T)

  datatype Result<T, E> = Ok(value: T) | Err(error: E)

  /** The exceptions the core can raise. Both are caught by the animation
      loop's generic handler or propagate to the host platform. */
  datatype Fault =
    | ByteOutOfRange   // ValueError from bytes([...]) for a value outside 0..255
    | ZeroDivision     // ZeroDivisionError from / or %

  /** Result of a call that returns nothing but may raise. */
  datatype Outcome = Pass | Fail(fault: Fault)

  /** An (r, g, b) colour as the Python code carries it: plain ints that
      nothing checks until they reach bytes([...]). */
  datatype RGB = RGB(r: int, g: int, b: int)

  const Black := RGB(0, 0, 0)

  predicate InByteRange(c: RGB) {
    0 <= c.r < 256 && 0 <= c.g < 256 && 0 <= c.b < 256
  }

  /** `n` copies of colour `c`, as `[c] * n` builds them. */
  function Repeat(c: RGB, n: nat): (r: seq<RGB>)
    ensures |r| == n
    ensures forall j :: 0 <= j < n ==> r[j] == c
  {
    seq(n, _ => c)
  }

  /** Python's int() applied to the exact quotient n / d: rounds toward zero. */
  function TruncDiv(n: int, d: int): int
    requires d > 0
  {
    if n >= 0 then n / d else -((-n) / d)
  }

  lemma TruncDivBounds(n: int, d: int)
    requires d > 0
    ensures n >= 0 ==> 0 <= TruncDiv(n, d) && TruncDiv(n, d) * d <= n < TruncDiv(n, d) * d + d
    ensures n < 0 ==> TruncDiv(n, d) <= 0 && TruncDiv(n, d) * d - d < n <= TruncDiv(n, d) * d
  {
    if n >= 0 {
      assert n == (n / d) * d + n % d && 0 <= n % d < d;
    } else {
      assert -n == ((-n) / d) * d + (-n) % d && 0 <= (-n) % d < d;
    }
  }

  /** m * w by repeated addition, for lengths built up one block at a time. */
  function Times(m: nat, w: nat): nat
  {
    if m == 0 then 0 else Times(m - 1, w) + w
  }

  lemma {:induction false} TimesIsMul(m: nat, w: nat)
    ensures Times(m, w) == m * w
  {
    if m > 0 {
      TimesIsMul(m - 1, w);
      assert (m - 1) * w + w == m * w;
    }
  }

  lemma DivModTimes(j: nat, w: nat)
    requires w > 0
    ensures j == Times(j / w, w) + j % w
  {
    TimesIsMul(j / w, w);
  }

  lemma MulMono(x: int, y: int, d: int)
    requires d >= 0 && x <= y
    ensures x * d <= y * d
  {
  }

  lemma MulCancelLe(x: int, y: int, d: int)
    requires d > 0 && x * d <= y * d
    ensures x <= y
  {
  }

  lemma MulCancelLt(x: int, y: int, d: int)
    requires d > 0 && x * d < y * d
    ensures x < y
  {
  }

  /** The quotient of j by k is q exactly when j lies in [q * k, q * k + k). */
  lemma DivOfRange(j: int, k: int, q: int)
    requires k > 0 && q * k <= j < q * k + k
    ensures j / k == q
  {
    var p := j / k;
    assert p * k <= j < p * k + k;
    MulCancelLt(p, q + 1, k);
    MulCancelLt(q, p + 1, k);
  }

  lemma PositiveFactors(a: nat, b: nat)
    requires a * b > 0
    ensures a >= 1 && b >= 1
  {
  }

  lemma DivNonneg(n: nat, d: int)
    requires d > 0
    ensures n / d >= 0
  {
  }

  lemma DivMulBelow(n: nat, d: nat)
    requires d >= 1
    ensures d * (n / d) <= n
  {
  }

  /** Python's int() on a (real-valued) float: rounds toward zero. */
  function TruncReal(x: real): (r: int)
    ensures x >= 0.0 ==> r as real <= x < r as real + 1.0
    ensures x < 0.0 ==> r as real - 1.0 < x <= r as real
  {
    if x >= 0.0 then x.Floor else -((-x).Floor)
  }

  /** Python's a % m: the remainder takes the sign of the divisor `m`.
      Dafny's own % is Euclidean and agrees only when m > 0. */
  function PyMod(a: int, m: int): (r: int)
    requires m != 0
    ensures m > 0 ==> 0 <= r < m
    ensures m < 0 ==> m < r <= 0
    ensures r == a % m || r == a % m + m
  {
    var e := a % m;
    if m > 0 || e == 0 then e else e + m
  }

  /** Python's round() on a float: to the nearest integer, ties to even. */
  function RoundHalfEven(x: real): (r: int)
    ensures x - 0.5 <= r as real <= x + 0.5
    ensures r as real == x + 0.5 || r as real == x - 0.5 ==> r % 2 == 0
  {
    var f := x.Floor;
    var d := x - f as real;
    if d < 0.5 then f
    else if d > 0.5 then f + 1
    else if f % 2 == 0 then f
    else f + 1
  }

  /** max(lo, min(hi, x)). */
  function Clamp(x: int, lo: int, hi: int): (r: int)
    requires lo <= hi
    ensures lo <= r <= hi
    ensures lo <= x <= hi ==> r == x
    ensures x < lo ==> r == lo
    ensures x > hi ==> r == hi
  {
    if x > hi then hi else if x < lo then lo else x
  }

  /** Integer channel scaling int(c * (b / 255.0)), read as the exact
      rational c * b / 255 truncated toward zero. */
  function ScaleChannel(c: int, b: int): (r: int)
    ensures c * b >= 0 ==> 0 <= r && r * 255 <= c * b < r * 255 + 255
  {
    TruncDivBounds(c * b, 255);
    TruncDiv(c * b, 255)
  }

  lemma ScaleChannelBounds(c: int, b: int)
    requires 0 <= c && 0 <= b <= 255
    ensures 0 <= ScaleChannel(c, b) <= c
    ensures b == 255 ==> ScaleChannel(c, b) == c
    ensures b == 0 ==> ScaleChannel(c, b) == 0
  {
    MulMono(0, c, b);
    MulMono(b, 255, c);
    TruncDivBounds(c * b, 255);
  }

  /** A colour scaled channel by channel with brightness `b`. */
  function ScaleColor(c: RGB, b: int): (r: RGB)
    ensures InByteRange(c) && 0 <= b <= 255 ==>
      InByteRange(r) && r.r <= c.r && r.g <= c.g && r.b <= c.b
  {
    var r := RGB(ScaleChannel(c.r, b), ScaleChannel(c.g, b), ScaleChannel(c.b, b));
    if InByteRange(c) && 0 <= b <= 255 then
      ScaleChannelBounds(c.r, b);
      ScaleChannelBounds(c.g, b);
      ScaleChannelBounds(c.b, b);
      r
    else r
  }

  lemma ScaleColorBounds(c: RGB, b: int)
    requires InByteRange(c) && 0 <= b <= 255
    ensures InByteRange(ScaleColor(c, b))
    ensures b == 255 ==> ScaleColor(c, b) == c
    ensures ScaleColor(c, b).r <= c.r && ScaleColor(c, b).g <= c.g && ScaleColor(c, b).b <= c.b
  {
    ScaleChannelBounds(c.r, b);
    ScaleChannelBounds(c.g, b);
    ScaleChannelBounds(c.b, b);
  }
}
