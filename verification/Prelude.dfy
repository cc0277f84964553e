/** Shared vocabulary: optional values, bytes, and fixed-width integer encodings. */
module Prelude {

  datatype Option<+T> = None | Some(value: T)

  newtype Byte = x: int | 0 <= x < 256

  type Bytes = seq<Byte>

  function Min(a: int, b: int): (m: int)
    ensures m <= a && m <= b && (m == a || m == b)
  {
    if a <= b then a else b
  }

  function Max(a: int, b: int): (m: int)
    ensures a <= m && b <= m && (m == a || m == b)
  {
    if a <= b then b else a
  }

  /** Truncated subtraction, the source's `saturating_sub`. */
  function SatSub(a: int, b: int): (d: nat)
    ensures d == Max(0, a - b)
  {
    if a <= b then 0 else a - b
  }

  /** A buffer of n zero bytes. */
  function Zeros(n: nat): (z: Bytes)
    ensures |z| == n
    ensures forall k :: 0 <= k < n ==> z[k] == 0
  {
    seq(n, _ => 0 as Byte)
  }

  /** Data cut or zero-padded to n bytes. */
  function Fit(data: Bytes, n: nat): (r: Bytes)
    ensures |r| == n
    ensures forall k | 0 <= k < n :: r[k] == if k < |data| then data[k] else 0
  {
    if |data| >= n then data[..n] else data + Zeros(n - |data|)
  }

  /** Every element of a list of indices is below n. */
  predicate InRange(idxs: seq<nat>, n: nat)
  {
    forall k | 0 <= k < |idxs| :: idxs[k] < n
  }

  lemma MulAtLeast(k: int, size: nat)
    requires k >= 1
    ensures k * size >= size
  {
    assert k * size == (k - 1) * size + size;
    assert (k - 1) * size >= 0;
  }

  lemma DivideExact(q: int, r: int, d: nat)
    requires d > 0 && 0 <= r < d
    ensures (q * d + r) / d == q
  {
    var n := q * d + r;
    var q1, r1 := n / d, n % d;
    assert n == d * q1 + r1;
    assert (q - q1) * d == r1 - r by { assert (q - q1) * d == q * d - q1 * d; }
    if q - q1 >= 1 {
      assert (q - q1) * d >= d by { MulAtLeast(q - q1, d); }
    } else if q1 - q >= 1 {
      assert (q1 - q) * d == r - r1 by { assert (q1 - q) * d == q1 * d - q * d; }
      MulAtLeast(q1 - q, d);
    }
  }

  /** The k low-order bytes of n, least significant first. */
  function LittleEndian(n: nat, k: nat): (b: Bytes)
    ensures |b| == k
  {
    if k == 0 then [] else [(n % 256) as Byte] + LittleEndian(n / 256, k - 1)
  }

  function FromLittleEndian(b: Bytes): nat
  {
    if b == [] then 0 else b[0] as nat + 256 * FromLittleEndian(b[1..])
  }

  function Pow256(k: nat): (p: nat)
    ensures p > 0
  {
    if k == 0 then 1 else 256 * Pow256(k - 1)
  }

  lemma {:induction false} LittleEndianRoundTrip(n: nat, k: nat)
    requires n < Pow256(k)
    ensures FromLittleEndian(LittleEndian(n, k)) == n
  {
    if k > 0 {
      LittleEndianRoundTrip(n / 256, k - 1);
      assert LittleEndian(n, k)[1..] == LittleEndian(n / 256, k - 1);
    }
  }

  lemma {:induction false} FromLittleEndianRoundTrip(b: Bytes)
    ensures LittleEndian(FromLittleEndian(b), |b|) == b
  {
    if b != [] {
      FromLittleEndianRoundTrip(b[1..]);
      var more := FromLittleEndian(b[1..]);
      DivideExact(more, b[0] as nat, 256);
      assert (b[0] as nat + 256 * more) % 256 == b[0] as nat;
      assert LittleEndian(FromLittleEndian(b), |b|) == [b[0]] + LittleEndian(more, |b| - 1);
    }
  }

  /** The j-th byte is the j-th base-256 digit, least significant first. */
  lemma {:induction false} LittleEndianDigits(n: nat, k: nat, j: nat)
    requires j < k
    ensures LittleEndian(n, k)[j] as nat == n / Pow256(j) % 256
  {
    if j > 0 {
      LittleEndianDigits(n / 256, k - 1, j - 1);
      DivideTwice(n, 256, Pow256(j - 1));
    }
  }

  lemma DivideTwice(n: nat, a: nat, b: nat)
    requires a > 0 && b > 0
    ensures a * b > 0 && n / a / b == n / (a * b)
  {
    var q, r := n / a, n % a;
    var q2, r2 := q / b, q % b;
    MulAtLeast(a, b);
    Regroup(n, a, b, q, r, q2, r2);
    DivideExact(q2, a * r2 + r, a * b);
  }

  lemma Regroup(n: nat, a: nat, b: nat, q: nat, r: nat, q2: nat, r2: nat)
    requires n == a * q + r && q == b * q2 + r2 && r < a && r2 < b
    ensures n == q2 * (a * b) + (a * r2 + r) && 0 <= a * r2 + r < a * b
  {
    assert a * (b * q2 + r2) == a * (b * q2) + a * r2;
    assert a * (b * q2) == q2 * (a * b);
    MulMonotone(a, r2, b - 1);
    assert a * (b - 1) == a * b - a;
    MulMonotone(a, 0, r2);
  }

  lemma MulMonotone(a: nat, x: int, y: int)
    requires x <= y
    ensures a * x <= a * y
  {
    assert a * y - a * x == a * (y - x);
    assert a * (y - x) >= 0;
  }
}
