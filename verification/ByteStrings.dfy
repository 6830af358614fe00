// Bytes and little-endian integers.
module ByteStrings {
  type byte = b: int | 0 <= b < 256
  type Bytes = seq<byte>

  function Power256(k: nat): nat { if k == 0 then 1 else 256 * Power256(k - 1) }

  // The `k` lowest bytes of a number, lowest first.
  function LeBytes(n: nat, k: nat): (r: Bytes)
    ensures |r| == k
  {
    if k == 0 then [] else [n % 256] + LeBytes(n / 256, k - 1)
  }

  function LeValue(b: Bytes): nat {
    if b == [] then 0 else b[0] + 256 * LeValue(b[1..])
  }

  lemma {:induction false} LeRoundTrip(n: nat, k: nat)
    requires n < Power256(k)
    ensures LeValue(LeBytes(n, k)) == n
  {
    if k > 0 {
      LeRoundTrip(n / 256, k - 1);
      assert LeBytes(n, k)[1..] == LeBytes(n / 256, k - 1);
    }
  }

  lemma {:induction false} LeCanonical(b: Bytes)
    ensures LeBytes(LeValue(b), |b|) == b
    ensures LeValue(b) < Power256(|b|)
  {
    if b != [] {
      LeCanonical(b[1..]);
      assert LeValue(b) % 256 == b[0] && LeValue(b) / 256 == LeValue(b[1..]);
    }
  }
}
