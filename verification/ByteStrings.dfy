/** Byte strings and the big-endian integers in them. */
module ByteStrings {
  import opened Wrappers

  type byte = n: nat | n < 0x100

  type Bytes = seq<byte>

  function Radix(k: nat): (r: nat)
    ensures r > 0
  {
    if k == 0 then 1 else 0x100 * Radix(k - 1)
  }

  function BigEndian(n: nat, k: nat): (b: Bytes)
    ensures |b| == k
  {
    if k == 0 then [] else BigEndian(n / 0x100, k - 1) + [n % 0x100]
  }

  function FromBigEndian(b: Bytes): nat {
    if b == [] then 0 else FromBigEndian(b[..|b| - 1]) * 0x100 + b[|b| - 1]
  }

  lemma {:induction false} BigEndianRoundTrip(n: nat, k: nat)
    requires n < Radix(k)
    ensures FromBigEndian(BigEndian(n, k)) == n
  {
    if k > 0 {
      BigEndianRoundTrip(n / 0x100, k - 1);
      assert BigEndian(n, k)[..k - 1] == BigEndian(n / 0x100, k - 1);
    }
  }

  function Take(b: Bytes, k: nat): Option<(Bytes, Bytes)> {
    if |b| < k then None else Some((b[..k], b[k..]))
  }

  function TakeUint(b: Bytes, k: nat): Option<(nat, Bytes)> {
    if |b| < k then None else Some((FromBigEndian(b[..k]), b[k..]))
  }

  lemma TakeUintOfBigEndian(n: nat, k: nat, rest: Bytes)
    requires n < Radix(k)
    ensures TakeUint(BigEndian(n, k) + rest, k) == Some((n, rest))
  {
    BigEndianRoundTrip(n, k);
    var b := BigEndian(n, k) + rest;
    assert b[..k] == BigEndian(n, k) && b[k..] == rest;
  }

  lemma RadixValues()
    ensures Radix(1) == 0x100 && Radix(2) == 0x1_0000 && Radix(4) == 0x1_0000_0000
    ensures Radix(8) == 0x1_0000_0000_0000_0000
  {
    assert Radix(3) == 0x100_0000;
    assert Radix(5) == 0x100_0000_0000 && Radix(6) == 0x1_0000_0000_0000 && Radix(7) == 0x100_0000_0000_0000;
  }

  lemma {:induction false} FromBigEndianRoundTrip(b: Bytes)
    ensures FromBigEndian(b) < Radix(|b|) && BigEndian(FromBigEndian(b), |b|) == b
  {
    if b != [] {
      FromBigEndianRoundTrip(b[..|b| - 1]);
      assert b == b[..|b| - 1] + [b[|b| - 1]];
    }
  }
}
