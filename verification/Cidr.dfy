/** IPv4 prefixes as the routing code uses them: a network address whose host bits are clear
    and a prefix length. */
module Cidr {
  import opened Arithmetic

  type Ip = n: nat | n < 0x1_0000_0000

  datatype RawCidr = RawCidr(addr: Ip, len: nat)

  /** A prefix accepted by the checked constructor: the host bits of the address are zero. */
  type Ipv4Cidr = c: RawCidr | Canonical(c.addr, c.len) witness RawCidr(0, 32)

  function Pow2(n: nat): (r: nat)
    ensures r >= 1
  {
    if n == 0 then 1 else 2 * Pow2(n - 1)
  }

  /** Number of addresses under a prefix of the given length. */
  function BlockSize(len: nat): (r: nat)
    requires len <= 32
    ensures r >= 1
  {
    Pow2(32 - len)
  }

  predicate Canonical(addr: Ip, len: nat) {
    len <= 32 && addr % BlockSize(len) == 0
  }

  /** First address <= ip <= last address. */
  predicate Contains(c: Ipv4Cidr, ip: Ip) {
    c.addr <= ip < c.addr + BlockSize(c.len)
  }

  function ShiftRight(x: nat, k: nat): nat {
    if k == 0 then x else ShiftRight(x / 2, k - 1)
  }

  function Bit(x: nat, i: nat): nat {
    ShiftRight(x, i) % 2
  }

  // --- arithmetic of aligned blocks ---

  lemma {:induction false} Pow2Add(a: nat, b: nat)
    ensures Pow2(a + b) == Pow2(a) * Pow2(b)
  {
    if a > 0 {
      Pow2Add(a - 1, b);
      assert Pow2(a + b) == 2 * Pow2(a - 1 + b);
      assert 2 * (Pow2(a - 1) * Pow2(b)) == (2 * Pow2(a - 1)) * Pow2(b);
    }
  }

  /** Containment is equality of the network numbers. */
  lemma ContainsIffSameNetwork(c: Ipv4Cidr, ip: Ip)
    ensures Contains(c, ip) <==> ip / BlockSize(c.len) == c.addr / BlockSize(c.len)
  {
    SameBlock(c.addr, ip, BlockSize(c.len));
  }

  // --- the meaning of containment, and the two facts longest-prefix routing rests on ---

  lemma {:induction false} ShiftIsDivision(x: nat, k: nat)
    ensures ShiftRight(x, k) == x / Pow2(k)
  {
    if k > 0 {
      ShiftIsDivision(x / 2, k - 1);
      DivDiv(x, 2, Pow2(k - 1));
    }
  }

  lemma {:induction false} ShiftShift(x: nat, k: nat, i: nat)
    ensures ShiftRight(ShiftRight(x, k), i) == ShiftRight(x, k + i)
  {
    if k > 0 {
      ShiftShift(x / 2, k - 1, i);
    }
  }

  lemma {:induction false} EqualBitsEqualNumbers(x: nat, y: nat, n: nat)
    requires x < Pow2(n) && y < Pow2(n)
    requires forall i: nat :: i < n ==> Bit(x, i) == Bit(y, i)
    ensures x == y
  {
    if n > 0 {
      forall i: nat | i < n - 1
        ensures Bit(x / 2, i) == Bit(y / 2, i)
      {
        assert Bit(x, i + 1) == Bit(y, i + 1);
      }
      EqualBitsEqualNumbers(x / 2, y / 2, n - 1);
      assert Bit(x, 0) == Bit(y, 0);
    }
  }

  /** An address lies in a prefix exactly when the two agree on every one of the leading `len` bits. */
  lemma ContainsIffLeadingBitsAgree(c: Ipv4Cidr, ip: Ip)
    ensures Contains(c, ip) <==> forall i: nat :: 32 - c.len <= i < 32 ==> Bit(ip, i) == Bit(c.addr, i)
  {
    ContainsIffSameNetwork(c, ip);
    QuotientBound(ip, c.len);
    QuotientBound(c.addr, c.len);
    ShiftIsDivision(ip, 32 - c.len);
    ShiftIsDivision(c.addr, 32 - c.len);
    ShiftedBitsAgree(ip, c.addr, 32 - c.len, c.len);
  }

  /** Two numbers shifted right by k are equal exactly when their next n bits agree. */
  lemma ShiftedBitsAgree(a: nat, b: nat, k: nat, n: nat)
    requires ShiftRight(a, k) < Pow2(n) && ShiftRight(b, k) < Pow2(n)
    ensures ShiftRight(a, k) == ShiftRight(b, k) <==> forall i: nat :: k <= i < k + n ==> Bit(a, i) == Bit(b, i)
  {
    forall i: nat | k <= i < k + n
      ensures Bit(a, i) == Bit(ShiftRight(a, k), i - k) && Bit(b, i) == Bit(ShiftRight(b, k), i - k)
    {
      ShiftShift(a, k, i - k);
      ShiftShift(b, k, i - k);
    }
    if forall i: nat :: k <= i < k + n ==> Bit(a, i) == Bit(b, i) {
      forall i: nat | i < n
        ensures Bit(ShiftRight(a, k), i) == Bit(ShiftRight(b, k), i)
      {
        assert Bit(a, k + i) == Bit(b, k + i);
      }
      EqualBitsEqualNumbers(ShiftRight(a, k), ShiftRight(b, k), n);
    }
  }

  lemma QuotientBound(x: Ip, len: nat)
    requires len <= 32
    ensures x / Pow2(32 - len) < Pow2(len)
  {
    var rest: nat := 32 - len;
    Pow2Add(len, rest);
    Pow2Of32();
    DivBound(x, Pow2(len), Pow2(rest));
  }

  lemma Pow2Of32()
    ensures Pow2(32) == 0x1_0000_0000
  {
    assert Pow2(8) == 256;
    Pow2Add(8, 8);
    Pow2Add(16, 16);
  }

  /** Two prefixes of one length that share an address are the same prefix. */
  lemma SameLengthOverlapIsEqual(c: Ipv4Cidr, d: Ipv4Cidr, ip: Ip)
    requires c.len == d.len && Contains(c, ip) && Contains(d, ip)
    ensures c == d
  {
    SameBlock(c.addr, ip, BlockSize(c.len));
    SameBlock(d.addr, ip, BlockSize(c.len));
  }

  /** Prefixes are laminar: when two share an address, the longer lies inside the shorter. */
  lemma LongerOverlapIsNested(short: Ipv4Cidr, long: Ipv4Cidr, shared: Ip, ip: Ip)
    requires short.len <= long.len && Contains(short, shared) && Contains(long, shared)
    requires Contains(long, ip)
    ensures Contains(short, ip)
  {
    ContainsIffLeadingBitsAgree(short, shared);
    ContainsIffLeadingBitsAgree(long, shared);
    ContainsIffLeadingBitsAgree(long, ip);
    ContainsIffLeadingBitsAgree(short, ip);
    forall i: nat | 32 - short.len <= i < 32
      ensures Bit(ip, i) == Bit(short.addr, i)
    {
      assert Bit(ip, i) == Bit(long.addr, i) == Bit(shared, i);
    }
  }

  lemma {:induction false} ShiftedZeros(x: nat, k: nat)
    ensures x % Pow2(k) == 0 <==> forall i: nat :: i < k ==> Bit(x, i) == 0
  {
    if k > 0 {
      ShiftedZeros(x / 2, k - 1);
      HalfMultiple(x, Pow2(k - 1));
      assert forall i: nat :: i < k - 1 ==> Bit(x, i + 1) == Bit(x / 2, i);
      assert Bit(x, 0) == x % 2;
      if forall i: nat :: i < k - 1 ==> Bit(x / 2, i) == 0 {
        forall i: nat | i < k && i > 0
          ensures Bit(x, i) == 0
        {
          assert Bit(x, i) == Bit(x / 2, i - 1);
        }
      }
      if forall i: nat :: i < k ==> Bit(x, i) == 0 {
        forall i: nat | i < k - 1
          ensures Bit(x / 2, i) == 0
        {
          assert Bit(x, i + 1) == 0;
        }
      }
    }
  }

  lemma HalfMultiple(x: nat, m: nat)
    requires m > 0
    ensures x % (2 * m) == 0 <==> x % 2 == 0 && x / 2 % m == 0
  {
    var h := x / 2;
    assert x == 2 * h + x % 2;
    DivRecompose(h, m);
    DivRecompose(x, 2 * m);
    if x % 2 == 0 && h % m == 0 {
      assert x == (h / m) * (2 * m);
      DivUnique(x, 2 * m, h / m);
    }
    if x % (2 * m) == 0 {
      var q := x / (2 * m);
      assert x == q * (2 * m) == 2 * (q * m);
      assert h == q * m;
      DivUnique(h, m, q);
    }
  }

  /** A prefix is accepted exactly if it has at most 32 bits and all host bits of its address are zero. */
  lemma CanonicalIffHostBitsZero(addr: Ip, len: nat)
    ensures Canonical(addr, len) <==> len <= 32 && forall i: nat :: i < 32 - len ==> Bit(addr, i) == 0
  {
    if len <= 32 {
      ShiftedZeros(addr, 32 - len);
    }
  }

  /** The bits are those of the binary numeral. */
  lemma {:induction false} BitsSpellNumber(x: nat, i: nat)
    ensures Bit(x, i) == x / Pow2(i) % 2 && Pow2(i + 1) == 2 * Pow2(i) && Pow2(0) == 1
  {
    ShiftIsDivision(x, i);
  }
}
