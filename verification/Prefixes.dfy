/** Address bits and masking (net/netip as the original uses it, and bitAt of
    internal/rpki/store.go). Bit 0 is the most significant bit of the first byte. */
module Prefixes {
  import opened Bgp
  import Quotients

  function Pow2(k: nat): (p: nat)
    requires k <= 8
    ensures p > 0
  {
    match k
    case 0 => 1
    case 1 => 2
    case 2 => 4
    case 3 => 8
    case 4 => 16
    case 5 => 32
    case 6 => 64
    case 7 => 128
    case _ => 256
  }

  /** Bit k of a byte, by shifting it to the low end. */
  function Bit(b: Byte, k: nat): bool
    requires k < 8
  {
    b / Pow2(7 - k) % 2 == 1
  }

  function BitAt(addr: seq<Byte>, d: nat): bool
    requires d < 8 * |addr|
  {
    Bit(addr[d / 8], d % 8)
  }

  /** The byte with all but its first n bits cleared. */
  function MaskByte(b: Byte, n: int): Byte {
    if n <= 0 then 0
    else if n >= 8 then b
    else b / Pow2(8 - n) * Pow2(8 - n)
  }

  function MaskAddr(addr: seq<Byte>, n: int): (m: seq<Byte>)
    ensures |m| == |addr|
    ensures forall i {:trigger m[i]} :: 0 <= i < |addr| ==> m[i] == MaskByte(addr[i], n - 8 * i)
  {
    seq(|addr|, i requires 0 <= i < |addr| => MaskByte(addr[i], n - 8 * i))
  }

  function Masked(p: Prefix): Prefix {
    p.(addr := MaskAddr(p.addr, p.bits))
  }

  /** An IPv6 address that stands for an IPv4 one (::ffff:0:0/96). */
  predicate Is4In6(p: Prefix) {
    && p.v6
    && |p.addr| == 16
    && p.addr[..10] == [0, 0, 0, 0, 0, 0, 0, 0, 0, 0]
    && p.addr[10] == 255 && p.addr[11] == 255
  }

  /** The prefix with such an address replaced by the IPv4 one; its length is left as it is. */
  function Unmapped(p: Prefix): (u: Prefix)
    ensures p.IsValid() ==> u.Sized()
    ensures !Is4In6(p) ==> u == p
  {
    if Is4In6(p) then Prefix(false, p.addr[12..], p.bits) else p
  }

  predicate SameBits(a: seq<Byte>, b: seq<Byte>, n: nat)
    requires n <= 8 * |a| && n <= 8 * |b|
  {
    forall d :: 0 <= d < n ==> BitAt(a, d) == BitAt(b, d)
  }

  /** q contains p: RFC 6811 section 2, "covered". */
  predicate Covers(q: Prefix, p: Prefix)
    requires q.IsValid() && p.Sized()
  {
    q.v6 == p.v6 && q.bits <= p.bits && SameBits(q.addr, p.addr, q.bits)
  }

  // ---- What masking does to bits ----

  lemma MaskedByteBit(b: Byte, n: int, k: nat)
    requires k < 8
    ensures Bit(MaskByte(b, n), k) == (k < n && Bit(b, k))
  {
    if 0 < n < 8 {
      KeepHigh(b, 8 - n, k);
    }
  }

  lemma DoublePow(j: nat)
    requires j < 8
    ensures Pow2(j + 1) == 2 * Pow2(j)
  {
  }

  /** Dividing by twice as much is dividing once more by two. */
  lemma HalfQuotient(b: int, p: int)
    requires b >= 0 && p > 0
    ensures b / (2 * p) == b / p / 2
  {
    var h, e, r := b / p / 2, b / p % 2, b % p;
    assert b == (b / p) * p + r && b / p == 2 * h + e;
    assert (2 * h + e) * p == h * (2 * p) + e * p;
    assert 0 <= e * p <= p;
    Quotients.Divides(h, 2 * p, e * p + r);
  }

  /** One more shift halves. */
  lemma Halve(b: Byte, j: nat)
    requires j < 8
    ensures b / Pow2(j) == 2 * (b / Pow2(j + 1)) + b / Pow2(j) % 2
    ensures b / 1 == b && b / 256 == 0
  {
    DoublePow(j);
    HalfQuotient(b, Pow2(j));
  }

  lemma ClearLow(b: Byte, z: nat)
    requires 0 < z < 8
    ensures 0 <= b / Pow2(z) * Pow2(z) <= b
  {
  }

  /** With its low z bits cleared a byte shifts like the whole byte from z on, and is even below. */
  lemma {:induction false} ShiftCleared(b: Byte, z: nat, j: nat)
    requires 0 < z < 8 && j <= 8
    ensures 0 <= b / Pow2(z) * Pow2(z) < 256
    ensures j <= z ==> b / Pow2(z) * Pow2(z) / Pow2(j) == b / Pow2(z) * Pow2(z - j)
    ensures j >= z ==> b / Pow2(z) * Pow2(z) / Pow2(j) == b / Pow2(j)
  {
    ClearLow(b, z);
    var c: Byte := b / Pow2(z) * Pow2(z);
    if j == 0 {
      Halve(c, 0);
    } else {
      ShiftCleared(b, z, j - 1);
      Halve(c, j - 1);
      if j <= z {
        Double(b / Pow2(z), z - j);
      } else {
        Halve(b, j - 1);
      }
    }
  }

  lemma Double(q: nat, n: nat)
    requires n < 8
    ensures q * Pow2(n + 1) == 2 * (q * Pow2(n))
  {
    assert Pow2(n + 1) == 2 * Pow2(n);
  }

  /** Clearing the low z bits keeps exactly the bits above them. */
  lemma KeepHigh(b: Byte, z: nat, k: nat)
    requires 0 < z < 8 && k < 8
    ensures 0 <= b / Pow2(z) * Pow2(z) < 256
    ensures Bit(b / Pow2(z) * Pow2(z), k) == (k < 8 - z && Bit(b, k))
  {
    ShiftCleared(b, z, 7 - k);
    if 7 - k < z {
      Double(b / Pow2(z), z - (7 - k) - 1);
    }
  }

  lemma MaskedBit(addr: seq<Byte>, n: int, d: nat)
    requires d < 8 * |addr|
    ensures BitAt(MaskAddr(addr, n), d) == (d < n && BitAt(addr, d))
  {
    MaskedByteBit(addr[d / 8], n - 8 * (d / 8), d % 8);
  }

  /** Masking twice is masking once, and masking makes no prefix valid or invalid. */
  lemma MaskedTwice(p: Prefix)
    ensures Masked(Masked(p)) == Masked(p)
    ensures Masked(p).IsValid() == p.IsValid()
  {
    forall i | 0 <= i < |p.addr|
      ensures MaskByte(MaskByte(p.addr[i], p.bits - 8 * i), p.bits - 8 * i) == MaskByte(p.addr[i], p.bits - 8 * i)
    {
      MaskByteTwice(p.addr[i], p.bits - 8 * i);
    }
    assert Masked(Masked(p)).addr == Masked(p).addr;
  }

  lemma MaskByteTwice(b: Byte, n: int)
    ensures MaskByte(MaskByte(b, n), n) == MaskByte(b, n)
  {
    if 0 < n < 8 {
      match n {
        case 1 =>
        case 2 =>
        case 3 =>
        case 4 =>
        case 5 =>
        case 6 =>
        case 7 =>
      }
    }
  }

  // ---- Bits determine bytes ----

  lemma {:induction false} SameShifts(a: Byte, b: Byte, j: nat)
    requires j <= 8
    requires forall k :: 0 <= k < 8 ==> Bit(a, k) == Bit(b, k)
    ensures a / Pow2(j) == b / Pow2(j)
    decreases 8 - j
  {
    if j == 8 {
      Halve(a, 7);
      Halve(b, 7);
    } else {
      SameShifts(a, b, j + 1);
      Halve(a, j);
      Halve(b, j);
      assert Bit(a, 7 - j) == Bit(b, 7 - j);
    }
  }

  lemma SameByte(a: Byte, b: Byte)
    requires forall k :: 0 <= k < 8 ==> Bit(a, k) == Bit(b, k)
    ensures a == b
  {
    SameShifts(a, b, 0);
  }

  lemma SameBytes(a: seq<Byte>, b: seq<Byte>, n: nat)
    requires n <= |a| && n <= |b|
    requires SameBits(a, b, 8 * n)
    ensures a[..n] == b[..n]
  {
    forall i | 0 <= i < n
      ensures a[i] == b[i]
    {
      forall k | 0 <= k < 8
        ensures Bit(a[i], k) == Bit(b[i], k)
      {
        assert BitAt(a, 8 * i + k) == BitAt(b, 8 * i + k);
      }
      SameByte(a[i], b[i]);
    }
  }

  /** Prefixes are masked alike exactly when they agree in family, length and leading bits. */
  lemma MaskedByBits(q: Prefix, p: Prefix)
    requires q.IsValid() && p.IsValid()
    ensures Masked(q) == Masked(p) <==> q.v6 == p.v6 && q.bits == p.bits && SameBits(q.addr, p.addr, q.bits)
  {
    if q.v6 == p.v6 && q.bits == p.bits {
      var a, b := Masked(q).addr, Masked(p).addr;
      forall d | 0 <= d < 8 * |a|
        ensures BitAt(a, d) == (d < q.bits && BitAt(q.addr, d))
        ensures BitAt(b, d) == (d < q.bits && BitAt(p.addr, d))
      {
        MaskedBit(q.addr, q.bits, d);
        MaskedBit(p.addr, p.bits, d);
      }
      if SameBits(q.addr, p.addr, q.bits) {
        SameBytes(a, b, |a|);
        assert a[..|a|] == a && b[..|b|] == b;
      }
    }
  }
}
