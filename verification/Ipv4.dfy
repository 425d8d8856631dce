/** IPv4 addresses with a prefix length: 32-bit mask arithmetic (section 3.1 of RFC 4632) and text form. */
module Ipv4 {
  import opened Options
  import opened Bits

  type U32 = x: nat | x < 0x1_0000_0000
  type U8 = x: nat | x < 256

  datatype IpAddrMask = IpAddrMask(address: U32, cidr: U8)

  const MAX: U32 := 0xFFFF_FFFF

  // ----- the machine operations -----

  function BitAnd(x: U32, y: U32): (r: U32) {
    Pow2At32();
    FromBits(seq(32, i requires 0 <= i < 32 => ToBits(x, 32)[i] && ToBits(y, 32)[i]))
  }

  function BitOr(x: U32, y: U32): (r: U32) {
    Pow2At32();
    FromBits(seq(32, i requires 0 <= i < 32 => ToBits(x, 32)[i] || ToBits(y, 32)[i]))
  }

  function Complement(x: U32): U32 {
    MAX - x
  }

  /** Shift left bit by bit; what leaves the 32 bits is lost. */
  function Shl(x: U32, n: nat): U32 {
    if n == 0 then x else Doubled(Shl(x, n - 1))
  }

  function Doubled(x: U32): U32 {
    if x >= 0x8000_0000 then 2 * x - 0x1_0000_0000 else 2 * x
  }

  /** Shift right bit by bit. */
  function Shr(x: U32, n: nat): U32 {
    if n == 0 then x else Shr(x, n - 1) / 2
  }

  // ----- the address functions -----

  function PrefixMask(cidr: U8): U32
    requires cidr <= 32
  {
    if cidr == 0 then 0 else Shl(MAX, 32 - cidr)
  }

  predicate Contains(net: IpAddrMask, ip: U32)
    requires net.cidr <= 32
  {
    BitAnd(net.address, PrefixMask(net.cidr)) == BitAnd(ip, PrefixMask(net.cidr))
  }

  function HostBits(cidr: U8): U32 {
    if cidr >= 32 then 0 else Shr(MAX, cidr)
  }

  function Broadcast(net: IpAddrMask): U32 {
    BitOr(net.address, HostBits(net.cidr))
  }

  function Increment(ip: U32): Option<U32> {
    if ip == MAX then None else Some(ip + 1)
  }

  /** The second address after the configured one, when it lies in the network. */
  function FirstPeerIp(net: IpAddrMask): Option<U32>
    requires net.cidr <= 32
  {
    match Increment(net.address)
    case None => None
    case Some(first) =>
      match Increment(first)
      case None => None
      case Some(ip) => if Contains(net, ip) then Some(ip) else None
  }

  /** The netmask as the peer scan computes it. */
  function ScanNetmask(cidr: U8): U32
    requires 1 <= cidr <= 32
  {
    OneShifted(32 - cidr);
    Complement(Shl(1, 32 - cidr) - 1)
  }

  // ----- powers of two -----

  lemma Pow2At32()
    ensures Pow2(32) == 0x1_0000_0000
  {
    assert Pow2(8) == 256;
    assert Pow2(16) == 0x1_0000;
    assert Pow2(24) == 0x100_0000;
  }

  lemma {:induction false} PowBound(n: nat, k: nat)
    requires n <= k
    ensures Pow2(n) <= Pow2(k)
    ensures n < k ==> 2 * Pow2(n) <= Pow2(k)
    decreases k
  {
    if n == k {
    } else {
      PowBound(n, k - 1);
    }
  }

  lemma Below32(n: nat)
    requires n <= 32
    ensures 1 <= Pow2(n) <= 0x1_0000_0000
    ensures n < 32 ==> 2 * Pow2(n) <= 0x1_0000_0000
  {
    Pow2At32();
    PowBound(n, 32);
  }

  lemma {:induction false} OneShifted(n: nat)
    requires n < 32
    ensures Shl(1, n) == Pow2(n) < 0x1_0000_0000
  {
    Below32(n);
    if n == 0 {
    } else {
      OneShifted(n - 1);
    }
  }

  lemma {:induction false} AllShiftedLeft(n: nat)
    requires n < 32
    ensures Shl(MAX, n) == 0x1_0000_0000 - Pow2(n)
  {
    Below32(n);
    if n == 0 {
    } else {
      AllShiftedLeft(n - 1);
    }
  }

  lemma {:induction false} AllShiftedRight(n: nat)
    requires n <= 32
    ensures Shr(MAX, n) == Pow2(32 - n) - 1
  {
    Pow2At32();
    if n == 0 {
    } else {
      AllShiftedRight(n - 1);
      assert Pow2(32 - (n - 1)) == 2 * Pow2(32 - n);
    }
  }

  lemma PrefixMaskValue(cidr: U8)
    requires cidr <= 32
    ensures PrefixMask(cidr) == 0x1_0000_0000 - Pow2(32 - cidr)
  {
    if cidr == 0 {
      Pow2At32();
    } else {
      AllShiftedLeft(32 - cidr);
    }
  }

  lemma HostBitsValue(cidr: U8)
    requires cidr <= 32
    ensures HostBits(cidr) == Pow2(32 - cidr) - 1
  {
    AllShiftedRight(cidr);
  }

  lemma ScanNetmaskIsMask(cidr: U8)
    requires 1 <= cidr <= 32
    ensures ScanNetmask(cidr) == PrefixMask(cidr)
  {
    PrefixMaskValue(cidr);
    OneShifted(32 - cidr);
  }

  // ----- masks on bit strings -----

  function Fill(n: nat, v: bool): (b: seq<bool>)
    ensures |b| == n
  {
    seq(n, _ => v)
  }

  lemma AppendBit(b: seq<bool>, v: bool)
    ensures FromBits(b + [v]) == 2 * FromBits(b) + (if v then 1 else 0)
  {
    assert (b + [v])[..|b|] == b;
  }

  lemma FillMore(a: seq<bool>, k: nat, v: bool)
    requires k > 0
    ensures a + Fill(k, v) == (a + Fill(k - 1, v)) + [v]
  {
    assert Fill(k, v) == Fill(k - 1, v) + [v];
  }

  lemma {:induction false} FillValue(n: nat)
    ensures FromBits(Fill(n, false)) == 0 && FromBits(Fill(n, true)) == Pow2(n) - 1
  {
    if n == 0 {
    } else {
      FillValue(n - 1);
      assert Fill(n, false) == Fill(n - 1, false) + [false] && Fill(n, true) == Fill(n - 1, true) + [true];
      AppendBit(Fill(n - 1, false), false);
      AppendBit(Fill(n - 1, true), true);
    }
  }

  lemma {:induction false} HighFill(n: nat, k: nat)
    ensures FromBits(Fill(n, true) + Fill(k, false)) == Pow2(n + k) - Pow2(k)
    decreases k
  {
    if k == 0 {
      FillValue(n);
      assert Fill(n, true) + Fill(0, false) == Fill(n, true);
    } else {
      HighFill(n, k - 1);
      FillMore(Fill(n, true), k, false);
      AppendBit(Fill(n, true) + Fill(k - 1, false), false);
    }
  }

  lemma {:induction false} LowFill(n: nat, k: nat)
    ensures FromBits(Fill(n, false) + Fill(k, true)) == Pow2(k) - 1
    decreases k
  {
    if k == 0 {
      FillValue(n);
      assert Fill(n, false) + Fill(0, true) == Fill(n, false);
    } else {
      LowFill(n, k - 1);
      FillMore(Fill(n, false), k, true);
      AppendBit(Fill(n, false) + Fill(k - 1, true), true);
    }
  }

  lemma HighMaskBits(k: nat)
    requires k <= 32
    ensures 0 <= 0x1_0000_0000 - Pow2(k) < 0x1_0000_0000
    ensures ToBits(0x1_0000_0000 - Pow2(k), 32) == Fill(32 - k, true) + Fill(k, false)
  {
    Pow2At32();
    Below32(k);
    HighFill(32 - k, k);
    ToFromBits(Fill(32 - k, true) + Fill(k, false));
  }

  lemma LowMaskBits(k: nat)
    requires k <= 32
    ensures ToBits(Pow2(k) - 1, 32) == Fill(32 - k, false) + Fill(k, true)
  {
    LowFill(32 - k, k);
    ToFromBits(Fill(32 - k, false) + Fill(k, true));
  }

  /** The lowest and the highest address of the block of 2^k addresses around x. */
  function Lowest(x: nat, k: nat): nat {
    if k == 0 then x else 2 * Lowest(x / 2, k - 1)
  }

  function Highest(x: nat, k: nat): nat {
    if k == 0 then x else 2 * Highest(x / 2, k - 1) + 1
  }

  lemma {:induction false} HighestValue(x: nat, k: nat)
    ensures Highest(x, k) == Lowest(x, k) + Pow2(k) - 1 && Lowest(x, k) <= x <= Highest(x, k)
  {
    if k == 0 {
    } else {
      HighestValue(x / 2, k - 1);
    }
  }

  /** A multiple of the block size is the lowest address of its block. */
  lemma {:induction false} AlignedLowest(q: nat, k: nat)
    ensures Lowest(q * Pow2(k), k) == q * Pow2(k)
  {
    if k == 0 {
    } else {
      AlignedLowest(q, k - 1);
      assert q * Pow2(k) == 2 * (q * Pow2(k - 1));
    }
  }

  /** Blocks are intervals. */
  lemma {:induction false} BlockIsInterval(x: nat, y: nat, k: nat)
    ensures Lowest(x, k) == Lowest(y, k) <==> Lowest(x, k) <= y <= Highest(x, k)
  {
    if k == 0 {
    } else {
      BlockIsInterval(x / 2, y / 2, k - 1);
    }
  }

  lemma {:induction false} LowestIdempotent(x: nat, k: nat)
    ensures Highest(Lowest(x, k), k) == Highest(x, k)
  {
    if k == 0 {
    } else {
      LowestIdempotent(x / 2, k - 1);
    }
  }

  lemma KeepBits(x: nat, w: nat, k: nat, v: bool)
    requires 0 < k <= w
    ensures ToBits(x, w)[..w - k] + Fill(k, v) == (ToBits(x / 2, w - 1)[..w - k] + Fill(k - 1, v)) + [v]
  {
    assert ToBits(x, w) == ToBits(x / 2, w - 1) + [x % 2 == 1];
    assert Fill(k, v) == Fill(k - 1, v) + [v];
  }

  /** Clearing or setting the low k bits of a number. */
  lemma {:induction false} ReplaceLow(x: nat, w: nat, k: nat, v: bool)
    requires k <= w && x < Pow2(w)
    ensures FromBits(ToBits(x, w)[..w - k] + Fill(k, v)) == if v then Highest(x, k) else Lowest(x, k)
    decreases k
  {
    if k == 0 {
      FromToBits(x, w);
      assert ToBits(x, w)[..w] + Fill(0, v) == ToBits(x, w);
    } else {
      ReplaceLow(x / 2, w - 1, k - 1, v);
      KeepBits(x, w, k, v);
      AppendBit(ToBits(x / 2, w - 1)[..w - k] + Fill(k - 1, v), v);
    }
  }

  lemma AndFill(b: seq<bool>, m: seq<bool>, k: nat)
    requires |b| == 32 && k <= 32 && m == Fill(32 - k, true) + Fill(k, false)
    ensures seq(32, i requires 0 <= i < 32 => b[i] && m[i]) == b[..32 - k] + Fill(k, false)
  {
  }

  lemma OrFill(b: seq<bool>, m: seq<bool>, k: nat)
    requires |b| == 32 && k <= 32 && m == Fill(32 - k, false) + Fill(k, true)
    ensures seq(32, i requires 0 <= i < 32 => b[i] || m[i]) == b[..32 - k] + Fill(k, true)
  {
  }

  lemma AndBits(x: U32, m: U32, k: nat)
    requires k <= 32 && ToBits(m, 32) == Fill(32 - k, true) + Fill(k, false)
    ensures BitAnd(x, m) == Lowest(x, k)
  {
    Pow2At32();
    ReplaceLow(x, 32, k, false);
    AndFill(ToBits(x, 32), ToBits(m, 32), k);
  }

  lemma OrBits(x: U32, m: U32, k: nat)
    requires k <= 32 && ToBits(m, 32) == Fill(32 - k, false) + Fill(k, true)
    ensures BitOr(x, m) == Highest(x, k)
  {
    Pow2At32();
    ReplaceLow(x, 32, k, true);
    OrFill(ToBits(x, 32), ToBits(m, 32), k);
  }

  lemma PrefixMaskBits(cidr: U8)
    requires cidr <= 32
    ensures ToBits(PrefixMask(cidr), 32) == Fill(32 - (32 - cidr), true) + Fill(32 - cidr, false)
  {
    PrefixMaskValue(cidr);
    HighMaskBits(32 - cidr);
  }

  lemma AndMask(x: U32, cidr: U8)
    requires cidr <= 32
    ensures BitAnd(x, PrefixMask(cidr)) == Lowest(x, 32 - cidr)
  {
    PrefixMaskBits(cidr);
    AndBits(x, PrefixMask(cidr), 32 - cidr);
  }

  lemma HostBitsBits(cidr: U8)
    requires cidr <= 32
    ensures ToBits(HostBits(cidr), 32) == Fill(32 - (32 - cidr), false) + Fill(32 - cidr, true)
  {
    HostBitsValue(cidr);
    LowMaskBits(32 - cidr);
  }

  lemma OrHostBits(x: U32, cidr: U8)
    requires cidr <= 32
    ensures BitOr(x, HostBits(cidr)) == Highest(x, 32 - cidr)
  {
    HostBitsBits(cidr);
    OrBits(x, HostBits(cidr), 32 - cidr);
  }

  lemma ContainsInterval(net: IpAddrMask, ip: U32)
    requires net.cidr <= 32
    ensures Contains(net, ip) <==> Lowest(net.address, 32 - net.cidr) <= ip <= Highest(net.address, 32 - net.cidr)
  {
    AndMask(net.address, net.cidr);
    AndMask(ip, net.cidr);
    BlockIsInterval(net.address, ip, 32 - net.cidr);
  }

  /** Membership, mask, broadcast and the scan's netmask all describe the same interval of addresses. */
  lemma SameInterval(net: IpAddrMask, ip: U32)
    requires net.cidr <= 32
    ensures var k := 32 - net.cidr;
            && (Contains(net, ip) <==> Lowest(net.address, k) <= ip <= Highest(net.address, k))
            && Broadcast(net) == Highest(net.address, k)
            && BitAnd(net.address, PrefixMask(net.cidr)) == Lowest(net.address, k)
            && (net.cidr >= 1 ==> ScanNetmask(net.cidr) == PrefixMask(net.cidr))
            && (net.cidr >= 1 ==>
                  BitOr(Lowest(net.address, k), Complement(ScanNetmask(net.cidr))) == Highest(net.address, k))
  {
    AndMask(net.address, net.cidr);
    ContainsInterval(net, ip);
    OrHostBits(net.address, net.cidr);
    if net.cidr >= 1 {
      ScanNetmaskIsMask(net.cidr);
      ScanBroadcast(net);
    }
  }

  lemma ScanHostBits(cidr: U8)
    requires 1 <= cidr <= 32
    ensures Complement(ScanNetmask(cidr)) == HostBits(cidr)
  {
    ScanNetmaskIsMask(cidr);
    PrefixMaskValue(cidr);
    HostBitsValue(cidr);
  }

  lemma ScanBroadcast(net: IpAddrMask)
    requires 1 <= net.cidr <= 32
    ensures Lowest(net.address, 32 - net.cidr) < 0x1_0000_0000
    ensures BitOr(Lowest(net.address, 32 - net.cidr), Complement(ScanNetmask(net.cidr))) ==
            Highest(net.address, 32 - net.cidr)
  {
    HighestValue(net.address, 32 - net.cidr);
    ScanHostBits(net.cidr);
    OrHostBits(Lowest(net.address, 32 - net.cidr), net.cidr);
    LowestIdempotent(net.address, 32 - net.cidr);
  }
}
