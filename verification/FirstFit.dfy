/** The node-side allocator: scan a network for its first unused address. */
module FirstFit {
  import opened Bits
  import opened Ipv4

  datatype Allocation = Found(ip: U32) | Exhausted | Overflow

  /** The addresses taken by peers, which count only as single hosts, and by the interface itself. */
  function Used(allowed: seq<IpAddrMask>, own: U32): set<U32> {
    (set i | 0 <= i < |allowed| && allowed[i].cidr == 32 :: allowed[i].address) + {own}
  }

  /** The interface's own address, or that of a peer's single host. */
  predicate Occupied(allowed: seq<IpAddrMask>, own: U32, x: U32) {
    x == own || exists i :: 0 <= i < |allowed| && allowed[i].address == x && allowed[i].cidr == 32
  }

  /** The scan visits every address between the network address and the last but one, exclusively. */
  function First(net: IpAddrMask): nat
    requires net.cidr <= 32
  {
    Lowest(net.address, 32 - net.cidr) + 1
  }

  function Last(net: IpAddrMask): int
    requires net.cidr <= 32
  {
    Highest(net.address, 32 - net.cidr) - 2
  }

  /** The shift overflows for prefix length 0 (and the subtraction above 32), the bounds at the ends of the space. */
  predicate Overflows(net: IpAddrMask) {
    net.cidr == 0 || net.cidr > 32 || (net.cidr == 32 && (net.address == 0 || net.address == MAX))
  }

  /** The first unused address of a half-open range. */
  method Scan(from: nat, to: nat, used: set<U32>) returns (r: Allocation)
    requires to <= MAX + 1
    ensures r != Overflow
    ensures r.Found? ==> from <= r.ip < to && r.ip !in used && forall x :: from <= x < r.ip ==> x in used
    ensures r == Exhausted ==> forall x :: from <= x < to ==> x in used
  {
    var ip := from;
    while ip < to
      invariant from <= ip
      invariant forall x :: from <= x < ip ==> x in used
    {
      if ip !in used {
        return Found(ip);
      }
      ip := ip + 1;
    }
    r := Exhausted;
  }

  lemma ScanBounds(net: IpAddrMask)
    requires 1 <= net.cidr <= 32
    ensures var netmask := ScanNetmask(net.cidr);
            var network := BitAnd(net.address, netmask);
            var broadcast := BitOr(network, Complement(netmask));
            && network == Lowest(net.address, 32 - net.cidr) && broadcast == Highest(net.address, 32 - net.cidr)
            && (network == MAX || broadcast == 0 <==> Overflows(net))
  {
    SameInterval(net, net.address);
    OneAddress(net);
  }

  method Bounds(net: IpAddrMask) returns (network: U32, broadcast: U32)
    requires 1 <= net.cidr <= 32
    ensures network == Lowest(net.address, 32 - net.cidr) && broadcast == Highest(net.address, 32 - net.cidr)
    ensures network == MAX || broadcast == 0 <==> Overflows(net)
  {
    var netmask := ScanNetmask(net.cidr);
    network := BitAnd(net.address, netmask);
    broadcast := BitOr(network, Complement(netmask));
    ScanBounds(net);
  }

  /** The least unused address of the visited range, if there is one; never the last host of the network. */
  method NextAvailable(net: IpAddrMask, own: U32, allowed: seq<IpAddrMask>) returns (r: Allocation)
    ensures r == Overflow <==> Overflows(net)
    ensures r.Found? ==> First(net) <= r.ip <= Last(net) && r.ip != own
    ensures r.Found? ==> forall i :: 0 <= i < |allowed| && allowed[i].cidr == 32 ==> allowed[i].address != r.ip
    ensures r.Found? ==> forall x: U32 :: First(net) <= x < r.ip ==> Occupied(allowed, own, x)
    ensures r == Exhausted ==> forall x: U32 :: First(net) <= x <= Last(net) ==> Occupied(allowed, own, x)
    ensures 1 <= net.cidr <= 30 && |Used(allowed, own)| < Pow2(32 - net.cidr) - 3 ==> r.Found?
    ensures r.Found? ==> r.ip < Broadcast(net) - 1
  {
    if net.cidr == 0 || net.cidr > 32 {
      return Overflow;
    }
    var network, broadcast := Bounds(net);
    if network == MAX || broadcast == 0 {
      return Overflow;
    }
    r := Scan(network + 1, broadcast - 1, Used(allowed, own));
    ScanRead(net, own, allowed, r);
    UsedRead(allowed, own, First(net), if r.Found? then r.ip else Last(net) + 1);
  }

  lemma UsedExact(allowed: seq<IpAddrMask>, own: U32, x: U32)
    ensures x in Used(allowed, own) <==> Occupied(allowed, own, x)
  {
  }

  lemma UsedRead(allowed: seq<IpAddrMask>, own: U32, from: nat, to: int)
    requires forall x :: from <= x < to ==> x in Used(allowed, own)
    ensures forall x: U32 :: from <= x < to ==> Occupied(allowed, own, x)
  {
    forall x: U32 | from <= x < to
      ensures Occupied(allowed, own, x)
    {
      assert x in Used(allowed, own);
      UsedExact(allowed, own, x);
    }
  }

  /** What the result of the scan says of the network. */
  lemma ScanRead(net: IpAddrMask, own: U32, allowed: seq<IpAddrMask>, r: Allocation)
    requires 1 <= net.cidr <= 32 && r != Overflow
    requires r.Found? ==> First(net) <= r.ip <= Last(net)
    requires r == Exhausted ==> forall x :: First(net) <= x <= Last(net) ==> x in Used(allowed, own)
    ensures r.Found? ==> r.ip < Broadcast(net) - 1
    ensures net.cidr <= 30 && |Used(allowed, own)| < Pow2(32 - net.cidr) - 3 ==> r.Found?
  {
    OrHostBits(net.address, net.cidr);
    if net.cidr <= 30 && |Used(allowed, own)| < Pow2(32 - net.cidr) - 3 {
      EnoughRoom(net, own, allowed);
    }
  }

  lemma OneAddress(net: IpAddrMask)
    requires 1 <= net.cidr <= 32
    ensures Highest(net.address, 32 - net.cidr) < 0x1_0000_0000
    ensures Lowest(net.address, 32 - net.cidr) == MAX <==> net.cidr == 32 && net.address == MAX
    ensures Highest(net.address, 32 - net.cidr) == 0 <==> net.cidr == 32 && net.address == 0
  {
    var k := 32 - net.cidr;
    SameInterval(net, net.address);
    if k == 0 {
      assert Pow2(0) == 1;
    } else {
      assert Pow2(k) == 2 * Pow2(k - 1);
    }
  }

  function Interval(lo: nat, hi: int): (s: set<nat>)
    ensures |s| == (if hi < lo then 0 else hi - lo + 1)
    ensures forall x: nat :: x in s <==> lo <= x <= hi
    decreases hi - lo + 1
  {
    if hi < lo then {} else Interval(lo, hi - 1) + {hi as nat}
  }

  lemma SubsetSize(a: set<nat>, b: set<nat>)
    requires a <= b
    ensures |a| <= |b|
  {
    if a != {} {
      var x :| x in a;
      SubsetSize(a - {x}, b - {x});
    }
  }

  /** By pigeonhole the scan succeeds whenever fewer addresses are used than it visits. */
  lemma EnoughRoom(net: IpAddrMask, own: U32, allowed: seq<IpAddrMask>)
    requires 1 <= net.cidr <= 30
    requires |Used(allowed, own)| < Pow2(32 - net.cidr) - 3
    ensures exists x :: First(net) <= x <= Last(net) && x !in Used(allowed, own)
  {
    HighestValue(net.address, 32 - net.cidr);
    var visited := Interval(First(net), Last(net));
    var used: set<nat> := Used(allowed, own);
    if forall x :: First(net) <= x <= Last(net) ==> x in used {
      assert visited <= used;
      SubsetSize(visited, used);
      assert false;
    }
  }

  /** The address below the broadcast address, which the scan never reaches, is a host of the network. */
  lemma LastHostUsable(net: IpAddrMask, ip: U32)
    requires 1 <= net.cidr <= 30 && ip == Highest(net.address, 32 - net.cidr) - 1
    ensures Broadcast(net) == ip + 1 && Contains(net, ip) && Lowest(net.address, 32 - net.cidr) < ip
  {
    OrHostBits(net.address, net.cidr);
    BelowHighest(net, ip);
  }

  lemma BelowHighest(net: IpAddrMask, ip: U32)
    requires 1 <= net.cidr <= 30 && ip == Highest(net.address, 32 - net.cidr) - 1
    ensures Contains(net, ip) && Lowest(net.address, 32 - net.cidr) < ip
  {
    HighestValue(net.address, 32 - net.cidr);
    assert Pow2(32 - net.cidr) >= 4 by {
      assert Pow2(32 - net.cidr) == 2 * Pow2(31 - net.cidr) && Pow2(31 - net.cidr) == 2 * Pow2(30 - net.cidr);
    }
    ContainsInterval(net, ip);
  }
}
