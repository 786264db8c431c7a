// IPv4 interface addresses and the gateway convention of the loader.
module Addresses {

  const TWO_TO_32: int := 0x1_0000_0000

  datatype Cidr = Cidr(ip: int, plen: int)

  // ipaddress.IPv4Interface: a 32-bit address with a prefix length
  type Ipv4Interface = c: Cidr | 0 <= c.ip < TWO_TO_32 && 0 <= c.plen <= 32 witness Cidr(0, 0)

  // The text of a Netbox IP address, already told apart by whether
  // IPv4Interface(str(...)) accepts it.
  datatype IpText = V4(addr: Ipv4Interface) | OtherText(text: string)

  function Pow2(n: nat): (r: nat)
    ensures r > 0
  {
    if n == 0 then 1 else 2 * Pow2(n - 1)
  }

  // Number of addresses of a network with this prefix length.
  function Size(plen: int): (r: nat)
    requires 0 <= plen <= 32
    ensures r > 0
  {
    Pow2(32 - plen)
  }

  // IPv4Interface.network.network_address
  function Network(a: Ipv4Interface): int { a.ip - a.ip % Size(a.plen) }

  function Broadcast(a: Ipv4Interface): int { Network(a) + Size(a.plen) - 1 }

  // next(iter(network.hosts())): /32 yields its only address, /31 both of its
  // addresses, any other prefix starts after the network address.
  function DeriveGateway(a: Ipv4Interface): int {
    if a.plen == 32 then a.ip
    else if a.plen == 31 then Network(a)
    else Network(a) + 1
  }

  // x and a agree on their first plen bits
  ghost predicate SameNetwork(a: Ipv4Interface, x: int) {
    0 <= x < TWO_TO_32 && x / Size(a.plen) == a.ip / Size(a.plen)
  }

  // A host of the network: any address of a /31 or /32, and elsewhere every
  // address but the network's first and last.
  ghost predicate IsHost(a: Ipv4Interface, x: int) {
    && SameNetwork(a, x)
    && (a.plen < 31 ==> !IsFirst(a, x) && !IsLast(a, x))
  }

  ghost predicate IsFirst(a: Ipv4Interface, x: int) {
    SameNetwork(a, x) && forall y :: SameNetwork(a, y) ==> x <= y
  }

  ghost predicate IsLast(a: Ipv4Interface, x: int) {
    SameNetwork(a, x) && forall y :: SameNetwork(a, y) ==> y <= x
  }

  lemma {:induction false} SizeDivides(plen: int)
    requires 0 <= plen <= 32
    ensures Size(plen) * Pow2(plen) == TWO_TO_32
    decreases 32 - plen
  {
    if plen == 32 {
      Pow2Of32();
    } else {
      SizeDivides(plen + 1);
      assert Size(plen) == 2 * Size(plen + 1);
      assert Pow2(plen + 1) == 2 * Pow2(plen);
      hide Size, Pow2;
      MoveTwo(Size(plen + 1), Pow2(plen));
    }
  }

  lemma MoveTwo(a: int, b: int)
    ensures (2 * a) * b == a * (2 * b)
  {
  }

  lemma Pow2Of32()
    ensures Pow2(32) == TWO_TO_32
  {
    assert Pow2(8) == 256;
    assert Pow2(16) == 0x1_0000 by { assert Pow2(12) == 4096; }
    assert Pow2(24) == 0x100_0000 by { assert Pow2(20) == 0x10_0000; }
    assert Pow2(28) == 0x1000_0000;
  }

  lemma MulMonotone(x: int, y: int, n: int)
    requires x <= y && 0 <= n
    ensures x * n <= y * n
  {
  }

  // Addresses with the quotient q are exactly the n addresses from q * n on.
  lemma Block(q: int, n: int, x: int)
    requires n > 0
    ensures x / n == q <==> q * n <= x < q * n + n
  {
    var p := x / n;
    assert x == p * n + x % n;
    if p < q {
      MulMonotone(p + 1, q, n);
      assert (p + 1) * n == p * n + n;
    } else if q < p {
      MulMonotone(q + 1, p, n);
      assert (q + 1) * n == q * n + n;
    }
  }

  // The block an address falls in, when m blocks of n addresses fill the space.
  lemma BlockFits(ip: int, n: int, m: int, total: int)
    requires n > 0 && n * m == total && 0 <= ip < total
    ensures ip - ip % n == ip / n * n
    ensures 0 <= ip / n * n && ip / n * n + n <= total
  {
    var q := ip / n;
    assert ip == q * n + ip % n;
    assert m * n == n * m;
    if q >= m { MulMonotone(m, q, n); }
    MulMonotone(0, q, n);
    MulMonotone(q + 1, m, n);
    assert (q + 1) * n == q * n + n;
  }

  lemma NetworkIsBlock(a: Ipv4Interface)
    ensures Network(a) == a.ip / Size(a.plen) * Size(a.plen)
    ensures 0 <= Network(a) && Network(a) + Size(a.plen) <= TWO_TO_32
  {
    SizeDivides(a.plen);
    BlockFits(a.ip, Size(a.plen), Pow2(a.plen), TWO_TO_32);
  }

  lemma NetworkRange(a: Ipv4Interface)
    ensures 0 <= Network(a) <= Broadcast(a) < TWO_TO_32
    ensures forall x :: SameNetwork(a, x) <==> Network(a) <= x <= Broadcast(a)
    ensures IsFirst(a, Network(a)) && IsLast(a, Broadcast(a))
  {
    NetworkIsBlock(a);
    forall x ensures SameNetwork(a, x) <==> Network(a) <= x <= Broadcast(a) {
      Block(a.ip / Size(a.plen), Size(a.plen), x);
    }
  }

  // The derived gateway is the least host of the address's network, for every
  // address and prefix length.
  lemma GatewayIsLeastHost(a: Ipv4Interface)
    ensures IsHost(a, DeriveGateway(a))
    ensures forall y :: IsHost(a, y) ==> DeriveGateway(a) <= y
  {
    NetworkRange(a);
    var n := Size(a.plen);
    if a.plen == 32 {
      assert n == 1;
    } else if a.plen == 31 {
      assert n == 2 by { assert Pow2(1) == 2; }
    } else {
      assert n == 2 * Pow2(31 - a.plen) == 4 * Pow2(30 - a.plen);
      assert IsFirst(a, Network(a)) && IsLast(a, Broadcast(a));
    }
  }
}
