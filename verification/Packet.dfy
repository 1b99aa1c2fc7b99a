/** IPv4 headers with TCP or UDP ports (RFC 791 section 3.1, RFC 9293 section 3.1, RFC 768),
    read from and written into the bytes of a captured packet. */
module Packet {
  import opened Common

  datatype IPv4 = IPv4(a: byte, b: byte, c: byte, d: byte)

  const PROTO_TCP: byte := 6
  const PROTO_UDP: byte := 17
  const ANY_IP := IPv4(0, 0, 0, 0)

  datatype Header = Header(ihl: nat, proto: byte, src: IPv4, dst: IPv4, srcPort: port, dstPort: port)

  function GetIP(p: seq<byte>, at: nat): IPv4
    requires at + 4 <= |p|
  {
    IPv4(p[at], p[at + 1], p[at + 2], p[at + 3])
  }

  function GetPort(p: seq<byte>, at: nat): port
    requires at + 2 <= |p|
  {
    256 * (p[at] as int) + p[at + 1] as int
  }

  function PutIP(p: seq<byte>, at: nat, ip: IPv4): (r: seq<byte>)
    requires at + 4 <= |p|
    ensures |r| == |p| && GetIP(r, at) == ip
    ensures forall i :: 0 <= i < |p| && !(at <= i < at + 4) ==> r[i] == p[i]
  {
    p[at := ip.a][at + 1 := ip.b][at + 2 := ip.c][at + 3 := ip.d]
  }

  function PutPort(p: seq<byte>, at: nat, v: port): (r: seq<byte>)
    requires at + 2 <= |p|
    ensures |r| == |p| && GetPort(r, at) == v
    ensures forall i :: 0 <= i < |p| && !(at <= i < at + 2) ==> r[i] == p[i]
  {
    p[at := v / 256][at + 1 := v % 256]
  }

  function Parse(p: seq<byte>): Option<Header> {
    if |p| < 20 || p[0] / 16 != 4 then None
    else
      var ihl := p[0] % 16 * 4;
      if ihl < 20 || |p| < ihl + 8 then None
      else if p[9] != PROTO_TCP && p[9] != PROTO_UDP then None
      else Some(Header(ihl, p[9], GetIP(p, 12), GetIP(p, 16), GetPort(p, ihl), GetPort(p, ihl + 2)))
  }

  /** The layout of a packet (RFC 791 section 3.1): the header fields of `h` among those the guard
      does not read, then the ports and the rest of the segment. */
  function Layout(h: Header, service: byte, middle: seq<byte>, checksum: seq<byte>, options: seq<byte>,
                  rest: seq<byte>): seq<byte>
    requires h.ihl <= 60
  {
    [(4 * 16 + h.ihl / 4) as byte, service] + middle + [h.proto] + checksum
    + [h.src.a, h.src.b, h.src.c, h.src.d, h.dst.a, h.dst.b, h.dst.c, h.dst.d] + options
    + [h.srcPort / 256, h.srcPort % 256, h.dstPort / 256, h.dstPort % 256] + rest
  }

  predicate Supported(h: Header) {
    20 <= h.ihl <= 60 && h.ihl % 4 == 0 && h.proto in {6, 17}
  }

  lemma ParseReadsLayout(h: Header, service: byte, middle: seq<byte>, checksum: seq<byte>, options: seq<byte>,
                         rest: seq<byte>)
    requires Supported(h) && |middle| == 7 && |checksum| == 2 && |options| == h.ihl - 20 && |rest| >= 4
    ensures Parse(Layout(h, service, middle, checksum, options, rest)) == Some(h)
  {
  }

  /** Only packets laid out like that parse. */
  lemma ParsedIsLayout(p: seq<byte>, h: Header)
    requires Parse(p) == Some(h)
    ensures Supported(h) && h.ihl + 8 <= |p|
    ensures p == Layout(h, p[1], p[2..9], p[10..12], p[20..h.ihl], p[h.ihl + 4..])
  {
  }

  /** A fragment of a datagram other than its first (RFC 791 section 3.1: the fragment offset). */
  predicate LaterFragment(p: seq<byte>) {
    |p| >= 8 && (p[6] % 32 > 0 || p[7] > 0)
  }

  /** An IPv4 header of TCP or UDP that fits into the packet, whatever follows. */
  predicate HasHeader(p: seq<byte>) {
    && |p| >= 20 && p[0] / 16 == 4 && p[9] in {PROTO_TCP, PROTO_UDP}
    && 20 <= p[0] % 16 * 4 <= |p|
  }

  function Payload(p: seq<byte>): seq<byte>
    requires HasHeader(p)
  {
    p[p[0] % 16 * 4..]
  }

  /** The fragment offset plays no part: in a later fragment of at least eight bytes the payload is
      read as ports. */
  lemma FragmentsParseIff(p: seq<byte>, offset: seq<byte>)
    requires HasHeader(p) && |offset| == 2
    ensures Parse(p).Some? <==> |Payload(p)| >= 8
    ensures Parse(p).Some? ==>
      Parse(p).value.srcPort == GetPort(Payload(p), 0) && Parse(p).value.dstPort == GetPort(Payload(p), 2)
    ensures Parse(p[6 := offset[0]][7 := offset[1]]) == Parse(p)
  {
  }

  /** Where a checksum recalculation may write: the IPv4 header checksum and the TCP or UDP one. */
  predicate ChecksumByte(h: Header, i: int) {
    || i in {10, 11}
    || (h.proto == PROTO_UDP && i in {h.ihl + 6, h.ihl + 7})
    || (h.proto == PROTO_TCP && i in {h.ihl + 16, h.ihl + 17})
  }

  ghost predicate EqualButChecksums(a: seq<byte>, b: seq<byte>) {
    if Parse(a).None? then a == b
    else |a| == |b| && forall i :: 0 <= i < |a| && !ChecksumByte(Parse(a).value, i) ==> a[i] == b[i]
  }

  lemma ChecksumsDoNotParse(a: seq<byte>, b: seq<byte>)
    requires EqualButChecksums(a, b)
    ensures Parse(a) == Parse(b)
  {
  }

  /** Writing a field changes that field of the parsed header and nothing else. */
  lemma EditedHeader(p: seq<byte>, ip: IPv4, v: port)
    requires Parse(p).Some?
    ensures var h := Parse(p).value;
      && Parse(PutIP(p, 12, ip)) == Some(h.(src := ip))
      && Parse(PutIP(p, 16, ip)) == Some(h.(dst := ip))
      && Parse(PutPort(p, h.ihl, v)) == Some(h.(srcPort := v))
      && Parse(PutPort(p, h.ihl + 2, v)) == Some(h.(dstPort := v))
  {
  }

  /** Writing back what is already there changes nothing. */
  lemma RewriteIsNoOp(p: seq<byte>, at: nat)
    requires at + 4 <= |p|
    ensures PutIP(p, at, GetIP(p, at)) == p
    ensures PutPort(p, at, GetPort(p, at)) == p
  {
  }

  /** The parsed view of a packet buffer; the setters edit the buffer in place. */
  class PacketMeta {
    const data: array<byte>
    const ihl: nat
    const proto: byte
    var src: IPv4
    var dst: IPv4
    var srcPort: port
    var dstPort: port

    function View(): Header reads this {
      Header(ihl, proto, src, dst, srcPort, dstPort)
    }

    /** The fields always agree with the bytes. */
    ghost predicate Valid() reads this, data {
      Parse(data[..]) == Some(View())
    }

    constructor (pkt: array<byte>, h: Header)
      requires Parse(pkt[..]) == Some(h)
      ensures Valid() && data == pkt && View() == h
    {
      data, ihl, proto := pkt, h.ihl, h.proto;
      src, dst, srcPort, dstPort := h.src, h.dst, h.srcPort, h.dstPort;
    }

    method SetSrcIP(ip: IPv4)
      requires Valid()
      modifies this`src, data
      ensures Valid() && View() == old(View()).(src := ip)
      ensures data[..] == PutIP(old(data[..]), 12, ip)
    {
      EditedHeader(data[..], ip, 0);
      WriteIP(data, 12, ip);
      src := ip;
    }

    method SetDstIP(ip: IPv4)
      requires Valid()
      modifies this`dst, data
      ensures Valid() && View() == old(View()).(dst := ip)
      ensures data[..] == PutIP(old(data[..]), 16, ip)
    {
      EditedHeader(data[..], ip, 0);
      WriteIP(data, 16, ip);
      dst := ip;
    }

    method SetSrcPort(v: port)
      requires Valid()
      modifies this`srcPort, data
      ensures Valid() && View() == old(View()).(srcPort := v)
      ensures data[..] == PutPort(old(data[..]), ihl, v)
    {
      EditedHeader(data[..], ANY_IP, v);
      WritePort(data, ihl, v);
      srcPort := v;
    }

    method SetDstPort(v: port)
      requires Valid()
      modifies this`dstPort, data
      ensures Valid() && View() == old(View()).(dstPort := v)
      ensures data[..] == PutPort(old(data[..]), ihl + 2, v)
    {
      EditedHeader(data[..], ANY_IP, v);
      WritePort(data, ihl + 2, v);
      dstPort := v;
    }
  }

  method WriteIP(data: array<byte>, at: nat, ip: IPv4)
    requires at + 4 <= data.Length
    modifies data
    ensures data[..] == PutIP(old(data[..]), at, ip)
  {
    data[at], data[at + 1], data[at + 2], data[at + 3] := ip.a, ip.b, ip.c, ip.d;
  }

  /** Big-endian, as on the wire. */
  method WritePort(data: array<byte>, at: nat, v: port)
    requires at + 2 <= data.Length
    modifies data
    ensures data[..] == PutPort(old(data[..]), at, v)
  {
    data[at], data[at + 1] := v / 256, v % 256;
  }

  method ParsePacket(pkt: array<byte>) returns (m: PacketMeta?)
    ensures m == null <==> Parse(pkt[..]).None?
    ensures m != null ==> fresh(m) && m.Valid() && m.data == pkt && Parse(pkt[..]) == Some(m.View())
  {
    var h := Parse(pkt[..]);
    if h.None? { return null; }
    m := new PacketMeta(pkt, h.value);
  }

  // ---- CIDR ranges ----

  /** An IPv4 network as net.ParseCIDR yields it: an address and a prefix length. */
  datatype Cidr = Cidr(base: IPv4, prefix: nat) {
    predicate Valid() { prefix <= 32 }

    /** How many bits of octet `i` belong to the host. */
    function HostBits(i: nat): (k: nat)
      requires i < 4
      ensures k <= 8
    {
      var free := 8 * (i + 1) - prefix;
      if free <= 0 then 0 else if free >= 8 then 8 else free
    }
  }

  /** The `k` low bits of an octet. */
  function LowBits(x: byte, k: nat): byte {
    match k
    case 0 => 0
    case 1 => x % 2
    case 2 => x % 4
    case 3 => x % 8
    case 4 => x % 16
    case 5 => x % 32
    case 6 => x % 64
    case 7 => x % 128
    case _ => x
  }

  function AllOnes(k: nat): byte {
    match k
    case 0 => 0
    case 1 => 1
    case 2 => 3
    case 3 => 7
    case 4 => 15
    case 5 => 31
    case 6 => 63
    case 7 => 127
    case _ => 255
  }

  /** `x` under a mask whose `k` low bits are clear. */
  function Masked(x: byte, k: nat): (r: byte)
    ensures r + AllOnes(k) <= 255
  {
    x - LowBits(x, k)
  }

  predicate InNet(ip: IPv4, net: Cidr) {
    && Masked(ip.a, net.HostBits(0)) == Masked(net.base.a, net.HostBits(0))
    && Masked(ip.b, net.HostBits(1)) == Masked(net.base.b, net.HostBits(1))
    && Masked(ip.c, net.HostBits(2)) == Masked(net.base.c, net.HostBits(2))
    && Masked(ip.d, net.HostBits(3)) == Masked(net.base.d, net.HostBits(3))
  }

  /** `x` with its `k` low bits set. */
  function TopOf(x: byte, k: nat): byte { Masked(x, k) + AllOnes(k) }

  /** ipv4Range: the first address of the network and its broadcast address. */
  function Range(net: Cidr): (r: (IPv4, IPv4)) {
    var b := net.base;
    (IPv4(Masked(b.a, net.HostBits(0)), Masked(b.b, net.HostBits(1)), Masked(b.c, net.HostBits(2)),
          Masked(b.d, net.HostBits(3))),
     IPv4(TopOf(b.a, net.HostBits(0)), TopOf(b.b, net.HostBits(1)), TopOf(b.c, net.HostBits(2)),
          TopOf(b.d, net.HostBits(3))))
  }

  function Number(ip: IPv4): nat {
    0x100_0000 * ip.a + 0x1_0000 * ip.b + 0x100 * ip.c + ip.d
  }

  lemma Gap(m: int, d: int)
    requires m > 0
    ensures d >= 1 ==> m * d >= m
    ensures d <= -1 ==> m * d <= -m
  {
    if d >= 1 { assert m * d == m + m * (d - 1); }
  }

  /** Blocks of size `m` do not overlap: `px` and `pb` are multiples of `m`. */
  lemma BlockRange(qx: int, rx: int, qb: int, m: int, px: int, pb: int)
    requires 0 <= rx < m && px == m * qx && pb == m * qb
    ensures px == pb <==> pb <= px + rx <= pb + m - 1
  {
    Gap(m, qx - qb);
    assert m * (qx - qb) == m * qx - m * qb;
  }

  lemma SmallBlocks(x: byte, base: byte, m: int)
    requires m in {2, 4, 8, 16, 32, 64, 128}
    ensures x - x % m == base - base % m <==> base - base % m <= x <= base - base % m + m - 1
  {
    BlockRange(x / m, x % m, base / m, m, m * (x / m), m * (base / m));
    assert x == m * (x / m) + x % m;
    assert base == m * (base / m) + base % m;
  }

  lemma OctetRange(x: byte, base: byte, k: nat)
    requires k <= 8
    ensures Masked(x, k) == Masked(base, k) <==> Masked(base, k) <= x <= TopOf(base, k)
    ensures k == 8 ==> Masked(base, k) == 0 && TopOf(base, k) == 255
  {
    if 1 <= k <= 7 {
      var m := AllOnes(k) + 1;
      assert LowBits(x, k) == x % m && LowBits(base, k) == base % m;
      SmallBlocks(x, base, m);
    }
  }

  /** Membership, octet by octet. */
  lemma NetIsBox(ip: IPv4, net: Cidr)
    ensures InNet(ip, net) <==> var (lo, hi) := Range(net);
      lo.a <= ip.a <= hi.a && lo.b <= ip.b <= hi.b && lo.c <= ip.c <= hi.c && lo.d <= ip.d <= hi.d
  {
    OctetRange(ip.a, net.base.a, net.HostBits(0));
    OctetRange(ip.b, net.base.b, net.HostBits(1));
    OctetRange(ip.c, net.base.c, net.HostBits(2));
    OctetRange(ip.d, net.base.d, net.HostBits(3));
  }

  /** Membership is the same as lying between the two ends of the range. */
  lemma RangeIsNet(ip: IPv4, net: Cidr)
    requires net.Valid()
    ensures InNet(ip, net) <==> Number(Range(net).0) <= Number(ip) <= Number(Range(net).1)
  {
    NetIsBox(ip, net);
    assert net.HostBits(0) > 0 ==> net.HostBits(1) == 8;
    assert net.HostBits(1) > 0 ==> net.HostBits(2) == 8;
    assert net.HostBits(2) > 0 ==> net.HostBits(3) == 8;
    BoxIsRange(Range(net).0, ip, Range(net).1, net.HostBits(0), net.HostBits(1), net.HostBits(2));
    NumbersAreOctetwise(Range(net).0, ip);
    NumbersAreOctetwise(ip, Range(net).1);
  }

  // ---- what a prefix means ----

  function Power(k: nat): (r: nat)
    requires k <= 8
    ensures r > 0
  {
    match k
    case 0 => 1
    case 1 => 2
    case 2 => 4
    case 3 => 8
    case 4 => 16
    case 5 => 32
    case 6 => 64
    case 7 => 128
    case _ => 256
  }

  /** Bit `i` of an octet, counted from the left. */
  function OctetBit(x: byte, i: nat): int
    requires i < 8
  {
    x / Power(7 - i) % 2
  }

  /** Bit `j` of an address, counted from the left. */
  function Bit(ip: IPv4, j: nat): int
    requires j < 32
  {
    if j < 8 then OctetBit(ip.a, j)
    else if j < 16 then OctetBit(ip.b, j - 8)
    else if j < 24 then OctetBit(ip.c, j - 16)
    else OctetBit(ip.d, j - 24)
  }

  lemma OneMoreBit(x: byte, i: nat)
    requires i < 8
    ensures x / Power(7 - i) == 2 * (x / Power(8 - i)) + OctetBit(x, i)
  {
    assert i in {0, 1, 2, 3, 4, 5, 6, 7};
  }

  predicate SameBits(x: byte, y: byte, n: nat)
    requires n <= 8
  {
    forall i :: 0 <= i < n ==> OctetBit(x, i) == OctetBit(y, i)
  }

  lemma {:induction false} TopBits(x: byte, y: byte, n: nat)
    requires n <= 8
    ensures x / Power(8 - n) == y / Power(8 - n) <==> SameBits(x, y, n)
  {
    if n > 0 {
      TopBits(x, y, n - 1);
      OneMoreBit(x, n - 1);
      OneMoreBit(y, n - 1);
      assert SameBits(x, y, n) <==> SameBits(x, y, n - 1) && OctetBit(x, n - 1) == OctetBit(y, n - 1);
    }
  }

  lemma MaskedIsQuotient(x: byte, k: nat)
    requires k <= 8
    ensures Masked(x, k) == Power(k) * (x / Power(k))
  {
    assert k in {0, 1, 2, 3, 4, 5, 6, 7, 8};
  }

  lemma SameMasked(x: byte, y: byte, k: nat)
    requires k <= 8
    ensures Masked(x, k) == Masked(y, k) <==> SameBits(x, y, 8 - k)
  {
    MaskedIsQuotient(x, k);
    MaskedIsQuotient(y, k);
    TopBits(x, y, 8 - k);
    if x / Power(k) != y / Power(k) { Gap(Power(k), x / Power(k) - y / Power(k)); }
  }

  /** An address is in a network of prefix length n exactly when its first n bits are those of the
      network. */
  lemma InNetIffPrefix(ip: IPv4, net: Cidr)
    requires net.Valid()
    ensures InNet(ip, net) <==> forall j: nat :: j < net.prefix ==> Bit(ip, j) == Bit(net.base, j)
  {
    SameMasked(ip.a, net.base.a, net.HostBits(0));
    SameMasked(ip.b, net.base.b, net.HostBits(1));
    SameMasked(ip.c, net.base.c, net.HostBits(2));
    SameMasked(ip.d, net.base.d, net.HostBits(3));
    PrefixByOctets(ip, net);
  }

  lemma PrefixByOctets(ip: IPv4, net: Cidr)
    requires net.Valid()
    ensures (forall j: nat :: j < net.prefix ==> Bit(ip, j) == Bit(net.base, j)) <==>
      && SameBits(ip.a, net.base.a, 8 - net.HostBits(0)) && SameBits(ip.b, net.base.b, 8 - net.HostBits(1))
      && SameBits(ip.c, net.base.c, 8 - net.HostBits(2)) && SameBits(ip.d, net.base.d, 8 - net.HostBits(3))
  {
    if forall j: nat :: j < net.prefix ==> Bit(ip, j) == Bit(net.base, j) {
      forall i | 0 <= i < 8 - net.HostBits(0)
        ensures OctetBit(ip.a, i) == OctetBit(net.base.a, i)
      {
        assert Bit(ip, i) == Bit(net.base, i);
      }
      forall i | 0 <= i < 8 - net.HostBits(1)
        ensures OctetBit(ip.b, i) == OctetBit(net.base.b, i)
      {
        assert Bit(ip, 8 + i) == Bit(net.base, 8 + i);
      }
      forall i | 0 <= i < 8 - net.HostBits(2)
        ensures OctetBit(ip.c, i) == OctetBit(net.base.c, i)
      {
        assert Bit(ip, 16 + i) == Bit(net.base, 16 + i);
      }
      forall i | 0 <= i < 8 - net.HostBits(3)
        ensures OctetBit(ip.d, i) == OctetBit(net.base.d, i)
      {
        assert Bit(ip, 24 + i) == Bit(net.base, 24 + i);
      }
    }
  }

  /** A box is a range of numbers when every octet after one that varies is free. */
  lemma BoxIsRange(lo: IPv4, ip: IPv4, hi: IPv4, ka: nat, kb: nat, kc: nat)
    requires if ka > 0 then lo.b == lo.c == lo.d == 0 && hi.b == hi.c == hi.d == 255 else lo.a == hi.a
    requires ka > 0 || if kb > 0 then lo.c == lo.d == 0 && hi.c == hi.d == 255 else lo.b == hi.b
    requires ka > 0 || kb > 0 || if kc > 0 then lo.d == 0 && hi.d == 255 else lo.c == hi.c
    ensures AtMost(lo, ip) && AtMost(ip, hi) <==>
      lo.a <= ip.a <= hi.a && lo.b <= ip.b <= hi.b && lo.c <= ip.c <= hi.c && lo.d <= ip.d <= hi.d
  {
  }

  /** Ordering numbers octet by octet, from the left. */
  predicate AtMost(a: IPv4, b: IPv4) {
    a.a < b.a || (a.a == b.a && (a.b < b.b || (a.b == b.b && (a.c < b.c || (a.c == b.c && a.d <= b.d)))))
  }

  lemma NumbersAreOctetwise(a: IPv4, b: IPv4)
    ensures Number(a) <= Number(b) <==> AtMost(a, b)
  {
    if a.a == b.a && a.b == b.b { assert Number(a) <= Number(b) <==> 0x100 * a.c + a.d <= 0x100 * b.c + b.d; }
  }
}
