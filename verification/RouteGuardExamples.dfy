/** Traces in which a reply does not come back to the game as one would expect: the conditions
    under which that happens, and packets that meet them. */
module RouteGuardExamples {
  import opened Common
  import opened Packet
  import opened NatTables
  import opened Owners
  import opened RouteGuard
  import opened RouteGuardTraces

  /** `ip`:`lport` belongs to the first process, 0.0.0.0:`lport` to the second. */
  function SharedPort(ip: IPv4, lport: port, game: Pid, other: Pid): Tables {
    Tables(map[], map[], map[UdpKey(ip, lport) := [game], UdpKey(ANY_IP, lport) := [other]],
           map[lport := if game == other then [game] else [game, other]])
  }

  lemma SharedPortIsIndexed(ip: IPv4, lport: port, game: Pid, other: Pid)
    requires ip != ANY_IP && game != 0 && other != 0
    ensures Indexed(SharedPort(ip, lport, game, other))
  {
    var t := SharedPort(ip, lport, game, other);
    forall p: port, pid: Pid
      ensures pid in Listed(t.udpByPort, p) <==> UdpOwns(t.udp, t.udp.Keys, p, pid)
    {
      var k, k' := UdpKey(ip, lport), UdpKey(ANY_IP, lport);
      assert k in t.udp.Keys && k' in t.udp.Keys && t.udp[k] == [game] && t.udp[k'] == [other];
    }
  }

  /** `sent` is a UDP packet of the game from an address that is not the client's; `reply` answers
      it while `other` holds the wildcard address of the same port. */
  ghost predicate Exchange(cfg: Config, sent: Event, reply: Event, h: Header, g: Header, game: Pid, other: Pid) {
    && sent.Captured? && Parse(sent.bytes) == Some(h) && sent.addr.outbound
    && reply.Captured? && Parse(reply.bytes) == Some(g) && !reply.addr.outbound && OnPinnedInterface(cfg, reply.addr)
    && h.proto == g.proto == PROTO_UDP && g.srcPort == h.dstPort && g.dstPort == h.srcPort
    && g.dst == cfg.clientIP && h.src !in {ANY_IP, cfg.clientIP} && NeedsRewrite(cfg, h) && InNet(g.src, cfg.net)
    && game != 0 && other != 0
    && sent.known == reply.known == Known(SharedPort(h.src, h.srcPort, game, other), {game}, {game})
  }

  lemma GameOwns(cfg: Config, sent: Event, reply: Event, h: Header, g: Header, game: Pid, other: Pid)
    requires Exchange(cfg, sent, reply, h, g, game, other) && cfg.clientIP != ANY_IP
    ensures Indexed(sent.known.tables) && ForGame(sent.known, h, sent.addr)
    ensures ForGame(reply.known, g, reply.addr) <==> game == other
    ensures Next(cfg, 0, map[], sent) == map[RewriteKey(cfg, h) := MappingOf(h, sent.now)]
  {
    SharedPortIsIndexed(h.src, h.srcPort, game, other);
    PreferredIsTarget([game], {game});
    PreferredIsTarget([other], {game});
  }

  /** Another process shares the game's port on the wildcard address.  The game's packet is
      rewritten, and the reply to it goes to that process, not restored. */
  lemma StrangerTakesReply(cfg: Config, sent: Event, reply: Event, h: Header, g: Header, game: Pid, stranger: Pid,
                           out: Option<Delivery>)
    requires Exchange(cfg, sent, reply, h, g, game, stranger) && cfg.clientIP != ANY_IP
    requires game != stranger && g.src == h.dst && !IsVirtualBroadcast(cfg, h)
    requires Delivers(Decide(cfg, Next(cfg, 0, map[], sent), reply.known, reply.bytes, reply.addr), out)
    ensures NatKey(g.proto, g.dstPort, g.srcPort, g.src) in Next(cfg, 0, map[], sent)
    ensures out == Some(Delivery(reply.bytes, reply.addr))
  {
    GameOwns(cfg, sent, reply, h, g, game, stranger);
  }

  /** The game broadcasts and a peer answers: the answer seems to come from the broadcast address. */
  lemma BroadcastHidesPeer(cfg: Config, sent: Event, reply: Event, h: Header, g: Header, game: Pid,
                           out: Option<Delivery>)
    requires Exchange(cfg, sent, reply, h, g, game, game) && cfg.clientIP != ANY_IP
    requires IsVirtualBroadcast(cfg, h) && g.src !in {ANY_IP, h.dst}
    requires Delivers(Decide(cfg, Next(cfg, 0, map[], sent), reply.known, reply.bytes, reply.addr), out)
    ensures out.Some? && Parse(out.value.bytes) == Some(g.(src := h.dst, dst := h.src))
  {
    GameOwns(cfg, sent, reply, h, g, game, game);
    BroadcastReplyShowsBroadcastSource(cfg, Next(cfg, 0, map[], sent), reply, h, g, sent.now, out);
  }

  // ---- fragments ----

  /** A later fragment that is sent out of the network by the game passes unless its payload, read
      as ports, happens to name a socket of the game. */
  lemma LaterFragmentPassesIff(cfg: Config, ms: Mappings, k: Known, p: seq<byte>, addr: Address)
    requires HasHeader(p) && LaterFragment(p) && addr.outbound && !InNet(GetIP(p, 16), cfg.net)
    ensures Decide(cfg, ms, k, p, addr) == Send(p, addr, false)
       <==> |Payload(p)| < 8 || !ForGame(k, Parse(p).value, addr)
  {
    FragmentsParseIff(p, [0, 0]);
  }

  /** The first fragment of a datagram of the game is dropped, and a later one, whose payload does
      not begin with the game's port, leaves the network. */
  lemma LaterFragmentEscapes(cfg: Config, ms: Mappings, first: seq<byte>, later: seq<byte>, h: Header, g: Header,
                             game: Pid, addr: Address)
    requires Parse(first) == Some(h) && Parse(later) == Some(g) && LaterFragment(later) && addr.outbound && game != 0
    requires h.proto == g.proto == PROTO_UDP && g.src == h.src != ANY_IP && g.dst == h.dst && !InNet(h.dst, cfg.net)
    requires g.srcPort != h.srcPort
    ensures var k := Known(SharedPort(h.src, h.srcPort, game, game), {game}, {game});
      && Indexed(k.tables)
      && Decide(cfg, ms, k, first, addr) == Drop
      && Decide(cfg, ms, k, later, addr) == Send(later, addr, false)
  {
    SharedPortIsIndexed(h.src, h.srcPort, game, game);
    PreferredIsTarget([game], {game});
  }

  /** Such fragments exist for every pair of addresses. */
  lemma FragmentsExist(src: IPv4, dst: IPv4) returns (first: seq<byte>, later: seq<byte>, h: Header, g: Header)
    ensures Parse(first) == Some(h) && Parse(later) == Some(g) && LaterFragment(later) && !LaterFragment(first)
    ensures h == Header(20, PROTO_UDP, src, dst, 3074, 3074) && g == h.(srcPort := 0, dstPort := 0)
  {
    h := Header(20, PROTO_UDP, src, dst, 3074, 3074);
    g := h.(srcPort := 0, dstPort := 0);
    var begin, later1 := [0, 0, 0, 0, 0x20, 0, 0], [0, 0, 0, 0, 0, 1, 0];
    first := Layout(h, 0, begin, [0, 0], [], [0, 0, 0, 0]);
    later := Layout(g, 0, later1, [0, 0], [], [0, 0, 0, 0]);
    ParseReadsLayout(h, 0, begin, [0, 0], [], [0, 0, 0, 0]);
    ParseReadsLayout(g, 0, later1, [0, 0], [], [0, 0, 0, 0]);
  }

  // ---- packets like that exist ----

  lemma Prefix24(ip: IPv4, net: Cidr)
    requires net.prefix == 24
    ensures InNet(ip, net) <==> ip.a == net.base.a && ip.b == net.base.b && ip.c == net.base.c
    ensures Range(net).1 == IPv4(net.base.a, net.base.b, net.base.c, 255)
  {
    assert net.HostBits(0) == 0 && net.HostBits(1) == 0 && net.HostBits(2) == 0 && net.HostBits(3) == 8;
  }

  /** A UDP datagram of eight bytes, without data. */
  lemma DatagramExists(h: Header) returns (bytes: seq<byte>)
    requires h.ihl == 20 && h.proto == PROTO_UDP
    ensures Parse(bytes) == Some(h)
  {
    bytes := Layout(h, 0, [0, 0, 0, 0, 0, 0, 0], [0, 0], [], [0, 0, 0, 0]);
    ParseReadsLayout(h, 0, [0, 0, 0, 0, 0, 0, 0], [0, 0], [], [0, 0, 0, 0]);
  }

  /** The headers of such an exchange. */
  ghost predicate Fits(cfg: Config, h: Header, g: Header) {
    && h.ihl == g.ihl == 20 && h.proto == g.proto == PROTO_UDP && g.srcPort == h.dstPort && g.dstPort == h.srcPort
    && g.dst == cfg.clientIP && h.src !in {ANY_IP, cfg.clientIP} && InNet(h.dst, cfg.net) && InNet(g.src, cfg.net)
  }

  lemma ExchangeOf(cfg: Config, h: Header, g: Header, game: Pid, other: Pid) returns (sent: Event, reply: Event)
    requires Fits(cfg, h, g) && game != 0 && other != 0
    ensures Exchange(cfg, sent, reply, h, g, game, other)
  {
    var known := Known(SharedPort(h.src, h.srcPort, game, other), {game}, {game});
    var request := DatagramExists(h);
    var answer := DatagramExists(g);
    sent := Captured(request, Address(true, 0, 0), 0, known);
    reply := Captured(answer, Address(false, cfg.ifIndex, 0), 10, known);
  }

  /** In every network of prefix length 24, such as 10.66.0.0/24: a game bound to `lan`, such as
      192.168.1.20, sends to the host `to`, and the host `peer` answers to the host `client`. */
  lemma HeadersExist(net: Cidr, lan: IPv4, client: byte, peer: byte, to: byte)
    returns (cfg: Config, h: Header, g: Header)
    requires net.prefix == 24 && net.base.a != 0 && lan.a !in {0, net.base.a}
    ensures Fits(cfg, h, g) && cfg.net == net && cfg.clientIP != ANY_IP
    ensures h.src == lan && h.dst == net.base.(d := to) && g.src == net.base.(d := peer) != ANY_IP
    ensures IsVirtualBroadcast(cfg, h) <==> to == 255
  {
    cfg := Config(net.base.(d := client), net, 7);
    h := Header(20, PROTO_UDP, lan, net.base.(d := to), 3074, 3074);
    g := Header(20, PROTO_UDP, net.base.(d := peer), cfg.clientIP, 3074, 3074);
    Prefix24(h.dst, net);
    Prefix24(g.src, net);
  }

  /** Packets, socket tables and PIDs for both results above: with `to` 255 the exchange is a
      broadcast, otherwise the reply of `to` itself. */
  lemma ExchangeExists(net: Cidr, lan: IPv4, client: byte, to: byte, game: Pid, other: Pid)
    returns (cfg: Config, sent: Event, reply: Event, h: Header, g: Header)
    requires net.prefix == 24 && net.base.a != 0 && lan.a !in {0, net.base.a} && game != 0 && other != 0
    ensures Exchange(cfg, sent, reply, h, g, game, other) && cfg.clientIP != ANY_IP
    ensures if to == 255 then IsVirtualBroadcast(cfg, h) && g.src !in {ANY_IP, h.dst}
            else !IsVirtualBroadcast(cfg, h) && g.src == h.dst
  {
    cfg, h, g := HeadersExist(net, lan, client, if to == 255 then 9 else to, to);
    sent, reply := ExchangeOf(cfg, h, g, game, other);
  }
}
