/** The decision loop of the Route Guard: which packets are pinned, rewritten, restored or dropped. */
module RouteGuard {
  import opened Common
  import opened Packet
  import opened NatTables
  import opened Owners

  type IfIndex = x: int | 0 <= x < 0x1_0000_0000

  /** The part of a WinDivert address the guard reads or writes. */
  datatype Address = Address(outbound: bool, ifIndex: IfIndex, subIfIndex: IfIndex)

  datatype Config = Config(clientIP: IPv4, net: Cidr, ifIndex: IfIndex)

  function Broadcast(cfg: Config): IPv4 { Range(cfg.net).1 }

  /** What becomes of a captured packet. `changed` packets get new checksums before they leave. */
  datatype Verdict = Drop | Send(bytes: seq<byte>, addr: Address, changed: bool)

  predicate IsVirtualBroadcast(cfg: Config, h: Header) {
    h.proto == PROTO_UDP && h.dst == Broadcast(cfg)
  }

  function MappingOf(h: Header, now: int): NatMapping {
    NatMapping(h.proto, h.src, h.srcPort, h.dst, h.dstPort, now)
  }

  /** An outbound packet of the game needs its source rewritten, and so a mapping. */
  predicate NeedsRewrite(cfg: Config, h: Header) {
    InNet(h.dst, cfg.net) && h.src != cfg.clientIP
  }

  function RewriteKey(cfg: Config, h: Header): NatKey {
    NatKey(h.proto, h.srcPort, h.dstPort, if IsVirtualBroadcast(cfg, h) then ANY_IP else h.dst)
  }

  function OwnerFor(t: Tables, targets: set<Pid>, h: Header, addr: Address): Option<Pid> {
    if addr.outbound then OwnerOutbound(t, targets, h) else OwnerInbound(t, targets, h)
  }

  /** What the resolver knows when a packet comes: its tables, the targets it prefers as owners,
      and the targets when the owner found is looked up again.  The two looks take the lock
      separately, so a refresh may fall between them. */
  datatype Known = Known(tables: Tables, preferred: set<Pid>, targets: set<Pid>)

  predicate ForGame(k: Known, h: Header, addr: Address) {
    IsTarget(OwnerFor(k.tables, k.preferred, h, addr), k.targets)
  }

  /** The bytes of `p` with the endpoints of an earlier flow put back. */
  function Restored(p: seq<byte>, ihl: nat, m: NatMapping): seq<byte>
    requires 20 <= ihl && ihl + 8 <= |p|
  {
    PutPort(PutPort(PutIP(PutIP(p, 12, m.remoteIP), 16, m.localIP), ihl, m.remotePort), ihl + 2, m.localPort)
  }

  /** A packet the game sends may only enter the overlay, pinned and with the client's address. */
  function OutboundVerdict(cfg: Config, h: Header, p: seq<byte>, addr: Address): Verdict
    requires Parse(p) == Some(h)
  {
    if !InNet(h.dst, cfg.net) then Drop
    else
      var pinned := if cfg.ifIndex > 0 then addr.(ifIndex := cfg.ifIndex, subIfIndex := 0) else addr;
      if NeedsRewrite(cfg, h) then Send(PutIP(p, 12, cfg.clientIP), pinned, true) else Send(p, pinned, false)
  }

  /** A packet for the game must come from the overlay; a rewritten flow is put back. */
  function InboundVerdict(cfg: Config, ms: Mappings, h: Header, p: seq<byte>, addr: Address): Verdict
    requires Parse(p) == Some(h)
  {
    if !InNet(h.src, cfg.net) || (cfg.ifIndex > 0 && addr.ifIndex != cfg.ifIndex) then Drop
    else
      match Lookup(ms, h.proto, h.dstPort, h.srcPort, h.src)
      case None => Send(p, addr, false)
      case Some(m) => Send(Restored(p, h.ihl, m), addr, true)
  }

  function Decide(cfg: Config, ms: Mappings, k: Known, p: seq<byte>, addr: Address): Verdict {
    match Parse(p)
    case None => Send(p, addr, false)
    case Some(h) => VerdictFor(cfg, ms, ForGame(k, h, addr), h, p, addr)
  }

  function VerdictFor(cfg: Config, ms: Mappings, forGame: bool, h: Header, p: seq<byte>, addr: Address): Verdict
    requires Parse(p) == Some(h)
  {
    if !forGame then Send(p, addr, false)
    else if addr.outbound then OutboundVerdict(cfg, h, p, addr)
    else InboundVerdict(cfg, ms, h, p, addr)
  }

  function NatAfter(cfg: Config, ms: Mappings, k: Known, p: seq<byte>, addr: Address, now: int): Mappings {
    match Parse(p)
    case None => ms
    case Some(h) => NatFor(cfg, ms, ForGame(k, h, addr), h, addr, now)
  }

  function NatFor(cfg: Config, ms: Mappings, forGame: bool, h: Header, addr: Address, now: int): Mappings {
    if addr.outbound && forGame && NeedsRewrite(cfg, h) then ms[RewriteKey(cfg, h) := MappingOf(h, now)] else ms
  }

  /** The packet path with its state: one call of Handle is one turn of the loop in `run`. */
  class Guard {
    const cfg: Config
    const table: NatTable
    const resolver: OwnerResolver
    var blockedOutbound: nat
    var blockedInbound: nat
    /** How many packets were handed over for new checksums. */
    ghost var recalculated: nat

    constructor (cfg: Config, table: NatTable, resolver: OwnerResolver)
      ensures this.cfg == cfg && this.table == table && this.resolver == resolver
      ensures blockedOutbound == blockedInbound == recalculated == 0
    {
      this.cfg, this.table, this.resolver := cfg, table, resolver;
      blockedOutbound, blockedInbound, recalculated := 0, 0, 0;
    }

    /** The outbound half of the loop body, for a packet that belongs to the game. */
    method Outbound(meta: PacketMeta, from: Address, now: int) returns (sent: Option<Address>, changed: bool)
      requires meta.Valid()
      modifies this`blockedOutbound, table, meta, meta.data
      ensures meta.Valid()
      ensures var h := old(meta.View());
        && table.mappings == (if NeedsRewrite(cfg, h) then old(table.mappings)[RewriteKey(cfg, h) := MappingOf(h, now)]
                              else old(table.mappings))
        && OutboundVerdict(cfg, h, old(meta.data[..]), from) ==
             (if sent.None? then Drop else Send(meta.data[..], sent.value, changed))
      ensures sent.None? ==> meta.data[..] == old(meta.data[..])
      ensures blockedOutbound == old(blockedOutbound) + if sent.None? then 1 else 0
    {
      var addr := from;
      changed := false;
      if InNet(meta.dst, cfg.net) {
        var isVirtualBroadcast := meta.proto == PROTO_UDP && meta.dst == Range(cfg.net).1;
        if cfg.ifIndex > 0 {
          addr := addr.(ifIndex := cfg.ifIndex, subIfIndex := 0);
        }
        if meta.src != cfg.clientIP {
          var original := MappingOf(meta.View(), now);
          if isVirtualBroadcast {
            table.PutWildcard(original);
          } else {
            table.Put(original, meta.dst);
          }
          meta.SetSrcIP(cfg.clientIP);
          changed := true;
        }
        sent := Some(addr);
      } else {
        blockedOutbound := blockedOutbound + 1;
        sent := None;
      }
    }

    /** The inbound half of the loop body, for a packet that belongs to the game. */
    method Inbound(meta: PacketMeta, from: Address) returns (sent: Option<Address>, changed: bool)
      requires meta.Valid()
      modifies this`blockedInbound, meta, meta.data
      ensures meta.Valid()
      ensures InboundVerdict(cfg, table.mappings, old(meta.View()), old(meta.data[..]), from) ==
        (if sent.None? then Drop else Send(meta.data[..], sent.value, changed))
      ensures sent.None? ==> meta.data[..] == old(meta.data[..])
      ensures blockedInbound == old(blockedInbound) + if sent.None? then 1 else 0
    {
      changed := false;
      var wrongInterface := cfg.ifIndex > 0 && from.ifIndex != cfg.ifIndex;
      if !InNet(meta.src, cfg.net) || wrongInterface {
        blockedInbound := blockedInbound + 1;
        return None, false;
      }
      var original := table.Get(meta.proto, meta.dstPort, meta.srcPort, meta.src);
      if original.Some? {
        meta.SetSrcIP(original.value.remoteIP);
        meta.SetDstIP(original.value.localIP);
        meta.SetSrcPort(original.value.remotePort);
        meta.SetDstPort(original.value.localPort);
        changed := true;
      }
      sent := Some(from);
    }

    /** The loop body once it is known whether the packet belongs to the game. */
    method Treat(meta: PacketMeta, forGame: bool, from: Address, now: int)
      returns (sent: Option<Address>, changed: bool)
      requires meta.Valid()
      modifies this`blockedOutbound, this`blockedInbound, table, meta, meta.data
      ensures meta.Valid()
      ensures table.mappings == NatFor(cfg, old(table.mappings), forGame, old(meta.View()), from, now)
      ensures VerdictFor(cfg, old(table.mappings), forGame, old(meta.View()), old(meta.data[..]), from) ==
        (if sent.None? then Drop else Send(meta.data[..], sent.value, changed))
      ensures sent.None? ==> meta.data[..] == old(meta.data[..])
      ensures blockedOutbound + blockedInbound ==
        old(blockedOutbound + blockedInbound) + if sent.None? then 1 else 0
    {
      if !forGame {
        sent, changed := Some(from), false;
      } else if from.outbound {
        sent, changed := Outbound(meta, from, now);
      } else {
        sent, changed := Inbound(meta, from);
      }
    }

    /** None means the packet is dropped; otherwise `pkt` is sent to the returned address.
        `refreshed` holds the new targets if a background refresh falls between the two looks at them. */
    method Handle(pkt: array<byte>, from: Address, now: int, refreshed: Option<set<Pid>>)
      returns (sent: Option<Address>)
      modifies this, table, resolver`refreshRequested, resolver`targets, pkt
      ensures resolver.targets == old(resolver.targets) || refreshed == Some(resolver.targets)
      ensures var known := Known(resolver.tables, old(resolver.targets), resolver.targets);
        && table.mappings == NatAfter(cfg, old(table.mappings), known, old(pkt[..]), from, now)
        && match Decide(cfg, old(table.mappings), known, old(pkt[..]), from)
           case Drop => sent == None && pkt[..] == old(pkt[..])
           case Send(bytes, addr, changed) =>
             && sent == Some(addr)
             && recalculated == old(recalculated) + (if changed then 1 else 0)
             && if changed then EqualButChecksums(bytes, pkt[..]) else pkt[..] == bytes
      // Every drop is counted, and nothing else is.
      ensures blockedOutbound + blockedInbound ==
        old(blockedOutbound + blockedInbound) + if sent.None? then 1 else 0
    {
      var meta := ParsePacket(pkt);
      if meta == null { return Some(from); }
      var pid := resolver.Resolve(meta.View(), from.outbound);
      if refreshed.Some? { resolver.targets := refreshed.value; }
      var changed;
      sent, changed := Treat(meta, pid.Some? && pid.value in resolver.targets, from, now);
      if sent.Some? && changed {
        CalcChecksums(pkt, meta.View());
        recalculated := recalculated + 1;
      }
    }
  }

  /** WinDivertHelperCalcChecksums: it may write any value, or fail, but only at checksum bytes. */
  method CalcChecksums(pkt: array<byte>, h: Header)
    requires Parse(pkt[..]) == Some(h)
    modifies pkt
    ensures EqualButChecksums(old(pkt[..]), pkt[..])
  {
    var fails: bool := *;
    if fails { return; }
    pkt[10] := *;
    pkt[11] := *;
    var at := if h.proto == PROTO_UDP then h.ihl + 6 else h.ihl + 16;
    if at + 1 < pkt.Length {
      pkt[at] := *;
      pkt[at + 1] := *;
    }
  }
}
