/** The NAT table of the Route Guard. Times are milliseconds. */
module NatTables {
  import opened Common
  import opened Packet

  datatype NatKey = NatKey(proto: byte, localPort: port, remotePort: port, replySrc: IPv4)
  datatype NatMapping = NatMapping(proto: byte, localIP: IPv4, localPort: port,
                                   remoteIP: IPv4, remotePort: port, updatedAt: int)

  type Mappings = map<NatKey, NatMapping>

  const DEFAULT_TTL := 600_000

  function KeyFor(m: NatMapping, replySrc: IPv4): NatKey {
    NatKey(m.proto, m.localPort, m.remotePort, replySrc)
  }

  /** The exact reply address first, then the wildcard. */
  function Lookup(ms: Mappings, proto: byte, localPort: port, remotePort: port, replySrc: IPv4): Option<NatMapping> {
    var exact := NatKey(proto, localPort, remotePort, replySrc);
    var wildcard := exact.(replySrc := ANY_IP);
    if exact in ms then Some(ms[exact]) else if wildcard in ms then Some(ms[wildcard]) else None
  }

  /** What one cleanup tick leaves. */
  function Unexpired(ms: Mappings, cutoff: int): Mappings {
    map k | k in ms && ms[k].updatedAt >= cutoff :: ms[k]
  }

  /** A key repeats the fields of its mapping, and every remote address is in the network. */
  ghost predicate WellKeyed(ms: Mappings, net: Cidr) {
    forall k :: k in ms ==>
      && k == KeyFor(ms[k], k.replySrc)
      && (k.replySrc == ANY_IP || k.replySrc == ms[k].remoteIP)
      && InNet(ms[k].remoteIP, net)
  }

  class NatTable {
    const ttl: int
    var mappings: Mappings

    constructor (ttl: int)
      ensures mappings == map[] && this.ttl == if ttl <= 0 then 600_000 else ttl
    {
      this.ttl := if ttl <= 0 then DEFAULT_TTL else ttl;
      mappings := map[];
    }

    method Put(m: NatMapping, replySrc: IPv4)
      modifies this
      ensures mappings == old(mappings)[KeyFor(m, replySrc) := m]
    {
      mappings := mappings[NatKey(m.proto, m.localPort, m.remotePort, replySrc) := m];
    }

    method PutWildcard(m: NatMapping)
      modifies this
      ensures mappings == old(mappings)[KeyFor(m, ANY_IP) := m]
    {
      Put(m, ANY_IP);
    }

    method Get(proto: byte, localPort: port, remotePort: port, replySrc: IPv4) returns (r: Option<NatMapping>)
      ensures r == Lookup(mappings, proto, localPort, remotePort, replySrc)
    {
      var k := NatKey(proto, localPort, remotePort, replySrc);
      if k in mappings { return Some(mappings[k]); }
      k := NatKey(proto, localPort, remotePort, ANY_IP);
      r := if k in mappings then Some(mappings[k]) else None;
    }

    /** One tick of the cleanup loop; the keys are visited in an arbitrary order. */
    method CleanupTick(now: int)
      modifies this
      ensures mappings == Unexpired(old(mappings), now - ttl)
    {
      var cutoff := now - ttl;
      var left := mappings.Keys;
      while left != {}
        invariant left <= mappings.Keys <= old(mappings).Keys
        invariant forall k :: k in mappings ==> mappings[k] == old(mappings)[k]
        invariant forall k :: k in old(mappings) && k !in left ==>
          (k in mappings <==> old(mappings)[k].updatedAt >= cutoff)
      {
        var k :| k in left;
        left := left - {k};
        if mappings[k].updatedAt < cutoff {
          mappings := mappings - {k};
        }
      }
    }
  }
}
