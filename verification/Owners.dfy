/** The socket-owner resolver of the Route Guard. */
module Owners {
  import opened Common
  import opened Packet

  datatype TcpKey = TcpKey(localIP: IPv4, localPort: port, remoteIP: IPv4, remotePort: port)
  datatype UdpKey = UdpKey(localIP: IPv4, localPort: port)

  type TcpOwners = map<TcpKey, Pid>
  type UdpOwners = map<UdpKey, seq<Pid>>
  type PortIndex = map<port, seq<Pid>>

  datatype Tables = Tables(tcp: TcpOwners, tcpByPort: PortIndex, udp: UdpOwners, udpByPort: PortIndex)

  ghost predicate NoDuplicates(pids: seq<Pid>) {
    forall i, j :: 0 <= i < j < |pids| ==> pids[i] != pids[j]
  }

  function Listed(index: PortIndex, p: port): seq<Pid> {
    if p in index then index[p] else []
  }

  /** `pid` owns a socket on local port `p` among the table entries `keys`. */
  ghost predicate TcpOwns(owners: TcpOwners, keys: set<TcpKey>, p: port, pid: Pid) {
    pid != 0 && exists k :: k in keys && k in owners && k.localPort == p && owners[k] == pid
  }

  ghost predicate UdpOwns(owners: UdpOwners, keys: set<UdpKey>, p: port, pid: Pid) {
    pid != 0 && exists k :: k in keys && k in owners && k.localPort == p && pid in owners[k]
  }

  /** The index lists, without repetition, exactly the non-zero owners of each port. */
  ghost predicate IndexesTcp(index: PortIndex, owners: TcpOwners, keys: set<TcpKey>) {
    && (forall p: port :: NoDuplicates(Listed(index, p)))
    && (forall p: port, pid: Pid :: pid in Listed(index, p) <==> TcpOwns(owners, keys, p, pid))
  }

  ghost predicate IndexesUdp(index: PortIndex, owners: UdpOwners, keys: set<UdpKey>) {
    && (forall p: port :: NoDuplicates(Listed(index, p)))
    && (forall p: port, pid: Pid :: pid in Listed(index, p) <==> UdpOwns(owners, keys, p, pid))
  }

  function AppendUnique(items: seq<Pid>, pid: Pid): (r: seq<Pid>)
    ensures NoDuplicates(items) ==> NoDuplicates(r)
    ensures forall x :: x in r <==> x in items || (x == pid && pid != 0)
  {
    if pid == 0 || pid in items then items else items + [pid]
  }

  /** Go leaves the order of a map iteration open, and so does this loop. */
  method BuildTcpPortIndex(owners: TcpOwners) returns (index: PortIndex)
    ensures IndexesTcp(index, owners, owners.Keys)
  {
    index := map[];
    var left := owners.Keys;
    ghost var done: set<TcpKey> := {};
    while left != {}
      invariant done + left == owners.Keys
      invariant IndexesTcp(index, owners, done)
    {
      var k :| k in left;
      ghost var before := index;
      index := index[k.localPort := AppendUnique(Listed(index, k.localPort), owners[k])];
      forall p: port
        ensures NoDuplicates(Listed(index, p))
      {
        assert NoDuplicates(Listed(before, p));
      }
      forall p: port, pid: Pid
        ensures pid in Listed(index, p) <==> TcpOwns(owners, done + {k}, p, pid)
      {
        assert pid in Listed(before, p) <==> TcpOwns(owners, done, p, pid);
        assert TcpOwns(owners, done + {k}, p, pid) <==>
          TcpOwns(owners, done, p, pid) || (p == k.localPort && pid == owners[k] && pid != 0);
      }
      left, done := left - {k}, done + {k};
    }
    assert done == owners.Keys;
  }

  /** For `p`, `index` is `before` with the non-zero ones of `pids` added on port `q`. */
  ghost predicate ExtendsAt(index: PortIndex, before: PortIndex, q: port, pids: seq<Pid>, p: port) {
    forall pid :: pid in Listed(index, p) <==> pid in Listed(before, p) || (p == q && pid != 0 && pid in pids)
  }

  ghost predicate Extends(index: PortIndex, before: PortIndex, q: port, pids: seq<Pid>) {
    forall p :: ExtendsAt(index, before, q, pids, p)
  }

  lemma ExtendsOneMore(index: PortIndex, before: PortIndex, q: port, pids: seq<Pid>, x: Pid)
    requires Extends(index, before, q, pids)
    ensures Extends(index[q := AppendUnique(Listed(index, q), x)], before, q, pids + [x])
  {
    var next := index[q := AppendUnique(Listed(index, q), x)];
    forall p: port
      ensures ExtendsAt(next, before, q, pids + [x], p)
    {
      assert ExtendsAt(index, before, q, pids, p);
    }
  }

  lemma UdpOwnsOneMore(owners: UdpOwners, keys: set<UdpKey>, k: UdpKey, p: port, pid: Pid)
    requires k in owners
    ensures UdpOwns(owners, keys + {k}, p, pid) <==>
      UdpOwns(owners, keys, p, pid) || (p == k.localPort && pid in owners[k] && pid != 0)
  {
    if p == k.localPort && pid in owners[k] && pid != 0 {
      assert k in keys + {k} && k in owners && k.localPort == p && pid in owners[k];
    }
  }

  method BuildUdpPortIndex(owners: UdpOwners) returns (index: PortIndex)
    ensures IndexesUdp(index, owners, owners.Keys)
  {
    index := map[];
    var left := owners.Keys;
    ghost var done: set<UdpKey> := {};
    while left != {}
      invariant done + left == owners.Keys
      invariant IndexesUdp(index, owners, done)
    {
      var k :| k in left;
      ghost var before := index;
      for i := 0 to |owners[k]|
        invariant forall p: port :: NoDuplicates(Listed(index, p))
        invariant Extends(index, before, k.localPort, owners[k][..i])
      {
        ghost var previous := index;
        index := index[k.localPort := AppendUnique(Listed(index, k.localPort), owners[k][i])];
        forall p: port
          ensures NoDuplicates(Listed(index, p))
        {
          assert NoDuplicates(Listed(previous, p));
        }
        assert owners[k][..i + 1] == owners[k][..i] + [owners[k][i]];
        ExtendsOneMore(previous, before, k.localPort, owners[k][..i], owners[k][i]);
      }
      assert owners[k][..|owners[k]|] == owners[k];
      assert Extends(index, before, k.localPort, owners[k]);
      forall p: port, pid: Pid
        ensures pid in Listed(index, p) <==> UdpOwns(owners, done + {k}, p, pid)
      {
        assert ExtendsAt(index, before, k.localPort, owners[k], p);
        assert pid in Listed(before, p) <==> UdpOwns(owners, done, p, pid);
        UdpOwnsOneMore(owners, done, k, p, pid);
      }
      left, done := left - {k}, done + {k};
    }
    assert done == owners.Keys;
  }

  // ---- choosing an owner ----

  function FirstTarget(pids: seq<Pid>, targets: set<Pid>): Option<Pid> {
    if pids == [] then None
    else if pids[0] in targets then Some(pids[0])
    else FirstTarget(pids[1..], targets)
  }

  /** A target if there is one, otherwise the first owner unless that is PID 0. */
  function Preferred(pids: seq<Pid>, targets: set<Pid>): Option<Pid> {
    if FirstTarget(pids, targets).Some? then FirstTarget(pids, targets)
    else if |pids| > 0 && pids[0] != 0 then Some(pids[0])
    else None
  }

  lemma {:induction false} FirstTargetIsTarget(pids: seq<Pid>, targets: set<Pid>)
    ensures FirstTarget(pids, targets).Some? <==> exists pid: Pid :: pid in pids && pid in targets
    ensures FirstTarget(pids, targets).Some? ==>
      FirstTarget(pids, targets).value in pids && FirstTarget(pids, targets).value in targets
  {
    if pids != [] {
      FirstTargetIsTarget(pids[1..], targets);
      assert pids == [pids[0]] + pids[1..];
    }
  }

  /** The answer is one of the owners, and it is a target whenever some owner is. */
  lemma PreferredIsTarget(pids: seq<Pid>, targets: set<Pid>)
    ensures Preferred(pids, targets).Some? ==> Preferred(pids, targets).value in pids
    ensures IsTarget(Preferred(pids, targets), targets) <==> exists pid: Pid :: pid in pids && pid in targets
  {
    FirstTargetIsTarget(pids, targets);
  }

  function PreferredAt(index: PortIndex, p: port, targets: set<Pid>): Option<Pid> {
    Preferred(Listed(index, p), targets)
  }

  /** The owner of the local end (`local`, `lport`) talking to (`remote`, `rport`). */
  function OwnerOf(t: Tables, targets: set<Pid>, proto: byte, local: IPv4, lport: port, remote: IPv4,
                   rport: port): Option<Pid> {
    if proto == PROTO_TCP then
      var k := TcpKey(local, lport, remote, rport);
      if k in t.tcp then Some(t.tcp[k]) else PreferredAt(t.tcpByPort, lport, targets)
    else if proto == PROTO_UDP then
      if UdpKey(local, lport) in t.udp then Preferred(t.udp[UdpKey(local, lport)], targets)
      else if UdpKey(ANY_IP, lport) in t.udp then Preferred(t.udp[UdpKey(ANY_IP, lport)], targets)
      else PreferredAt(t.udpByPort, lport, targets)
    else None
  }

  function OwnerOutbound(t: Tables, targets: set<Pid>, h: Header): Option<Pid> {
    OwnerOf(t, targets, h.proto, h.src, h.srcPort, h.dst, h.dstPort)
  }

  function OwnerInbound(t: Tables, targets: set<Pid>, h: Header): Option<Pid> {
    OwnerOf(t, targets, h.proto, h.dst, h.dstPort, h.src, h.srcPort)
  }

  predicate IsTarget(owner: Option<Pid>, targets: set<Pid>) {
    owner.Some? && owner.value in targets
  }

  ghost predicate Indexed(t: Tables) {
    IndexesTcp(t.tcpByPort, t.tcp, t.tcp.Keys) && IndexesUdp(t.udpByPort, t.udp, t.udp.Keys)
  }

  /** With both indices built from the same socket tables, in whatever order, the guard takes
      the same packets for the game's. */
  lemma TargetDecisionIgnoresMapOrder(t: Tables, t': Tables, targets: set<Pid>,
                                      proto: byte, local: IPv4, lport: port, remote: IPv4, rport: port)
    requires Indexed(t) && Indexed(t') && t.tcp == t'.tcp && t.udp == t'.udp
    ensures IsTarget(OwnerOf(t, targets, proto, local, lport, remote, rport), targets)
        <==> IsTarget(OwnerOf(t', targets, proto, local, lport, remote, rport), targets)
  {
    PreferredIsTarget(Listed(t.tcpByPort, lport), targets);
    PreferredIsTarget(Listed(t'.tcpByPort, lport), targets);
    PreferredIsTarget(Listed(t.udpByPort, lport), targets);
    PreferredIsTarget(Listed(t'.udpByPort, lport), targets);
    forall pid: Pid
      ensures pid in Listed(t.tcpByPort, lport) <==> pid in Listed(t'.tcpByPort, lport)
      ensures pid in Listed(t.udpByPort, lport) <==> pid in Listed(t'.udpByPort, lport)
    {
      assert TcpOwns(t.tcp, t.tcp.Keys, lport, pid) <==> TcpOwns(t'.tcp, t'.tcp.Keys, lport, pid);
      assert UdpOwns(t.udp, t.udp.Keys, lport, pid) <==> UdpOwns(t'.udp, t'.udp.Keys, lport, pid);
    }
  }

  /** The port fallback attributes a TCP packet to the game exactly when some socket on that
      local port belongs to it, and never to a process that owns no such socket. */
  lemma TcpFallbackMeansOwnership(t: Tables, targets: set<Pid>, local: IPv4, lport: port, remote: IPv4, rport: port)
    requires Indexed(t) && 0 !in targets && TcpKey(local, lport, remote, rport) !in t.tcp
    ensures var owner := OwnerOf(t, targets, PROTO_TCP, local, lport, remote, rport);
      && (IsTarget(owner, targets) <==> exists pid: Pid :: pid in targets && TcpOwns(t.tcp, t.tcp.Keys, lport, pid))
      && (owner.Some? ==> TcpOwns(t.tcp, t.tcp.Keys, lport, owner.value))
      && (owner.None? <==> forall pid: Pid :: !TcpOwns(t.tcp, t.tcp.Keys, lport, pid))
  {
    var pids := Listed(t.tcpByPort, lport);
    PreferredIsTarget(pids, targets);
    if |pids| > 0 {
      assert pids[0] in pids;
      assert TcpOwns(t.tcp, t.tcp.Keys, lport, pids[0]);
    }
  }

  /** The same for UDP, once neither the exact nor the wildcard address has an entry. */
  lemma UdpFallbackMeansOwnership(t: Tables, targets: set<Pid>, local: IPv4, lport: port, remote: IPv4, rport: port)
    requires Indexed(t) && 0 !in targets
    requires UdpKey(local, lport) !in t.udp && UdpKey(ANY_IP, lport) !in t.udp
    ensures var owner := OwnerOf(t, targets, PROTO_UDP, local, lport, remote, rport);
      && (IsTarget(owner, targets) <==> exists pid: Pid :: pid in targets && UdpOwns(t.udp, t.udp.Keys, lport, pid))
      && (owner.Some? ==> UdpOwns(t.udp, t.udp.Keys, lport, owner.value))
      && (owner.None? <==> forall pid: Pid :: !UdpOwns(t.udp, t.udp.Keys, lport, pid))
  {
    var pids := Listed(t.udpByPort, lport);
    PreferredIsTarget(pids, targets);
    if |pids| > 0 {
      assert pids[0] in pids;
      assert UdpOwns(t.udp, t.udp.Keys, lport, pids[0]);
    }
  }

  ghost predicate HasTarget(pids: seq<Pid>, targets: set<Pid>) {
    exists pid: Pid :: pid in pids && pid in targets
  }

  /** No entry gives the local end (`local`, `lport`) to processes other than the targets. */
  ghost predicate Unclaimed(t: Tables, targets: set<Pid>, proto: byte, local: IPv4, lport: port, remote: IPv4,
                            rport: port) {
    if proto == PROTO_TCP then
      var k := TcpKey(local, lport, remote, rport);
      k in t.tcp ==> t.tcp[k] in targets
    else if UdpKey(local, lport) in t.udp then
      HasTarget(t.udp[UdpKey(local, lport)], targets)
    else
      UdpKey(ANY_IP, lport) in t.udp ==> HasTarget(t.udp[UdpKey(ANY_IP, lport)], targets)
  }

  /** A target that owns the flow at one local address owns a socket on its port. */
  lemma TargetIsListed(t: Tables, targets: set<Pid>, proto: byte, local: IPv4, lport: port, remote: IPv4, rport: port)
    requires Indexed(t) && 0 !in targets
    requires IsTarget(OwnerOf(t, targets, proto, local, lport, remote, rport), targets)
    ensures proto in {PROTO_TCP, PROTO_UDP}
    ensures HasTarget(Listed(if proto == PROTO_TCP then t.tcpByPort else t.udpByPort, lport), targets)
  {
    var pid := OwnerOf(t, targets, proto, local, lport, remote, rport).value;
    if proto == PROTO_TCP {
      var k := TcpKey(local, lport, remote, rport);
      if k in t.tcp {
        assert TcpOwns(t.tcp, t.tcp.Keys, lport, pid);
      } else {
        PreferredIsTarget(Listed(t.tcpByPort, lport), targets);
      }
      assert pid in Listed(t.tcpByPort, lport);
    } else {
      var k := if UdpKey(local, lport) in t.udp then UdpKey(local, lport) else UdpKey(ANY_IP, lport);
      if k in t.udp {
        PreferredIsTarget(t.udp[k], targets);
        assert UdpOwns(t.udp, t.udp.Keys, lport, pid);
      } else {
        PreferredIsTarget(Listed(t.udpByPort, lport), targets);
      }
      assert pid in Listed(t.udpByPort, lport);
    }
  }

  /** A flow that belongs to a target at one local address belongs to a target at another exactly
      when nobody else holds that other end. */
  lemma OwnedAtOtherAddressIff(t: Tables, targets: set<Pid>, proto: byte, local: IPv4, other: IPv4, lport: port,
                               remote: IPv4, rport: port)
    requires Indexed(t) && 0 !in targets
    requires IsTarget(OwnerOf(t, targets, proto, local, lport, remote, rport), targets)
    ensures IsTarget(OwnerOf(t, targets, proto, other, lport, remote, rport), targets)
       <==> Unclaimed(t, targets, proto, other, lport, remote, rport)
  {
    TargetIsListed(t, targets, proto, local, lport, remote, rport);
    PreferredIsTarget(Listed(t.tcpByPort, lport), targets);
    PreferredIsTarget(Listed(t.udpByPort, lport), targets);
    if UdpKey(other, lport) in t.udp { PreferredIsTarget(t.udp[UdpKey(other, lport)], targets); }
    if UdpKey(ANY_IP, lport) in t.udp { PreferredIsTarget(t.udp[UdpKey(ANY_IP, lport)], targets); }
  }

  class OwnerResolver {
    var targets: set<Pid>
    var tables: Tables
    /** A background refresh has been asked for and has not run yet. */
    var refreshRequested: bool

    ghost predicate Valid() reads this { Indexed(tables) }

    constructor ()
      ensures Valid() && targets == {} && tables == Tables(map[], map[], map[], map[]) && !refreshRequested
    {
      targets, tables, refreshRequested := {}, Tables(map[], map[], map[], map[]), false;
    }

    /** The session's PIDs replace the targets; a socket table that could not be read is kept. */
    method Refresh(pids: set<Pid>, tcp: Option<TcpOwners>, udp: Option<UdpOwners>)
      requires Valid()
      modifies this
      ensures Valid() && targets == pids && !refreshRequested
      ensures tables.tcp == if tcp.Some? then tcp.value else old(tables.tcp)
      ensures tables.udp == if udp.Some? then udp.value else old(tables.udp)
    {
      targets, refreshRequested := pids, false;
      if tcp.Some? {
        var index := BuildTcpPortIndex(tcp.value);
        tables := tables.(tcp := tcp.value, tcpByPort := index);
      }
      if udp.Some? {
        var index := BuildUdpPortIndex(udp.value);
        tables := tables.(udp := udp.value, udpByPort := index);
      }
    }

    method PreferredPid(pids: seq<Pid>) returns (r: Option<Pid>)
      ensures r == Preferred(pids, targets)
    {
      for i := 0 to |pids|
        invariant FirstTarget(pids, targets) == FirstTarget(pids[i..], targets)
      {
        if pids[i] in targets { return Some(pids[i]); }
      }
      r := if |pids| > 0 && pids[0] != 0 then Some(pids[0]) else None;
    }

    method Owner(proto: byte, local: IPv4, lport: port, remote: IPv4, rport: port) returns (r: Option<Pid>)
      ensures r == OwnerOf(tables, targets, proto, local, lport, remote, rport)
    {
      if proto == PROTO_TCP {
        var k := TcpKey(local, lport, remote, rport);
        if k in tables.tcp { return Some(tables.tcp[k]); }
        if lport in tables.tcpByPort {
          r := PreferredPid(tables.tcpByPort[lport]);
          return;
        }
      }
      if proto == PROTO_UDP {
        if UdpKey(local, lport) in tables.udp {
          r := PreferredPid(tables.udp[UdpKey(local, lport)]);
          return;
        }
        if UdpKey(ANY_IP, lport) in tables.udp {
          r := PreferredPid(tables.udp[UdpKey(ANY_IP, lport)]);
          return;
        }
        if lport in tables.udpByPort {
          r := PreferredPid(tables.udpByPort[lport]);
          return;
        }
      }
      r := None;
    }

    /** ResolveOutbound and ResolveInbound: an unknown owner asks for a refresh while a game runs. */
    method Resolve(h: Header, outbound: bool) returns (r: Option<Pid>)
      modifies this`refreshRequested
      ensures r == if outbound then OwnerOutbound(tables, targets, h) else OwnerInbound(tables, targets, h)
      ensures refreshRequested == (old(refreshRequested) || (r.None? && targets != {}))
    {
      if outbound {
        r := Owner(h.proto, h.src, h.srcPort, h.dst, h.dstPort);
      } else {
        r := Owner(h.proto, h.dst, h.dstPort, h.src, h.srcPort);
      }
      if r.None? && targets != {} { refreshRequested := true; }
    }
  }
}
