/** Properties of the Route Guard over every trace of packets and cleanup ticks.
    Between events the socket tables and the authorised PIDs may change in any way. */
module RouteGuardTraces {
  import opened Common
  import opened Packet
  import opened NatTables
  import opened Owners
  import opened RouteGuard

  datatype Event =
    | Captured(bytes: seq<byte>, addr: Address, now: int, known: Known)
    | Tick(now: int)

  function Next(cfg: Config, ttl: int, ms: Mappings, e: Event): Mappings {
    match e
    case Captured(p, addr, now, known) => NatAfter(cfg, ms, known, p, addr, now)
    case Tick(now) => Unexpired(ms, now - ttl)
  }

  /** The NAT table after all of `es`. */
  function Run(cfg: Config, ttl: int, ms: Mappings, es: seq<Event>): Mappings
    decreases |es|
  {
    if es == [] then ms else Next(cfg, ttl, Run(cfg, ttl, ms, es[..|es| - 1]), es[|es| - 1])
  }

  datatype Delivery = Delivery(bytes: seq<byte>, addr: Address)

  /** What can leave the guard for a verdict, checksums being anything at all. */
  ghost predicate Delivers(v: Verdict, out: Option<Delivery>) {
    match v
    case Drop => out == None
    case Send(bytes, addr, changed) =>
      && out.Some? && out.value.addr == addr
      && if changed then EqualButChecksums(bytes, out.value.bytes) else out.value.bytes == bytes
  }

  predicate OnPinnedInterface(cfg: Config, addr: Address) {
    cfg.ifIndex > 0 ==> addr.ifIndex == cfg.ifIndex
  }

  /** `a` and `b` are the same packet except at octets lo..hi and at checksums. */
  ghost predicate SameOutside(a: seq<byte>, b: seq<byte>, h: Header, lo: nat, hi: nat) {
    |a| == |b| && forall i :: 0 <= i < |a| && !(lo <= i < hi) && !ChecksumByte(h, i) ==> a[i] == b[i]
  }

  /** Strict isolation of one captured packet. */
  ghost predicate Isolated(cfg: Config, e: Event, out: Option<Delivery>)
    requires e.Captured?
  {
    match Parse(e.bytes)
    case None => out == Some(Delivery(e.bytes, e.addr))
    case Some(h) =>
      if !ForGame(e.known, h, e.addr) then out == Some(Delivery(e.bytes, e.addr))
      else if e.addr.outbound then
        && (out.Some? <==> InNet(h.dst, cfg.net))
        && (out.Some? ==>
              && Parse(out.value.bytes) == Some(h.(src := cfg.clientIP))
              && SameOutside(e.bytes, out.value.bytes, h, 12, 16)
              && (h.src == cfg.clientIP ==> out.value.bytes == e.bytes)
              && out.value.addr == if cfg.ifIndex > 0 then Address(true, cfg.ifIndex, 0) else e.addr)
      else
        && (out.Some? <==> InNet(h.src, cfg.net) && OnPinnedInterface(cfg, e.addr))
        && (out.Some? ==>
              && out.value.addr == e.addr
              && Parse(out.value.bytes).Some?
              && InNet(Parse(out.value.bytes).value.src, cfg.net)
              && (var g := Parse(out.value.bytes).value; g == h.(src := g.src, dst := g.dst))
              && SameOutside(e.bytes, out.value.bytes, h, 12, 20))
  }

  /** No packet leaves with changed bytes and old checksums, and only packets of the game, written
      anew or put back, get new ones. */
  lemma ChangesGetChecksums(cfg: Config, ms: Mappings, k: Known, p: seq<byte>, addr: Address)
    requires Decide(cfg, ms, k, p, addr).Send?
    ensures var v := Decide(cfg, ms, k, p, addr);
      && (v.bytes != p ==> v.changed)
      && (v.changed ==> Parse(p).Some? && Edits(cfg, ms, k, Parse(p).value, addr))
  {
  }

  /** The packet belongs to the game, and is sent from another address or is a reply with a mapping. */
  predicate Edits(cfg: Config, ms: Mappings, k: Known, h: Header, addr: Address) {
    && ForGame(k, h, addr)
    && if addr.outbound then h.src != cfg.clientIP else Lookup(ms, h.proto, h.dstPort, h.srcPort, h.src).Some?
  }

  lemma {:induction false} TableStaysWellKeyed(cfg: Config, ttl: int, ms: Mappings, es: seq<Event>)
    requires WellKeyed(ms, cfg.net)
    ensures WellKeyed(Run(cfg, ttl, ms, es), cfg.net)
    decreases |es|
  {
    if es != [] {
      TableStaysWellKeyed(cfg, ttl, ms, es[..|es| - 1]);
    }
  }

  /** In a well-keyed table the restoring port writes change nothing. */
  lemma RestoringTouchesAddressesOnly(ms: Mappings, net: Cidr, p: seq<byte>, h: Header, m: NatMapping)
    requires WellKeyed(ms, net) && Parse(p) == Some(h)
    requires Lookup(ms, h.proto, h.dstPort, h.srcPort, h.src) == Some(m)
    ensures Restored(p, h.ihl, m) == PutIP(PutIP(p, 12, m.remoteIP), 16, m.localIP)
    ensures Parse(Restored(p, h.ihl, m)) == Some(h.(src := m.remoteIP, dst := m.localIP))
  {
    var q := PutIP(p, 12, m.remoteIP);
    EditedHeader(p, m.remoteIP, 0);
    var q' := PutIP(q, 16, m.localIP);
    EditedHeader(q, m.localIP, 0);
    assert m.remotePort == GetPort(q', h.ihl) && m.localPort == GetPort(q', h.ihl + 2);
    RewriteIsNoOp(q', h.ihl);
    RewriteIsNoOp(q', h.ihl + 2);
  }

  /** Bytes that were edited in lo..hi and then had their checksums rewritten. */
  lemma EditedThenChecksummed(p: seq<byte>, q: seq<byte>, out: seq<byte>, h: Header, lo: nat, hi: nat)
    requires Parse(p) == Some(h) && |q| == |p|
    requires Parse(q).Some? && Parse(q).value.ihl == h.ihl && Parse(q).value.proto == h.proto
    requires forall i :: 0 <= i < |p| && !(lo <= i < hi) ==> q[i] == p[i]
    requires EqualButChecksums(q, out)
    ensures Parse(out) == Parse(q) && SameOutside(p, out, h, lo, hi)
  {
    ChecksumsDoNotParse(q, out);
    forall i | 0 <= i < |p| && !(lo <= i < hi) && !ChecksumByte(h, i)
      ensures p[i] == out[i]
    {
      assert !ChecksumByte(Parse(q).value, i);
    }
  }

  lemma OutboundIsIsolated(cfg: Config, e: Event, h: Header, out: Option<Delivery>)
    requires e.Captured? && Parse(e.bytes) == Some(h) && e.addr.outbound && ForGame(e.known, h, e.addr)
    requires Delivers(OutboundVerdict(cfg, h, e.bytes, e.addr), out)
    ensures Isolated(cfg, e, out)
  {
    if NeedsRewrite(cfg, h) {
      EditedHeader(e.bytes, cfg.clientIP, 0);
      EditedThenChecksummed(e.bytes, PutIP(e.bytes, 12, cfg.clientIP), out.value.bytes, h, 12, 16);
    }
  }

  lemma InboundIsIsolated(cfg: Config, ms: Mappings, e: Event, h: Header, out: Option<Delivery>)
    requires e.Captured? && Parse(e.bytes) == Some(h) && !e.addr.outbound && ForGame(e.known, h, e.addr)
    requires WellKeyed(ms, cfg.net)
    requires Delivers(InboundVerdict(cfg, ms, h, e.bytes, e.addr), out)
    ensures Isolated(cfg, e, out)
  {
    var found := Lookup(ms, h.proto, h.dstPort, h.srcPort, h.src);
    if InboundVerdict(cfg, ms, h, e.bytes, e.addr).Send? && found.Some? {
      RestoringTouchesAddressesOnly(ms, cfg.net, e.bytes, h, found.value);
      EditedThenChecksummed(e.bytes, Restored(e.bytes, h.ihl, found.value), out.value.bytes, h, 12, 20);
    }
  }

  lemma EventIsIsolated(cfg: Config, ms: Mappings, e: Event, out: Option<Delivery>)
    requires e.Captured? && WellKeyed(ms, cfg.net)
    requires Delivers(Decide(cfg, ms, e.known, e.bytes, e.addr), out)
    ensures Isolated(cfg, e, out)
  {
    match Parse(e.bytes)
    case None =>
    case Some(h) =>
      if ForGame(e.known, h, e.addr) {
        if e.addr.outbound {
          OutboundIsIsolated(cfg, e, h, out);
        } else {
          InboundIsIsolated(cfg, ms, e, h, out);
        }
      }
  }

  /** Strict isolation over every trace that starts with an empty table. */
  lemma TracesAreIsolated(cfg: Config, ttl: int, es: seq<Event>, k: nat, out: Option<Delivery>)
    requires k < |es| && es[k].Captured?
    requires Delivers(Decide(cfg, Run(cfg, ttl, map[], es[..k]), es[k].known, es[k].bytes, es[k].addr), out)
    ensures Isolated(cfg, es[k], out)
  {
    TableStaysWellKeyed(cfg, ttl, map[], es[..k]);
    EventIsIsolated(cfg, Run(cfg, ttl, map[], es[..k]), es[k], out);
  }

  // ---- the NAT round trip ----

  /** Event `e` writes the mapping of `k`. */
  predicate Writes(cfg: Config, e: Event, k: NatKey) {
    && e.Captured? && Parse(e.bytes).Some?
    && e.addr.outbound && ForGame(e.known, Parse(e.bytes).value, e.addr)
    && NeedsRewrite(cfg, Parse(e.bytes).value)
    && RewriteKey(cfg, Parse(e.bytes).value) == k
  }

  predicate Expires(ttl: int, e: Event, updatedAt: int) {
    e.Tick? && updatedAt < e.now - ttl
  }

  /** Nothing in `es` overwrites the mapping of `k` or outlasts it. */
  ghost predicate Undisturbed(cfg: Config, ttl: int, es: seq<Event>, k: NatKey, updatedAt: int) {
    forall i :: 0 <= i < |es| ==> !Writes(cfg, es[i], k) && !Expires(ttl, es[i], updatedAt)
  }

  /** A mapping nobody rewrites is kept exactly until the first tick more than `ttl` after it. */
  lemma {:induction false} MappingLivesUntilTick(cfg: Config, ttl: int, ms: Mappings, es: seq<Event>, k: NatKey)
    requires k in ms && forall i :: 0 <= i < |es| ==> !Writes(cfg, es[i], k)
    ensures k in Run(cfg, ttl, ms, es) <==> forall i :: 0 <= i < |es| ==> !Expires(ttl, es[i], ms[k].updatedAt)
    ensures k in Run(cfg, ttl, ms, es) ==> Run(cfg, ttl, ms, es)[k] == ms[k]
    decreases |es|
  {
    if es != [] {
      var shorter := es[..|es| - 1];
      MappingLivesUntilTick(cfg, ttl, ms, shorter, k);
      var last := es[|es| - 1];
      assert !Writes(cfg, last, k);
      MissingStaysMissing(cfg, ttl, Run(cfg, ttl, ms, shorter), last, k);
      assert forall i :: 0 <= i < |shorter| ==> shorter[i] == es[i];
    }
  }

  lemma MissingStaysMissing(cfg: Config, ttl: int, ms: Mappings, e: Event, k: NatKey)
    requires !Writes(cfg, e, k)
    ensures k in Next(cfg, ttl, ms, e) <==> k in ms && !Expires(ttl, e, ms[k].updatedAt)
    ensures k in Next(cfg, ttl, ms, e) ==> Next(cfg, ttl, ms, e)[k] == ms[k]
  {
  }

  /** Event `i` is the last one that wrote the mapping of `k`. */
  ghost predicate LastWrite(cfg: Config, es: seq<Event>, k: NatKey, i: nat) {
    i < |es| && Writes(cfg, es[i], k) && forall j :: i < j < |es| ==> !Writes(cfg, es[j], k)
  }

  /** No tick after event `i` finds its mapping too old. */
  ghost predicate Lasts(ttl: int, es: seq<Event>, i: nat)
    requires i < |es| && es[i].Captured?
  {
    forall j :: i < j < |es| ==> !Expires(ttl, es[j], es[i].now)
  }

  /** The mapping that event `i` left. */
  ghost predicate LeftBy(cfg: Config, ttl: int, es: seq<Event>, k: NatKey, i: nat) {
    LastWrite(cfg, es, k, i) && Lasts(ttl, es, i)
  }

  lemma LeftByPrefix(cfg: Config, ttl: int, es: seq<Event>, k: NatKey, i: nat)
    requires es != [] && i < |es| - 1
    ensures LeftBy(cfg, ttl, es, k, i) <==>
      LeftBy(cfg, ttl, es[..|es| - 1], k, i) && !Writes(cfg, es[|es| - 1], k)
      && !Expires(ttl, es[|es| - 1], if es[i].Captured? then es[i].now else 0)
  {
    var shorter := es[..|es| - 1];
    assert forall j :: 0 <= j < |shorter| ==> shorter[j] == es[j];
  }

  /** `k` is mapped in `ms` exactly when the last event that wrote it still lasts, and by that event. */
  ghost predicate MapsLastWrite(cfg: Config, ttl: int, es: seq<Event>, k: NatKey, ms: Mappings) {
    && (k in ms <==> exists i: nat :: LeftBy(cfg, ttl, es, k, i))
    && (forall i: nat :: LeftBy(cfg, ttl, es, k, i) ==>
          k in ms && ms[k] == MappingOf(Parse(es[i].bytes).value, es[i].now))
  }

  lemma WriteMaps(cfg: Config, ttl: int, es: seq<Event>, k: NatKey, ms: Mappings)
    requires es != [] && Writes(cfg, es[|es| - 1], k)
    ensures MapsLastWrite(cfg, ttl, es, k, Next(cfg, ttl, ms, es[|es| - 1]))
  {
    assert LeftBy(cfg, ttl, es, k, |es| - 1);
    assert forall i: nat :: LeftBy(cfg, ttl, es, k, i) ==> i == |es| - 1;
  }

  lemma OtherEventKeepsMap(cfg: Config, ttl: int, es: seq<Event>, k: NatKey, ms: Mappings, next: Mappings)
    requires es != [] && !Writes(cfg, es[|es| - 1], k) && MapsLastWrite(cfg, ttl, es[..|es| - 1], k, ms)
    requires k in next <==> k in ms && !Expires(ttl, es[|es| - 1], ms[k].updatedAt)
    requires k in next ==> next[k] == ms[k]
    ensures MapsLastWrite(cfg, ttl, es, k, next)
  {
    var shorter, last := es[..|es| - 1], es[|es| - 1];
    forall i: nat | i < |shorter|
      ensures LeftBy(cfg, ttl, es, k, i) <==>
        LeftBy(cfg, ttl, shorter, k, i) && !Expires(ttl, last, if es[i].Captured? then es[i].now else 0)
    {
      LeftByPrefix(cfg, ttl, es, k, i);
    }
    if k in next {
      var i: nat :| LeftBy(cfg, ttl, shorter, k, i);
      assert LeftBy(cfg, ttl, es, k, i);
    }
  }

  /** Over every trace from an empty table, a key has a mapping exactly when the last event that
      wrote it still lasts, and it is that event's. */
  lemma {:induction false} MappingIsLastWrite(cfg: Config, ttl: int, es: seq<Event>, k: NatKey)
    ensures MapsLastWrite(cfg, ttl, es, k, Run(cfg, ttl, map[], es))
    decreases |es|
  {
    if es != [] {
      var ms, last := Run(cfg, ttl, map[], es[..|es| - 1]), es[|es| - 1];
      MappingIsLastWrite(cfg, ttl, es[..|es| - 1], k);
      if Writes(cfg, last, k) {
        WriteMaps(cfg, ttl, es, k, ms);
      } else {
        MissingStaysMissing(cfg, ttl, ms, last, k);
        OtherEventKeepsMap(cfg, ttl, es, k, ms, Next(cfg, ttl, ms, last));
      }
    }
  }

  /** Whatever the flows, a delivered reply that is restored goes to the local address of the last
      event that wrote its mapping, and comes from the remote address of that event. */
  lemma RestoredToLastSender(cfg: Config, ttl: int, es: seq<Event>, reply: Event, g: Header, out: Option<Delivery>)
    returns (i: nat, k: NatKey)
    requires reply.Captured? && Parse(reply.bytes) == Some(g) && !reply.addr.outbound
    requires ForGame(reply.known, g, reply.addr)
    requires Lookup(Run(cfg, ttl, map[], es), g.proto, g.dstPort, g.srcPort, g.src).Some?
    requires Delivers(Decide(cfg, Run(cfg, ttl, map[], es), reply.known, reply.bytes, reply.addr), out) && out.Some?
    ensures k.proto == g.proto && k.localPort == g.dstPort && k.remotePort == g.srcPort && k.replySrc in {g.src, ANY_IP}
    ensures LeftBy(cfg, ttl, es, k, i)
    ensures var h := Parse(es[i].bytes).value;
      Parse(out.value.bytes) == Some(g.(src := h.dst, dst := h.src))
  {
    var ms := Run(cfg, ttl, map[], es);
    k := NatKey(g.proto, g.dstPort, g.srcPort, g.src);
    if k !in ms { k := k.(replySrc := ANY_IP); }
    MappingIsLastWrite(cfg, ttl, es, k);
    i :| LeftBy(cfg, ttl, es, k, i);
    TableStaysWellKeyed(cfg, ttl, map[], es);
    RestoringTouchesAddressesOnly(ms, cfg.net, reply.bytes, g, ms[k]);
    ChecksumsDoNotParse(Restored(reply.bytes, g.ihl, ms[k]), out.value.bytes);
  }

  /** Over every trace, an admitted packet for the game that no lasting event wrote a mapping for,
      neither for its sender nor for all of them, is delivered exactly as it came. */
  lemma UnmappedPassesUntouched(cfg: Config, ttl: int, es: seq<Event>, k: nat, g: Header, out: Option<Delivery>)
    requires k < |es| && es[k].Captured? && Parse(es[k].bytes) == Some(g) && !es[k].addr.outbound
    requires ForGame(es[k].known, g, es[k].addr) && InNet(g.src, cfg.net) && OnPinnedInterface(cfg, es[k].addr)
    requires forall i: nat, from :: from in {g.src, ANY_IP} ==>
      !LeftBy(cfg, ttl, es[..k], NatKey(g.proto, g.dstPort, g.srcPort, from), i)
    requires Delivers(Decide(cfg, Run(cfg, ttl, map[], es[..k]), es[k].known, es[k].bytes, es[k].addr), out)
    ensures out == Some(Delivery(es[k].bytes, es[k].addr))
  {
    MappingIsLastWrite(cfg, ttl, es[..k], NatKey(g.proto, g.dstPort, g.srcPort, g.src));
    MappingIsLastWrite(cfg, ttl, es[..k], NatKey(g.proto, g.dstPort, g.srcPort, ANY_IP));
  }

  /** `reply` answers `h`: endpoints swapped, addressed to the client on the overlay. */
  predicate Answers(cfg: Config, h: Header, g: Header) {
    && g.proto == h.proto && g.src == h.dst && g.dst == cfg.clientIP
    && g.srcPort == h.dstPort && g.dstPort == h.srcPort
  }

  /** The reply to `h` is looked up by the client address, where the game need not be bound.
      While the flow still is the game's, the reply is too exactly when nobody else holds that end. */
  lemma ReplyIsForGameIff(cfg: Config, reply: Event, h: Header, g: Header)
    requires reply.Captured? && !reply.addr.outbound && Answers(cfg, h, g) && StillOwned(reply.known, h)
    ensures ForGame(reply.known, g, reply.addr) <==> ReplyUnclaimed(cfg, reply.known, h)
  {
    var k := reply.known;
    OwnedAtOtherAddressIff(k.tables, k.targets, h.proto, h.src, cfg.clientIP, h.srcPort, h.dst, h.dstPort);
  }

  /** With what the resolver knows now, the flow `h` belongs to the game. */
  ghost predicate StillOwned(k: Known, h: Header) {
    && Indexed(k.tables) && 0 !in k.targets && k.preferred == k.targets
    && IsTarget(OwnerOutbound(k.tables, k.targets, h), k.targets)
  }

  ghost predicate ReplyUnclaimed(cfg: Config, k: Known, h: Header) {
    Unclaimed(k.tables, k.targets, h.proto, cfg.clientIP, h.srcPort, h.dst, h.dstPort)
  }

  /** A rewritten unicast flow and its reply: whatever happens in between, as long as no other
      flow takes the same key, no tick comes more than `ttl` later and the flow still is the
      game's, the reply reaches the game at the address it really used, with every other byte as
      it came.  That is so exactly when no other process holds the client's end of the flow;
      otherwise the reply passes as it came. */
  lemma ReplyIsRestored(cfg: Config, ttl: int, before: Mappings, sent: Event, between: seq<Event>, reply: Event,
                        h: Header, g: Header, ms: Mappings, out: Option<Delivery>)
    requires WellKeyed(before, cfg.net)
    requires sent.Captured? && Parse(sent.bytes) == Some(h) && sent.addr.outbound && ForGame(sent.known, h, sent.addr)
    requires NeedsRewrite(cfg, h) && !IsVirtualBroadcast(cfg, h)
    requires reply.Captured? && Parse(reply.bytes) == Some(g) && !reply.addr.outbound
    requires Answers(cfg, h, g) && OnPinnedInterface(cfg, reply.addr) && StillOwned(reply.known, h)
    requires Undisturbed(cfg, ttl, between, RewriteKey(cfg, h), sent.now)
    requires ms == Run(cfg, ttl, Next(cfg, ttl, before, sent), between)
    requires Delivers(Decide(cfg, ms, reply.known, reply.bytes, reply.addr), out)
    ensures if ReplyUnclaimed(cfg, reply.known, h) then RestoresReply(reply, g, h.src, out)
            else out == Some(Delivery(reply.bytes, reply.addr))
  {
    ReplyIsForGameIff(cfg, reply, h, g);
    MappingOpensAndLives(cfg, ttl, before, sent, between, h, ms);
    if ReplyUnclaimed(cfg, reply.known, h) {
      ReplyVerdict(cfg, ms, reply, h, g, sent.now, out);
    }
  }

  /** `out` is the reply with destination `local` and nothing else changed but checksums. */
  ghost predicate RestoresReply(reply: Event, g: Header, local: IPv4, out: Option<Delivery>)
    requires reply.Captured?
  {
    && out.Some? && out.value.addr == reply.addr
    && Parse(out.value.bytes) == Some(g.(dst := local))
    && SameOutside(reply.bytes, out.value.bytes, g, 16, 20)
  }

  lemma MappingOpensAndLives(cfg: Config, ttl: int, before: Mappings, sent: Event, between: seq<Event>, h: Header,
                             ms: Mappings)
    requires WellKeyed(before, cfg.net)
    requires sent.Captured? && Parse(sent.bytes) == Some(h) && sent.addr.outbound && ForGame(sent.known, h, sent.addr)
    requires NeedsRewrite(cfg, h) && !IsVirtualBroadcast(cfg, h)
    requires Undisturbed(cfg, ttl, between, RewriteKey(cfg, h), sent.now)
    requires ms == Run(cfg, ttl, Next(cfg, ttl, before, sent), between)
    ensures WellKeyed(ms, cfg.net)
    ensures NatKey(h.proto, h.srcPort, h.dstPort, h.dst) in ms
    ensures ms[NatKey(h.proto, h.srcPort, h.dstPort, h.dst)] == MappingOf(h, sent.now)
  {
    var k := RewriteKey(cfg, h);
    var begun := before[k := MappingOf(h, sent.now)];
    assert Next(cfg, ttl, before, sent) == begun;
    MappingLivesUntilTick(cfg, ttl, begun, between, k);
    TableStaysWellKeyed(cfg, ttl, begun, between);
  }

  lemma ReplyVerdict(cfg: Config, ms: Mappings, reply: Event, h: Header, g: Header, now: int, out: Option<Delivery>)
    requires WellKeyed(ms, cfg.net) && InNet(h.dst, cfg.net) && Answers(cfg, h, g)
    requires NatKey(h.proto, h.srcPort, h.dstPort, h.dst) in ms
    requires ms[NatKey(h.proto, h.srcPort, h.dstPort, h.dst)] == MappingOf(h, now)
    requires reply.Captured? && Parse(reply.bytes) == Some(g)
    requires !reply.addr.outbound && ForGame(reply.known, g, reply.addr)
    requires OnPinnedInterface(cfg, reply.addr)
    requires Delivers(Decide(cfg, ms, reply.known, reply.bytes, reply.addr), out)
    ensures RestoresReply(reply, g, h.src, out)
  {
    RestoredReply(cfg, ms, reply.bytes, h, g, now);
    assert InboundVerdict(cfg, ms, g, reply.bytes, reply.addr) == Send(PutIP(reply.bytes, 16, h.src), reply.addr, true);
    EditedThenChecksummed(reply.bytes, PutIP(reply.bytes, 16, h.src), out.value.bytes, g, 16, 20);
  }

  /** With the mapping in place, restoring a reply rewrites its destination address alone. */
  lemma RestoredReply(cfg: Config, ms: Mappings, p: seq<byte>, h: Header, g: Header, now: int)
    requires WellKeyed(ms, cfg.net) && Parse(p) == Some(g) && Answers(cfg, h, g)
    requires NatKey(h.proto, h.srcPort, h.dstPort, h.dst) in ms
    requires ms[NatKey(h.proto, h.srcPort, h.dstPort, h.dst)] == MappingOf(h, now)
    ensures Lookup(ms, g.proto, g.dstPort, g.srcPort, g.src) == Some(MappingOf(h, now))
    ensures Restored(p, g.ihl, MappingOf(h, now)) == PutIP(p, 16, h.src)
    ensures Parse(PutIP(p, 16, h.src)) == Some(g.(dst := h.src))
  {
    RestoringTouchesAddressesOnly(ms, cfg.net, p, g, MappingOf(h, now));
    RewriteIsNoOp(p, 12);
  }

  /** A reply to a rewritten broadcast matches the wildcard mapping, from any overlay host.
      Its source then reads as the broadcast address, not as the host that answered. */
  lemma BroadcastReplyShowsBroadcastSource(cfg: Config, ms: Mappings, reply: Event, h: Header, g: Header, now: int,
                                           out: Option<Delivery>)
    requires WellKeyed(ms, cfg.net) && IsVirtualBroadcast(cfg, h) && NeedsRewrite(cfg, h)
    requires RewriteKey(cfg, h) in ms && ms[RewriteKey(cfg, h)] == MappingOf(h, now)
    requires reply.Captured? && Parse(reply.bytes) == Some(g)
    requires !reply.addr.outbound && ForGame(reply.known, g, reply.addr)
    requires g.proto == h.proto && g.srcPort == h.dstPort && g.dstPort == h.srcPort
    requires InNet(g.src, cfg.net) && OnPinnedInterface(cfg, reply.addr)
    requires NatKey(g.proto, g.dstPort, g.srcPort, g.src) !in ms
    requires Delivers(Decide(cfg, ms, reply.known, reply.bytes, reply.addr), out)
    ensures out.Some? && Parse(out.value.bytes) == Some(g.(src := Broadcast(cfg), dst := h.src))
  {
    var m := MappingOf(h, now);
    RestoringTouchesAddressesOnly(ms, cfg.net, reply.bytes, g, m);
    ChecksumsDoNotParse(Restored(reply.bytes, g.ihl, m), out.value.bytes);
  }

  /** A restored reply shows the host that answered exactly when that host's own mapping is found,
      or the wildcard mapping happens to be that host's. */
  lemma RestoredSourceAnsweredIff(cfg: Config, ms: Mappings, reply: Event, g: Header, out: Option<Delivery>)
    requires WellKeyed(ms, cfg.net)
    requires reply.Captured? && Parse(reply.bytes) == Some(g)
    requires !reply.addr.outbound && ForGame(reply.known, g, reply.addr)
    requires Lookup(ms, g.proto, g.dstPort, g.srcPort, g.src).Some?
    requires Delivers(Decide(cfg, ms, reply.known, reply.bytes, reply.addr), out) && out.Some?
    ensures Parse(out.value.bytes).Some?
    ensures var exact := NatKey(g.proto, g.dstPort, g.srcPort, g.src);
      var wildcard := exact.(replySrc := ANY_IP);
      Parse(out.value.bytes).value.src == g.src <==>
        || (exact in ms && g.src != ANY_IP)
        || (wildcard in ms && ms[wildcard].remoteIP == g.src)
  {
    var m := Lookup(ms, g.proto, g.dstPort, g.srcPort, g.src).value;
    RestoringTouchesAddressesOnly(ms, cfg.net, reply.bytes, g, m);
    ChecksumsDoNotParse(Restored(reply.bytes, g.ihl, m), out.value.bytes);
  }
}
