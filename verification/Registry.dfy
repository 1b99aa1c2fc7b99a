/** The control plane's heartbeat registry: at most one client per overlay address and per
    non-empty instance id, each kept for the TTL.  Times are milliseconds. */
module Registry {
  import opened GameSessions

  /** The registry only looks at address, instance and time; the rest is carried along. */
  datatype Client = Client(ip: Octet, instance: string, lastSeen: int, details: string)

  type Clients = map<Octet, Client>

  function Fresh(m: Clients, cutoff: int): Clients {
    map ip | ip in m && m[ip].lastSeen >= cutoff :: m[ip]
  }

  /** The same non-empty instance has moved from `ip` to the address of `c`. */
  predicate TakenOver(m: Clients, ip: Octet, c: Client)
    requires ip in m
  {
    ip != c.ip && c.instance != "" && m[ip].instance == c.instance
  }

  function Upserted(m: Clients, c: Client): Clients {
    (map ip | ip in m && !TakenOver(m, ip, c) :: m[ip])[c.ip := c]
  }

  class RuntimeState {
    const ttl: int
    var clients: Clients

    constructor (ttl: int)
      ensures this.ttl == ttl && clients == map[]
    {
      this.ttl, clients := ttl, map[];
    }

    method Cleanup(now: int)
      modifies this
      ensures clients == Fresh(old(clients), now - ttl)
    {
      var cutoff := now - ttl;
      var stale := set ip | ip in clients && clients[ip].lastSeen < cutoff;
      while stale != {}
        invariant forall ip :: ip in clients ==> ip in old(clients) && clients[ip] == old(clients)[ip]
        invariant forall ip :: ip in old(clients) ==>
          (ip in clients <==> ip in stale || old(clients)[ip].lastSeen >= cutoff)
        invariant stale <= clients.Keys
        invariant forall ip :: ip in stale ==> old(clients)[ip].lastSeen < cutoff
      {
        var ip :| ip in stale;
        stale := stale - {ip};
        clients := clients - {ip};
      }
    }

    method Upsert(c: Client, now: int)
      modifies this
      ensures clients == Upserted(Fresh(old(clients), now - ttl), c)
    {
      Cleanup(now);
      ghost var fresh' := clients;
      var left := clients.Keys;
      while left != {}
        invariant left <= fresh'.Keys && clients.Keys <= fresh'.Keys
        invariant forall ip :: ip in clients ==> clients[ip] == fresh'[ip]
        invariant forall ip :: ip in fresh' ==> (ip in clients <==> ip in left || !TakenOver(fresh', ip, c))
      {
        var ip :| ip in left;
        left := left - {ip};
        if ip != c.ip && c.instance != "" && clients[ip].instance == c.instance {
          clients := clients - {ip};
        }
      }
      clients := clients[c.ip := c];
    }

    /** The clients in the order of their last octet. */
    method ActiveClients(now: int) returns (active: seq<Client>)
      modifies this
      ensures clients == Fresh(old(clients), now - ttl)
      ensures KeyedByIp(old(clients)) ==>
        && (forall i, j :: 0 <= i < j < |active| ==> active[i].ip < active[j].ip)
        && (forall c :: c in active <==> c in clients.Values)
    {
      Cleanup(now);
      active := [];
      for octet := 2 to 255
        invariant KeyedByIp(old(clients)) ==>
          && (forall i :: 0 <= i < |active| ==> active[i].ip < octet)
          && (forall i, j :: 0 <= i < j < |active| ==> active[i].ip < active[j].ip)
          && (forall c :: c in active <==> c in clients.Values && c.ip < octet)
      {
        if octet in clients {
          active := active + [clients[octet]];
        }
      }
    }
  }

  // ---- runs ----

  /** A heartbeat handled at `now`, or a query that only cleans up. */
  datatype Request = Beat(client: Client, now: int) | Query(now: int)

  function Handle(ttl: int, m: Clients, r: Request): Clients {
    match r
    case Beat(c, now) => Upserted(Fresh(m, now - ttl), c)
    case Query(now) => Fresh(m, now - ttl)
  }

  function After(ttl: int, rs: seq<Request>): Clients
    decreases |rs|
  {
    if rs == [] then map[] else Handle(ttl, After(ttl, rs[..|rs| - 1]), rs[|rs| - 1])
  }

  predicate KeyedByIp(m: Clients) { forall ip :: ip in m ==> m[ip].ip == ip }

  predicate Supersedes(later: Client, earlier: Client) {
    later.ip == earlier.ip || (later.instance != "" && later.instance == earlier.instance)
  }

  /** Request `i` is a heartbeat that no later heartbeat supersedes. */
  ghost predicate Survives(rs: seq<Request>, i: int) {
    && 0 <= i < |rs| && rs[i].Beat?
    && forall j :: i < j < |rs| && rs[j].Beat? ==> !Supersedes(rs[j].client, rs[i].client)
  }

  ghost predicate HandledBy(rs: seq<Request>, now: int) {
    forall i :: 0 <= i < |rs| ==> rs[i].now <= now
  }

  /** What a query at `now` should answer. */
  ghost predicate IsActive(ttl: int, rs: seq<Request>, now: int, c: Client) {
    c.lastSeen >= now - ttl && exists i :: Survives(rs, i) && rs[i].client == c
  }

  /** The registry holds exactly the surviving heartbeats, apart from stale ones. */
  ghost predicate Exact(ttl: int, rs: seq<Request>, now: int, m: Clients) {
    && KeyedByIp(m)
    && (forall ip :: ip in m ==> exists i :: Survives(rs, i) && rs[i].client == m[ip])
    && (forall i :: Survives(rs, i) && rs[i].client.lastSeen >= now - ttl ==>
          rs[i].client.ip in m && m[rs[i].client.ip] == rs[i].client)
  }

  lemma SurvivesOneMore(rs: seq<Request>, r: Request, i: int)
    ensures Survives(rs + [r], i) <==>
      (i == |rs| && r.Beat?) || (Survives(rs, i) && (r.Beat? ==> !Supersedes(r.client, rs[i].client)))
  {
    var rs' := rs + [r];
    if Survives(rs', i) && i < |rs| {
      forall j | i < j < |rs| && rs[j].Beat?
        ensures !Supersedes(rs[j].client, rs[i].client)
      {
        assert rs'[j].Beat?;
      }
      assert rs'[|rs|] == r;
    }
  }

  lemma RequestKeepsExact(ttl: int, rs: seq<Request>, r: Request, now: int, m: Clients)
    requires Exact(ttl, rs, now, m) && r.now <= now
    ensures Exact(ttl, rs + [r], now, Handle(ttl, m, r))
  {
    var rs', m' := rs + [r], Handle(ttl, m, r);
    forall ip | ip in m'
      ensures exists i :: Survives(rs', i) && rs'[i].client == m'[ip]
    {
      if r.Beat? && ip == r.client.ip {
        SurvivesOneMore(rs, r, |rs|);
        assert rs'[|rs|].client == m'[ip];
      } else {
        var i :| Survives(rs, i) && rs[i].client == m[ip];
        SurvivesOneMore(rs, r, i);
        assert rs'[i].client == m'[ip];
      }
    }
    forall i | Survives(rs', i) && rs'[i].client.lastSeen >= now - ttl
      ensures rs'[i].client.ip in m' && m'[rs'[i].client.ip] == rs'[i].client
    {
      SurvivesOneMore(rs, r, i);
    }
  }

  /** However heartbeats and queries come, the clients active at `now` are exactly the heartbeats
      within the TTL that no later heartbeat superseded, by address or by instance. */
  lemma {:induction false} RegistryIsExact(ttl: int, rs: seq<Request>, now: int)
    requires HandledBy(rs, now)
    ensures Exact(ttl, rs, now, After(ttl, rs))
    ensures forall c :: c in Fresh(After(ttl, rs), now - ttl).Values <==> IsActive(ttl, rs, now, c)
    decreases |rs|
  {
    if rs != [] {
      var shorter := rs[..|rs| - 1];
      RegistryIsExact(ttl, shorter, now);
      RequestKeepsExact(ttl, shorter, rs[|rs| - 1], now, After(ttl, shorter));
      assert rs == shorter + [rs[|rs| - 1]];
    }
    var m := After(ttl, rs);
    forall c
      ensures c in Fresh(m, now - ttl).Values <==> IsActive(ttl, rs, now, c)
    {
      if IsActive(ttl, rs, now, c) {
        assert c.ip in Fresh(m, now - ttl);
      }
    }
  }

  /** No non-empty instance id is ever active at two addresses. */
  lemma InstancesAreUnique(ttl: int, rs: seq<Request>, now: int, ip: Octet, ip': Octet)
    requires HandledBy(rs, now)
    requires var m := After(ttl, rs); ip in m && ip' in m && m[ip].instance == m[ip'].instance != ""
    ensures ip == ip'
  {
    RegistryIsExact(ttl, rs, now);
    var m := After(ttl, rs);
    var i :| Survives(rs, i) && rs[i].client == m[ip];
    var j :| Survives(rs, j) && rs[j].client == m[ip'];
    if i < j {
      assert Supersedes(rs[j].client, rs[i].client);
    } else if j < i {
      assert Supersedes(rs[i].client, rs[j].client);
    }
  }
}
