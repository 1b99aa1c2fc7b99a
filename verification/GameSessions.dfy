/** The control plane's choice of one authoritative game session per overlay address. */
module GameSessions {
  import opened Common

  /** The last octet of a client address 10.66.0.x. */
  type Octet = x: int | 2 <= x <= 254 witness 2

  /** One joined row: a participant of a live session and the addresses found in one of its
      station URLs (none for a participant without URL). */
  datatype Row = Row(session: int, kind: int, host: int, hostName: string, user: int, ips: set<Octet>)

  datatype GameSession = GameSession(id: int, kind: int, host: int, hostName: string, hostIp: Option<Octet>,
                                     participants: nat, ips: set<Octet>)

  // ---- what a set of rows says about a session ----

  function Sessions(rows: set<Row>): set<int> { set r | r in rows :: r.session }

  function Users(rows: set<Row>, id: int): set<int> { set r | r in rows && r.session == id :: r.user }

  function UserIps(rows: set<Row>, id: int, user: int): set<Octet> {
    set r, ip | r in rows && r.session == id && r.user == user && ip in r.ips :: ip
  }

  function AllIps(rows: set<Row>, id: int): set<Octet> {
    set r, ip | r in rows && r.session == id && ip in r.ips :: ip
  }

  ghost predicate IsLeast(ip: Octet, ips: set<Octet>) {
    ip in ips && forall other :: other in ips ==> ip <= other
  }

  /** `s` is the session that `rows` describe, its header taken from the row `head`. */
  ghost predicate Describes(rows: set<Row>, head: Row, s: GameSession) {
    && head in rows
    && s.id == head.session && s.kind == head.kind && s.host == head.host && s.hostName == head.hostName
    && s.participants == |Users(rows, s.id)|
    && s.ips == AllIps(rows, s.id)
    && (s.hostIp.None? <==> UserIps(rows, s.id, s.host) == {})
    && (s.hostIp.Some? ==> IsLeast(s.hostIp.value, UserIps(rows, s.id, s.host)))
  }

  /** Enough evidence of a playable room. */
  predicate Playable(s: GameSession) {
    s.hostIp.Some? && s.participants >= 2 && |s.ips| >= 2
  }

  /** The order of score(): addresses, then participants, then session id. */
  predicate Outranks(a: GameSession, b: GameSession) {
    || |a.ips| > |b.ips|
    || (|a.ips| == |b.ips| && (a.participants > b.participants
                               || (a.participants == b.participants && a.id > b.id)))
  }

  /** Some row's session is playable and has the address. */
  ghost predicate Candidate(rows: set<Row>, heads: map<int, Row>, ip: Octet, s: GameSession) {
    s.id in heads && Describes(rows, heads[s.id], s) && Playable(s) && ip in s.ips
  }

  /** One header row for each session. */
  ghost predicate Headers(rows: set<Row>, heads: map<int, Row>) {
    heads.Keys == Sessions(rows) && forall id :: id in heads ==> heads[id] in rows && heads[id].session == id
  }

  /** Each address is given the playable session that outranks all others with that address,
      and only addresses of playable sessions are given one. */
  ghost predicate Authoritative(rows: set<Row>, heads: map<int, Row>, result: map<Octet, GameSession>) {
    && (forall ip :: ip in result ==> Candidate(rows, heads, ip, result[ip]))
    && (forall ip, s :: Candidate(rows, heads, ip, s) ==> ip in result && (s == result[ip] || Outranks(result[ip], s)))
  }

  function RowSet(rows: seq<Row>): set<Row> { set r | r in rows }

  /** The row of each session that setdefault keeps for its header: the first. */
  function FirstRows(rows: seq<Row>): map<int, Row> {
    if rows == [] then map[] else KeepFirst(FirstRows(rows[..|rows| - 1]), rows[|rows| - 1])
  }

  function KeepFirst(heads: map<int, Row>, r: Row): map<int, Row> {
    if r.session in heads then heads else heads[r.session := r]
  }

  lemma {:induction false} OneHeaderEach(rows: seq<Row>)
    ensures Headers(RowSet(rows), FirstRows(rows))
  {
    if rows == [] {
    } else {
      var before, last := rows[..|rows| - 1], rows[|rows| - 1];
      OneHeaderEach(before);
      assert RowSet(rows) == RowSet(before) + {last};
    }
  }

  /** No earlier row of the session: row `i` is its header, whatever follows. */
  lemma {:induction false} FirstRowIsHeader(rows: seq<Row>, i: nat)
    requires i < |rows| && rows[i].session !in Sessions(RowSet(rows[..i]))
    ensures rows[i].session in FirstRows(rows) && FirstRows(rows)[rows[i].session] == rows[i]
  {
    var before := rows[..|rows| - 1];
    if i == |before| {
      OneHeaderEach(before);
    } else {
      assert before[..i] == rows[..i];
      FirstRowIsHeader(before, i);
    }
  }

  lemma DescribedOnce(rows: set<Row>, head: Row, a: GameSession, b: GameSession)
    requires Describes(rows, head, a) && Describes(rows, head, b)
    ensures a == b
  {
  }

  /** Told by counts alone: an address belongs to a session exactly when some session with a host
      address, two participants and two addresses has it. Of those it is given one with the most
      addresses, among these one with the most participants, and among these the latest. */
  lemma AuthoritativeIsBest(rows: set<Row>, heads: map<int, Row>, result: map<Octet, GameSession>, ip: Octet,
                            s: GameSession)
    requires Headers(rows, heads) && Authoritative(rows, heads, result)
    requires s.id in heads && Describes(rows, heads[s.id], s) && ip in s.ips
    requires s.hostIp != None && s.participants > 1 && |s.ips| > 1
    ensures ip in result
    ensures |s.ips| <= |result[ip].ips|
    ensures |s.ips| == |result[ip].ips| ==> s.participants <= result[ip].participants
    ensures |s.ips| == |result[ip].ips| && s.participants == result[ip].participants ==> s.id <= result[ip].id
  {
    assert Candidate(rows, heads, ip, s);
  }

  lemma OnlyRoomsAreAuthoritative(rows: set<Row>, heads: map<int, Row>, result: map<Octet, GameSession>, ip: Octet)
    requires Authoritative(rows, heads, result) && ip in result
    ensures var s := result[ip];
      && s.id in heads && Describes(rows, heads[s.id], s) && ip in s.ips
      && s.hostIp != None && s.participants > 1 && |s.ips| > 1
  {
    assert Candidate(rows, heads, ip, result[ip]);
  }

  /** The session id determines type, host and name. */
  ghost predicate Consistent(rows: set<Row>) {
    forall r, r' :: r in rows && r' in rows && r.session == r'.session ==>
      r.kind == r'.kind && r.host == r'.host && r.hostName == r'.hostName
  }

  lemma CandidateIgnoresHeaders(rows: set<Row>, heads: map<int, Row>, heads': map<int, Row>, ip: Octet, s: GameSession)
    requires Consistent(rows) && Headers(rows, heads) && Headers(rows, heads')
    requires Candidate(rows, heads, ip, s)
    ensures Candidate(rows, heads', ip, s)
  {
  }

  lemma Outranked(a: GameSession, b: GameSession)
    requires a == b || Outranks(a, b)
    requires b == a || Outranks(b, a)
    ensures a == b
  {
  }

  /** Where the session id determines type, host and name, the outcome does not depend on the
      order of the rows, on which row came first, or on any set or map order. */
  lemma SelectionIgnoresOrder(rows: seq<Row>, rows': seq<Row>,
                              result: map<Octet, GameSession>, result': map<Octet, GameSession>)
    requires multiset(rows) == multiset(rows') && Consistent(RowSet(rows))
    requires Authoritative(RowSet(rows), FirstRows(rows), result)
    requires Authoritative(RowSet(rows'), FirstRows(rows'), result')
    ensures result == result'
  {
    SameRows(rows, rows');
    SameRows(rows', rows);
    OneHeaderEach(rows);
    OneHeaderEach(rows');
    SameSelection(RowSet(rows), RowSet(rows'), FirstRows(rows), FirstRows(rows'), result, result');
  }

  lemma SameSelection(all: set<Row>, all': set<Row>, heads: map<int, Row>, heads': map<int, Row>,
                      result: map<Octet, GameSession>, result': map<Octet, GameSession>)
    requires all <= all' && all' <= all && Consistent(all)
    requires Headers(all, heads) && Authoritative(all, heads, result)
    requires Headers(all', heads') && Authoritative(all', heads', result')
    ensures result == result'
  {
    assert all == all';
    SameChoice(all, heads, heads', result, result');
    SameChoice(all, heads', heads, result', result);
    SameMaps(result, result');
  }

  lemma SameMaps(result: map<Octet, GameSession>, result': map<Octet, GameSession>)
    requires forall ip :: ip in result ==> ip in result' && result[ip] == result'[ip]
    requires forall ip :: ip in result' ==> ip in result && result'[ip] == result[ip]
    ensures result == result'
  {
  }

  lemma SameChoice(rows: set<Row>, heads: map<int, Row>, heads': map<int, Row>,
                   result: map<Octet, GameSession>, result': map<Octet, GameSession>)
    requires Consistent(rows) && Headers(rows, heads) && Headers(rows, heads')
    requires Authoritative(rows, heads, result) && Authoritative(rows, heads', result')
    ensures forall ip :: ip in result ==> ip in result' && result[ip] == result'[ip]
  {
    forall ip | ip in result
      ensures ip in result' && result[ip] == result'[ip]
    {
      SameChoiceAt(rows, heads, heads', result, result', ip);
    }
  }

  lemma SameChoiceAt(rows: set<Row>, heads: map<int, Row>, heads': map<int, Row>,
                     result: map<Octet, GameSession>, result': map<Octet, GameSession>, ip: Octet)
    requires Consistent(rows) && Headers(rows, heads) && Headers(rows, heads')
    requires Authoritative(rows, heads, result) && Authoritative(rows, heads', result') && ip in result
    ensures ip in result' && result[ip] == result'[ip]
  {
    CandidateIgnoresHeaders(rows, heads, heads', ip, result[ip]);
    assert ip in result' && Candidate(rows, heads', ip, result'[ip]);
    CandidateIgnoresHeaders(rows, heads', heads, ip, result'[ip]);
    Outranked(result[ip], result'[ip]);
  }

  lemma SameRows(rows: seq<Row>, rows': seq<Row>)
    requires multiset(rows) == multiset(rows')
    ensures RowSet(rows) <= RowSet(rows')
  {
    forall r | r in rows
      ensures r in rows'
    {
      assert r in multiset(rows);
    }
  }

  // ---- how the server computes it ----

  datatype Group = Group(head: Row, users: set<int>)

  ghost predicate Grouped(rows: set<Row>, groups: map<int, Group>, userIps: map<(int, int), set<Octet>>) {
    && groups.Keys == Sessions(rows)
    && (forall id :: id in groups ==>
          groups[id].head in rows && groups[id].head.session == id && groups[id].users == Users(rows, id))
    && (forall id, user :: (id, user) in userIps <==> id in groups && user in groups[id].users)
    && (forall id, user :: (id, user) in userIps ==> userIps[(id, user)] == UserIps(rows, id, user))
  }

  function HeadsOf(groups: map<int, Group>): map<int, Row> {
    map id | id in groups :: groups[id].head
  }

  lemma UsersOneMore(rows: set<Row>, r: Row, id: int)
    ensures Sessions(rows + {r}) == Sessions(rows) + {r.session}
    ensures Users(rows + {r}, id) == if id == r.session then Users(rows, id) + {r.user} else Users(rows, id)
    ensures id !in Sessions(rows) ==> Users(rows, id) == {}
  {
    if user :| user in Users(rows, id) {
      var q :| q in rows && q.session == id && q.user == user;
      assert q.session in Sessions(rows);
    }
  }

  lemma UserIpsOneMore(rows: set<Row>, r: Row, id: int, user: int)
    ensures UserIps(rows + {r}, id, user) ==
      if id == r.session && user == r.user then UserIps(rows, id, user) + r.ips else UserIps(rows, id, user)
    ensures user !in Users(rows, id) ==> UserIps(rows, id, user) == {}
  {
    if ip :| ip in UserIps(rows, id, user) {
      var q :| q in rows && q.session == id && q.user == user && ip in q.ips;
      assert q.user in Users(rows, id);
    }
  }

  function AddToGroup(groups: map<int, Group>, r: Row): map<int, Group> {
    var g := if r.session in groups then groups[r.session] else Group(r, {});
    groups[r.session := g.(users := g.users + {r.user})]
  }

  function AddToIps(userIps: map<(int, int), set<Octet>>, r: Row): map<(int, int), set<Octet>> {
    var ips := if (r.session, r.user) in userIps then userIps[(r.session, r.user)] else {};
    userIps[(r.session, r.user) := ips + r.ips]
  }

  lemma GroupedOneMore(rows: set<Row>, groups: map<int, Group>, userIps: map<(int, int), set<Octet>>, r: Row)
    requires Grouped(rows, groups, userIps)
    ensures Grouped(rows + {r}, AddToGroup(groups, r), AddToIps(userIps, r))
  {
    var groups', userIps' := AddToGroup(groups, r), AddToIps(userIps, r);
    UsersOneMore(rows, r, r.session);
    forall id | id in groups'
      ensures groups'[id].head in rows + {r} && groups'[id].head.session == id
      ensures groups'[id].users == Users(rows + {r}, id)
    {
      UsersOneMore(rows, r, id);
    }
    forall id, user
      ensures (id, user) in userIps' <==> id in groups' && user in groups'[id].users
    {
    }
    forall id, user | (id, user) in userIps'
      ensures userIps'[(id, user)] == UserIps(rows + {r}, id, user)
    {
      UserIpsOneMore(rows, r, id, user);
    }
  }

  lemma OneMoreRow(rows: seq<Row>, i: nat, groups: map<int, Group>)
    requires i < |rows|
    ensures RowSet(rows[..i + 1]) == RowSet(rows[..i]) + {rows[i]}
    ensures HeadsOf(groups) == FirstRows(rows[..i]) ==> HeadsOf(AddToGroup(groups, rows[i])) == FirstRows(rows[..i + 1])
  {
    assert rows[..i + 1][..i] == rows[..i];
    assert HeadsOf(AddToGroup(groups, rows[i])) == KeepFirst(HeadsOf(groups), rows[i]);
  }

  /** The row loop, with both of its dictionaries. */
  method CollectRows(rows: seq<Row>) returns (groups: map<int, Group>, userIps: map<(int, int), set<Octet>>)
    ensures Grouped(RowSet(rows), groups, userIps) && HeadsOf(groups) == FirstRows(rows)
  {
    groups, userIps := map[], map[];
    for i := 0 to |rows|
      invariant Grouped(RowSet(rows[..i]), groups, userIps) && HeadsOf(groups) == FirstRows(rows[..i])
    {
      var r := rows[i];
      OneMoreRow(rows, i, groups);
      GroupedOneMore(RowSet(rows[..i]), groups, userIps, r);
      // setdefault on both dictionaries, then add to the sets found there
      groups := AddToGroup(groups, r);
      userIps := AddToIps(userIps, r);
    }
    assert rows[..|rows|] == rows;
  }

  /** sorted(ips)[0] */
  method Least(ips: set<Octet>) returns (least: Octet)
    requires ips != {}
    ensures IsLeast(least, ips)
  {
    least :| least in ips;
    var left := ips - {least};
    while left != {}
      invariant left <= ips && least in ips
      invariant forall ip :: ip in ips && ip !in left ==> least <= ip
    {
      var ip :| ip in left;
      left := left - {ip};
      if ip < least { least := ip; }
    }
  }

  method BuildSession(ghost rows: set<Row>, groups: map<int, Group>, userIps: map<(int, int), set<Octet>>, id: int)
    returns (s: GameSession)
    requires Grouped(rows, groups, userIps) && id in groups
    ensures s.id == id && Describes(rows, groups[id].head, s)
  {
    var g := groups[id];
    s := GameSession(id, g.head.kind, g.head.host, g.head.hostName, None, |g.users|, {});
    var left := g.users;
    while left != {}
      invariant left <= g.users
      invariant s == GameSession(id, g.head.kind, g.head.host, g.head.hostName, s.hostIp, |g.users|, s.ips)
      invariant forall ip :: ip in s.ips <==>
        exists user :: user in g.users && user !in left && ip in UserIps(rows, id, user)
      invariant s.hostIp.None? <==>
        s.host in left || s.host !in g.users || UserIps(rows, id, s.host) == {}
      invariant s.hostIp.Some? ==> IsLeast(s.hostIp.value, UserIps(rows, id, s.host))
    {
      var user :| user in left;
      left := left - {user};
      var ips := userIps[(id, user)];
      ghost var before := s.ips;
      s := s.(ips := s.ips + ips);
      forall ip
        ensures ip in s.ips <==> exists u :: u in g.users && u !in left && ip in UserIps(rows, id, u)
      {
        assert ip in s.ips <==> ip in before || ip in UserIps(rows, id, user);
      }
      if user == s.host && ips != {} && s.hostIp.None? {
        var least := Least(ips);
        s := s.(hostIp := Some(least));
      }
    }
    assert s.ips == AllIps(rows, id) by {
      forall ip
        ensures ip in s.ips <==> ip in AllIps(rows, id)
      {
        if ip in AllIps(rows, id) {
          var r :| r in rows && r.session == id && ip in r.ips;
          assert r.user in g.users && ip in UserIps(rows, id, r.user);
        }
      }
    }
    if s.host !in g.users {
      assert UserIps(rows, id, s.host) == {};
    }
  }

  /** The selection so far, with the sessions `left` still to be offered. */
  ghost predicate Selected(rows: set<Row>, heads: map<int, Row>, result: map<Octet, GameSession>, left: set<int>) {
    && (forall ip :: ip in result ==> result[ip].id !in left && Candidate(rows, heads, ip, result[ip]))
    && (forall ip, s :: Candidate(rows, heads, ip, s) && s.id !in left ==>
          ip in result && (s == result[ip] || Outranks(result[ip], s)))
  }

  lemma SelectedOneMore(rows: set<Row>, heads: map<int, Row>, result: map<Octet, GameSession>, left: set<int>,
                        s: GameSession, next: map<Octet, GameSession>)
    requires Selected(rows, heads, result, left) && s.id in left && s.id in heads && Describes(rows, heads[s.id], s)
    requires next == if Playable(s) then Offered(result, s) else result
    ensures Selected(rows, heads, next, left - {s.id})
  {
    forall ip | ip in next
      ensures next[ip].id !in left - {s.id} && Candidate(rows, heads, ip, next[ip])
    {
      assert if ip in result && next[ip] == result[ip] then Candidate(rows, heads, ip, result[ip])
             else next[ip] == s && Playable(s) && ip in s.ips;
    }
    forall ip, other | Candidate(rows, heads, ip, other) && other.id !in left - {s.id}
      ensures ip in next && (other == next[ip] || Outranks(next[ip], other))
    {
      if other.id == s.id {
        OnlyCandidateOfItsId(rows, heads, ip, s, other);
        OfferedWins(result, s, ip);
      } else {
        OfferedKeepsWinners(result, s, ip, other);
      }
    }
  }

  lemma OnlyCandidateOfItsId(rows: set<Row>, heads: map<int, Row>, ip: Octet, s: GameSession, other: GameSession)
    requires Candidate(rows, heads, ip, other) && other.id == s.id && s.id in heads && Describes(rows, heads[s.id], s)
    ensures other == s && Playable(s) && ip in s.ips
  {
    DescribedOnce(rows, heads[s.id], s, other);
  }

  lemma OfferedWins(result: map<Octet, GameSession>, s: GameSession, ip: Octet)
    requires ip in s.ips && (ip in result ==> result[ip].id != s.id)
    ensures ip in Offered(result, s)
    ensures Offered(result, s)[ip] == s || Outranks(Offered(result, s)[ip], s)
  {
  }

  lemma OfferedKeepsWinners(result: map<Octet, GameSession>, s: GameSession, ip: Octet, other: GameSession)
    requires ip in result && (other == result[ip] || Outranks(result[ip], other))
    ensures ip in Offered(result, s)
    ensures other == Offered(result, s)[ip] || Outranks(Offered(result, s)[ip], other)
  {
  }

  /** Each address of `s` keeps the better session. */
  function Offered(result: map<Octet, GameSession>, s: GameSession): map<Octet, GameSession> {
    map ip | ip in result.Keys + s.ips ::
      if ip in s.ips && (ip !in result || Outranks(s, result[ip])) then s else result[ip]
  }

  /** _load_authoritative_sessions, from the joined rows on. */
  method LoadAuthoritativeSessions(rows: seq<Row>) returns (result: map<Octet, GameSession>)
    ensures Authoritative(RowSet(rows), FirstRows(rows), result)
  {
    var groups, userIps := CollectRows(rows);
    ghost var heads := HeadsOf(groups);
    result := map[];
    var left := groups.Keys;
    while left != {}
      invariant left <= groups.Keys
      invariant Selected(RowSet(rows), heads, result, left)
    {
      var id :| id in left;
      var s := BuildSession(RowSet(rows), groups, userIps, id);
      ghost var before := result;
      if Playable(s) {
        result := Offer(result, s);
      }
      SelectedOneMore(RowSet(rows), heads, before, left, s, result);
      left := left - {id};
    }
  }

  /** The loop over a session's addresses, which keeps the better session of each. */
  method Offer(result: map<Octet, GameSession>, s: GameSession) returns (next: map<Octet, GameSession>)
    ensures next == Offered(result, s)
  {
    next := result;
    var left := s.ips;
    while left != {}
      invariant left <= s.ips
      invariant next.Keys == result.Keys + (s.ips - left)
      invariant forall ip :: ip in next ==>
        next[ip] == if ip in s.ips && ip !in left && (ip !in result || Outranks(s, result[ip])) then s else result[ip]
    {
      var ip :| ip in left;
      left := left - {ip};
      if ip !in next || Outranks(s, next[ip]) {
        next := next[ip := s];
      }
    }
  }
}
