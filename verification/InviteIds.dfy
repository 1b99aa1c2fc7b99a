/** The hooks' local invite ids: a fresh negative id for each delivery of a server event, until
    the game retires it. */
module InviteIds {
  import opened Common

  const MIN_I64 := -0x8000_0000_0000_0000
  type i64 = x: int | -0x8000_0000_0000_0000 <= x < 0x8000_0000_0000_0000

  function SaturatingDec(x: i64): i64 {
    if x == MIN_I64 then x else x - 1
  }

  datatype Current = Current(local: i64, retired: bool)

  datatype State = State(next: i64, current: map<i64, Current>, servers: map<i64, i64>)

  /** The allocated ids are exactly -1, -2, ... in order; `next` is the one after. */
  ghost predicate Valid(s: State) {
    && (forall id :: id in s.servers <==> s.next < id <= -1 || (id == s.next == MIN_I64 && Exhausted(s)))
    && (forall server :: server in s.current ==>
          s.current[server].local in s.servers && s.servers[s.current[server].local] == server)
    && s.next <= -1
  }

  /** All 2^63 ids are taken: the source would search for a free one forever. */
  predicate Exhausted(s: State) { MIN_I64 in s.servers }

  function Initial(): State { State(-1, map[], map[]) }

  /** The current local id of `server`, unless it was retired. */
  function Live(s: State, server: i64): Option<i64> {
    if server in s.current && !s.current[server].retired then Some(s.current[server].local) else None
  }

  function Delivered(s: State, server: i64): State {
    if Live(s, server).Some? then s
    else State(SaturatingDec(s.next), s.current[server := Current(s.next, false)], s.servers[s.next := server])
  }

  function Resolve(s: State, local: i64): i64 {
    if local in s.servers then s.servers[local] else local
  }

  function Retired(s: State, local: i64): State {
    if local !in s.servers then s
    else
      var server := s.servers[local];
      if server in s.current && s.current[server].local == local
      then s.(current := s.current[server := Current(local, true)])
      else s
  }

  class InviteIdState {
    var nextLocalId: i64
    var serverToCurrent: map<i64, Current>
    var localToServer: map<i64, i64>

    function View(): State reads this { State(nextLocalId, serverToCurrent, localToServer) }

    constructor ()
      ensures View() == Initial() && Valid(View())
    {
      nextLocalId, serverToCurrent, localToServer := -1, map[], map[];
    }

    /** The greatest free id from `nextLocalId` down.  With no free id left the source would
        search forever, as decrementing saturates. */
    method AllocateLocalId() returns (local: i64)
      requires exists free: i64 :: free <= nextLocalId && free !in localToServer
      modifies this`nextLocalId
      ensures local <= old(nextLocalId) && local !in localToServer
      ensures forall id: i64 :: local < id <= old(nextLocalId) ==> id in localToServer
      ensures nextLocalId == SaturatingDec(local)
    {
      ghost var free: i64 :| free <= nextLocalId && free !in localToServer;
      while nextLocalId in localToServer
        invariant free <= nextLocalId <= old(nextLocalId)
        invariant forall id: i64 :: nextLocalId < id <= old(nextLocalId) ==> id in localToServer
        decreases nextLocalId - MIN_I64
      {
        nextLocalId := SaturatingDec(nextLocalId);
      }
      local := nextLocalId;
      nextLocalId := SaturatingDec(nextLocalId);
    }

    method MapServerEvent(server: i64) returns (local: i64)
      requires Valid(View()) && (Live(View(), server).Some? || !Exhausted(View()))
      modifies this
      ensures View() == Delivered(old(View()), server) && Valid(View())
      ensures Live(View(), server) == Some(local) && local < 0 && Resolve(View(), local) == server
      ensures local == if Live(old(View()), server).Some? then Live(old(View()), server).value else old(nextLocalId)
    {
      DeliveredIsValid(View(), server);
      if server in serverToCurrent && !serverToCurrent[server].retired {
        return serverToCurrent[server].local;
      }
      local := AllocateLocalId();
      serverToCurrent := serverToCurrent[server := Current(local, false)];
      localToServer := localToServer[local := server];
    }

    method ServerIdForLocal(local: i64) returns (server: i64)
      ensures server == Resolve(View(), local)
    {
      server := if local in localToServer then localToServer[local] else local;
    }

    method RetireLocal(local: i64)
      modifies this`serverToCurrent
      ensures View() == Retired(old(View()), local)
    {
      if local !in localToServer { return; }
      var server := localToServer[local];
      if server in serverToCurrent && serverToCurrent[server].local == local {
        serverToCurrent := serverToCurrent[server := Current(local, true)];
      }
    }
  }

  lemma DeliveredIsValid(s: State, server: i64)
    requires Valid(s) && (Live(s, server).Some? || !Exhausted(s))
    ensures Valid(Delivered(s, server))
    ensures Live(s, server).None? ==> s.next !in s.servers
  {
  }

  // ---- runs ----

  datatype Op = Deliver(server: i64) | Retire(local: i64)

  function Do(s: State, op: Op): State {
    match op
    case Deliver(server) => if Exhausted(s) && Live(s, server).None? then s else Delivered(s, server)
    case Retire(local) => Retired(s, local)
  }

  function Run(s: State, ops: seq<Op>): State
    decreases |ops|
  {
    if ops == [] then s else Do(Run(s, ops[..|ops| - 1]), ops[|ops| - 1])
  }

  lemma {:induction false} RunIsValid(s: State, ops: seq<Op>)
    requires Valid(s)
    ensures Valid(Run(s, ops))
    ensures s.next >= Run(s, ops).next
    ensures forall id :: id in s.servers ==> id in Run(s, ops).servers && Run(s, ops).servers[id] == s.servers[id]
    decreases |ops|
  {
    if ops != [] {
      RunIsValid(s, ops[..|ops| - 1]);
    }
  }

  /** Only 2^63 steps can use up the ids. */
  lemma {:induction false} ExhaustionTakesAllIds(ops: seq<Op>)
    ensures Run(Initial(), ops).next >= -1 - |ops|
    ensures Exhausted(Run(Initial(), ops)) ==> |ops| >= 0x8000_0000_0000_0000
    decreases |ops|
  {
    RunIsValid(Initial(), ops);
    if ops != [] {
      ExhaustionTakesAllIds(ops[..|ops| - 1]);
    }
  }

  /** A delivery of a new or retired event issues an id never issued before, and for good: it
      resolves to its event after anything that follows. */
  lemma IssuedIdsAreFreshAndPermanent(ops: seq<Op>, server: i64, later: seq<Op>)
    requires var s := Run(Initial(), ops); !Exhausted(s) && Live(s, server).None?
    ensures var s := Run(Initial(), ops);
      var s' := Delivered(s, server);
      && Live(s', server).Some? && Live(s', server).value < 0
      && Live(s', server).value !in s.servers
      && Resolve(Run(s', later), Live(s', server).value) == server
  {
    RunIsValid(Initial(), ops);
    var s := Run(Initial(), ops);
    DeliveredIsValid(s, server);
    RunIsValid(Delivered(s, server), later);
  }

  /** After any steps a delivery leaves its event with a live id, unless all ids are taken: the one
      it had, or else the next number down. */
  lemma DeliveryGivesLiveId(ops: seq<Op>, server: i64)
    requires |ops| < 0x8000_0000_0000_0000
    ensures var s, s' := Run(Initial(), ops), Run(Initial(), ops + [Deliver(server)]);
      && Live(s', server) == (if Live(s, server).Some? then Live(s, server) else Some(s.next))
      && Resolve(s', Live(s', server).value) == server
      && (Live(s, server).None? ==> s.next !in s.servers && |s'.servers| == |s.servers| + 1)
  {
    var s := Run(Initial(), ops);
    RunIsValid(Initial(), ops);
    ExhaustionTakesAllIds(ops);
    assert (ops + [Deliver(server)])[..|ops + [Deliver(server)]| - 1] == ops;
    DeliveredIsValid(s, server);
  }

  /** While the current id of an event is not retired, no number of other steps changes it,
      and in particular retiring any other id of the event does not. */
  lemma {:induction false} CurrentIdLastsUntilRetired(s: State, ops: seq<Op>, server: i64, local: i64)
    requires Valid(s) && Live(s, server) == Some(local)
    requires Retire(local) !in ops
    ensures Live(Run(s, ops), server) == Some(local)
    decreases |ops|
  {
    if ops != [] {
      CurrentIdLastsUntilRetired(s, ops[..|ops| - 1], server, local);
      RunIsValid(s, ops[..|ops| - 1]);
      assert ops[|ops| - 1] in ops;
    }
  }

  /** Retiring the current id makes the next delivery issue another one. */
  lemma RetiringForcesFreshId(s: State, server: i64, local: i64)
    requires Valid(s) && Live(s, server) == Some(local) && !Exhausted(s)
    ensures var s' := Delivered(Retired(s, local), server);
      Live(s', server).Some? && Live(s', server).value != local && Resolve(s', local) == server
  {
    var r := Retired(s, local);
    assert s.servers[local] == server;
    assert Live(r, server).None? && r.next == s.next;
  }
}
