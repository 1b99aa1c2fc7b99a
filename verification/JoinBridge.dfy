/** The private-join completion bridge of the hooks: one guarded write per arming. */
module JoinBridge {
  import opened Common

  type Pointer = nat
  type u64 = x: int | 0 <= x < 0x1_0000_0000_0000_0000

  const DELAY_HEARTBEATS := 120
  const MAX_U64: u64 := 0xFFFF_FFFF_FFFF_FFFF

  datatype Bridge = Bridge(service: Pointer, session: nat, completed: bool)

  /** What the update hook reads from game memory; None where the read failed. */
  datatype Wait = Wait(service: Pointer, session: Option<nat>, flag429: Option<byte>, flag42a: Option<byte>,
                       flag42b: Option<byte>, flag42c: Option<byte>, mode: Option<nat>)

  /** What the enter hook reads before and after the game's own StateJoin enter. */
  datatype Entry = Entry(service: Pointer, kind: Option<nat>, session: Option<nat>, storm5a8Before: Option<byte>,
                         flag42bBefore: Option<byte>, flag42cBefore: Option<byte>,
                         flag42aAfter: Option<byte>, flag42bAfter: Option<byte>, flag42cAfter: Option<byte>)

  predicate Eligible(e: Entry) {
    // the branch that waits for a completion event without having sent the request
    && e.flag42cBefore == Some(0) && e.storm5a8Before != Some(0)
    && e.flag42bBefore == Some(0) && e.flag42bAfter == Some(1)
    // an exact private session that is still waiting
    && e.kind == Some(1) && e.session.Some? && e.session.value != 0
    && e.flag42aAfter == Some(0) && e.flag42cAfter == Some(0)
  }

  predicate StillWaiting(b: Bridge, w: Wait) {
    && w.service == b.service && w.session == Some(b.session)
    && w.flag429 == Some(0) && w.flag42a == Some(0) && w.flag42b == Some(1) && w.flag42c == Some(0)
    && w.mode == Some(0)
  }

  datatype State = State(bridges: map<Pointer, Bridge>, heartbeats: map<Pointer, u64>)

  function Beats(s: State, p: Pointer): u64 { if p in s.heartbeats then s.heartbeats[p] else 0 }

  function Beaten(s: State, p: Pointer): State {
    s.(heartbeats := s.heartbeats[p := if Beats(s, p) == MAX_U64 then MAX_U64 else Beats(s, p) + 1])
  }

  predicate Completes(s: State, p: Pointer, beat: u64, w: Wait) {
    beat >= DELAY_HEARTBEATS && p in s.bridges && !s.bridges[p].completed && StillWaiting(s.bridges[p], w)
  }

  /** The hooks.  `flag` is what the final volatile read of the completion flag returns. */
  datatype Event =
    | Enter(p: Pointer, entry: Entry)
    | Update(p: Pointer, wait: Wait, flag: byte)
    | Reset(p: Pointer)

  function Next(s: State, e: Event): State {
    match e
    case Enter(p, entry) =>
      if Eligible(entry) then s.(bridges := s.bridges[p := Bridge(entry.service, entry.session.value, false)])
      else s.(bridges := s.bridges - {p})
    case Reset(p) => s.(bridges := s.bridges - {p})
    case Update(p, w, _) =>
      var s := Beaten(s, p);
      if Completes(s, p, Beats(s, p), w) then s.(bridges := s.bridges[p := s.bridges[p].(completed := true)]) else s
  }

  /** The event writes the completion flag of its service. */
  predicate Writes(s: State, e: Event) {
    e.Update? && e.flag == 0 && Completes(Beaten(s, e.p), e.p, Beats(Beaten(s, e.p), e.p), e.wait)
  }

  class Hooks {
    var bridges: map<Pointer, Bridge>
    var heartbeats: map<Pointer, u64>

    function View(): State reads this { State(bridges, heartbeats) }

    constructor ()
      ensures View() == State(map[], map[])
    {
      bridges, heartbeats := map[], map[];
    }

    method Arm(p: Pointer, service: Pointer, session: nat)
      modifies this`bridges
      ensures View() == old(View()).(bridges := old(bridges)[p := Bridge(service, session, false)])
    {
      bridges := bridges[p := Bridge(service, session, false)];
    }

    method Disarm(p: Pointer)
      modifies this`bridges
      ensures View() == old(View()).(bridges := old(bridges) - {p})
    {
      bridges := bridges - {p};
    }

    method Heartbeat(p: Pointer) returns (count: u64)
      modifies this`heartbeats
      ensures View() == Beaten(old(View()), p) && count == Beats(View(), p)
    {
      count := if p in heartbeats then heartbeats[p] else 0;
      if count < MAX_U64 { count := count + 1; }
      heartbeats := heartbeats[p := count];
    }

    /** `flag` is the completion flag in game memory, written in place. */
    method TryComplete(p: Pointer, beat: u64, w: Wait, flag: array<byte>) returns (wrote: bool)
      requires flag.Length == 1
      modifies this`bridges, flag
      ensures Completes(old(View()), p, beat, w) ==>
        View() == old(View()).(bridges := old(bridges)[p := old(bridges)[p].(completed := true)])
      ensures !Completes(old(View()), p, beat, w) ==> View() == old(View())
      ensures wrote <==> Completes(old(View()), p, beat, w) && old(flag[0]) == 0
      ensures flag[0] == if wrote then 1 else old(flag[0])
    {
      wrote := false;
      if beat < DELAY_HEARTBEATS || p !in bridges { return; }
      var b := bridges[p];
      if b.completed || !StillWaiting(b, w) { return; }
      bridges := bridges[p := b.(completed := true)];
      if flag[0] != 0 { return; }
      flag[0] := 1;
      wrote := true;
    }

    method OnEnter(p: Pointer, entry: Entry)
      modifies this
      ensures View() == Next(old(View()), Enter(p, entry))
    {
      if Eligible(entry) {
        Arm(p, entry.service, entry.session.value);
      } else {
        Disarm(p);
      }
    }

    method OnUpdate(p: Pointer, w: Wait, flag: array<byte>) returns (wrote: bool)
      requires flag.Length == 1
      modifies this, flag
      ensures View() == Next(old(View()), Update(p, w, old(flag[0])))
      ensures wrote <==> Writes(old(View()), Update(p, w, old(flag[0])))
      ensures flag[0] == if wrote then 1 else old(flag[0])
    {
      var beat := Heartbeat(p);
      wrote := TryComplete(p, beat, w, flag);
    }

    method OnReset(p: Pointer)
      modifies this
      ensures View() == Next(old(View()), Reset(p))
    {
      Disarm(p);
    }
  }

  // ---- runs ----

  const START := State(map[], map[])

  function Run(es: seq<Event>): State
    decreases |es|
  {
    if es == [] then START else Next(Run(es[..|es| - 1]), es[|es| - 1])
  }

  // ---- what a history alone says, without the hooks' own predicates and state ----

  /** The enter of a private session that now waits for an event it never asked for: join type 1, a
      session id, no request sent before or after, and the wait flag set by this very enter. */
  predicate StuckPrivateJoin(e: Entry) {
    && e == Entry(e.service, Some(1), e.session, e.storm5a8Before, Some(0), Some(0), Some(0), Some(1), Some(0))
    && e.session != None && e.session != Some(0) && e.storm5a8Before != Some(0)
  }

  function Updates(es: seq<Event>, p: Pointer): nat
    decreases |es|
  {
    if es == [] then 0
    else Updates(es[..|es| - 1], p) + if es[|es| - 1].Update? && es[|es| - 1].p == p then 1 else 0
  }

  function Arms(es: seq<Event>, p: Pointer): nat
    decreases |es|
  {
    if es == [] then 0
    else Arms(es[..|es| - 1], p) +
         if es[|es| - 1].Enter? && es[|es| - 1].p == p && StuckPrivateJoin(es[|es| - 1].entry) then 1 else 0
  }

  /** The entry that armed `p`, if its last enter was a stuck private join and no reset came since. */
  function ArmedBy(es: seq<Event>, p: Pointer): Option<Entry>
    decreases |es|
  {
    if es == [] then None
    else
      var e := es[|es| - 1];
      if e.p == p && e.Enter? then (if StuckPrivateJoin(e.entry) then Some(e.entry) else None)
      else if e.p == p && e.Reset? then None
      else ArmedBy(es[..|es| - 1], p)
  }

  /** After `es` an update of an armed state is the 120th or later and finds its own service and
      session waiting, with exactly the expected flags. */
  predicate Due(es: seq<Event>, e: Event) {
    e.Update? && Updates(es, e.p) + 1 >= 120 && ArmedBy(es, e.p).Some? &&
    var armed := ArmedBy(es, e.p).value;
    e.wait == Wait(armed.service, armed.session, Some(0), Some(0), Some(1), Some(0), Some(0))
  }

  /** Since `p` was last armed an update of it has been due. */
  predicate WasDue(es: seq<Event>, p: Pointer)
    decreases |es|
  {
    es != [] &&
      var shorter, e := es[..|es| - 1], es[|es| - 1];
      if e.p == p && !e.Update? then false else (e.p == p && Due(shorter, e)) || WasDue(shorter, p)
  }

  /** How often the completion flag of `p` has been written. */
  function WriteCount(es: seq<Event>, p: Pointer): nat
    decreases |es|
  {
    if es == [] then 0
    else WriteCount(es[..|es| - 1], p) +
         if es[|es| - 1].p == p && Writes(Run(es[..|es| - 1]), es[|es| - 1]) then 1 else 0
  }

  ghost predicate Tracks(es: seq<Event>, p: Pointer, s: State) {
    && Beats(s, p) == (if Updates(es, p) < MAX_U64 then Updates(es, p) else MAX_U64)
    && (p in s.bridges <==> ArmedBy(es, p).Some?)
    && (p in s.bridges ==>
          && s.bridges[p].service == ArmedBy(es, p).value.service
          && Some(s.bridges[p].session) == ArmedBy(es, p).value.session
          && (s.bridges[p].completed <==> WasDue(es, p)))
    && WriteCount(es, p) + (if p in s.bridges && !s.bridges[p].completed then 1 else 0) <= Arms(es, p)
  }

  lemma EligibleIffStuck(e: Entry)
    ensures Eligible(e) <==> StuckPrivateJoin(e)
  {
  }

  lemma TracksOneMore(es: seq<Event>, p: Pointer, s: State, e: Event)
    requires s == Run(es) && Tracks(es, p, s)
    ensures Tracks(es + [e], p, Next(s, e))
    ensures e.p == p ==> (Writes(s, e) <==> Due(es, e) && !WasDue(es, p) && e.flag == 0)
  {
    assert (es + [e])[..|es + [e]| - 1] == es;
    if e.Enter? { EligibleIffStuck(e.entry); }
  }

  lemma {:induction false} StateTracksHistory(es: seq<Event>, p: Pointer)
    ensures Tracks(es, p, Run(es))
    decreases |es|
  {
    if es != [] {
      var shorter := es[..|es| - 1];
      StateTracksHistory(shorter, p);
      TracksOneMore(shorter, p, Run(shorter), es[|es| - 1]);
      assert shorter + [es[|es| - 1]] == es;
    }
  }

  /** Over any interleaving of enters, updates and resets on many states: a state's flag is
      written at most once per arming. */
  lemma WritesNeverExceedArms(es: seq<Event>, p: Pointer)
    ensures WriteCount(es, p) <= Arms(es, p)
  {
    StateTracksHistory(es, p);
  }

  /** The flag is written exactly at the first update that is due since the state was armed, and if
      the flag still is clear: for the service and session it was armed with, with exactly the
      expected flags, and after at least 120 updates, which arming never sets back. */
  lemma WritesIffFirstDue(es: seq<Event>, e: Event)
    ensures Writes(Run(es), e) <==> Due(es, e) && !WasDue(es, e.p) && e.flag == 0
  {
    StateTracksHistory(es, e.p);
    TracksOneMore(es, e.p, Run(es), e);
  }

  /** In particular, what every write presupposes. */
  lemma WritesAreGuarded(es: seq<Event>, e: Event)
    requires Writes(Run(es), e)
    ensures e.Update? && Updates(es + [e], e.p) >= DELAY_HEARTBEATS
    ensures ArmedBy(es, e.p).Some? && StuckPrivateJoin(ArmedBy(es, e.p).value)
    ensures var armed := ArmedBy(es, e.p).value;
      && e.wait == Wait(armed.service, armed.session, Some(0), Some(0), Some(1), Some(0), Some(0)) && e.flag == 0
  {
    WritesIffFirstDue(es, e);
    ArmedByStuck(es, e.p);
    assert (es + [e])[..|es + [e]| - 1] == es;
  }

  lemma {:induction false} ArmedByStuck(es: seq<Event>, p: Pointer)
    ensures ArmedBy(es, p).Some? ==> StuckPrivateJoin(ArmedBy(es, p).value)
    decreases |es|
  {
    if es != [] { ArmedByStuck(es[..|es| - 1], p); }
  }
}
