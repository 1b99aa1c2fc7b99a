/** What the game monitor guarantees over every sequence of probes. */
module GameMonitorRuns {
  import opened Common
  import opened GameMonitors

  function Authorised(s: State): set<Pid> {
    {s.initial} + set pid | pid in s.adopted
  }

  ghost predicate Distinct(pids: seq<Pid>) {
    forall i, j :: 0 <= i < j < |pids| ==> pids[i] != pids[j]
  }

  ghost predicate OnlyAuthorised(s: State, preExisting: set<Pid>) {
    && s.owned <= Authorised(s)
    && (forall i :: 0 <= i < |s.published| ==> s.published[i].pids <= Authorised(s))
    && Distinct(s.adopted) && 0 !in s.adopted
    && (forall pid :: pid in s.adopted ==> pid in s.excluded && pid !in preExisting)
    && preExisting <= s.excluded
  }

  /** Everything ever published belongs to the launch: the first process or an adopted one, each
      adopted once and none of them running before the launch. */
  lemma {:induction false} PublishesOnlyItsOwn(initial: Pid, launchedAt: int, preExisting: set<Pid>,
                                               session: Option<Publication>, ps: seq<Probe>)
    ensures OnlyAuthorised(Run(Start(initial, launchedAt, preExisting, session), ps), preExisting)
    decreases |ps|
  {
    if ps != [] {
      var s0 := Start(initial, launchedAt, preExisting, session);
      PublishesOnlyItsOwn(initial, launchedAt, preExisting, session, ps[..|ps| - 1]);
      StepOnlyAuthorised(Run(s0, ps[..|ps| - 1]), ps[|ps| - 1], preExisting);
    }
  }

  lemma StepOnlyAuthorised(s: State, p: Probe, preExisting: set<Pid>)
    requires OnlyAuthorised(s, preExisting)
    ensures OnlyAuthorised(Step(s, p), preExisting)
  {
    if s.phase == Running {
      var s0 := s.(owned := s.owned * p.live0);
      PruneOnlyAuthorised(s, p.live0, preExisting);
      if s.confirmed {
        var s1 := s0.(owned := s0.owned * p.live2);
        PruneOnlyAuthorised(s0, p.live2, preExisting);
        PublishOnlyAuthorised(s1, Publication(s1.owned, false), p.first, preExisting);
        SameAuthority(Publish(s1, Publication(s1.owned, false), p.first), Step(s, p), preExisting);
      } else {
        var s1 := if s.waiting then AwaitRelaunch(s0, p) else AwaitInitial(s0, p);
        if s.waiting { RelaunchOnlyAuthorised(s0, p, preExisting); } else { InitialOnlyAuthorised(s0, p, preExisting); }
        SameAuthority(s1, Step(s, p), preExisting);
      }
    }
  }

  lemma PublishOnlyAuthorised(s: State, u: Publication, c: Call, preExisting: set<Pid>)
    requires OnlyAuthorised(s, preExisting) && u.pids <= Authorised(s)
    ensures OnlyAuthorised(Publish(s, u, c), preExisting)
    ensures Authorised(Publish(s, u, c)) == Authorised(s)
  {
  }

  lemma ConfirmOnlyAuthorised(s: State, p: Probe, stableMs: int, preExisting: set<Pid>)
    requires OnlyAuthorised(s, preExisting)
    ensures OnlyAuthorised(Confirm(s, p, stableMs), preExisting)
  {
    PublishOnlyAuthorised(s, Publication(s.owned, false), p.second, preExisting);
    var r := Confirm(s, p, stableMs);
    var told := Publish(s, Publication(s.owned, false), p.second);
    SameAuthority(if r.published == s.published then s else told, r, preExisting);
  }

  lemma InitialOnlyAuthorised(s: State, p: Probe, preExisting: set<Pid>)
    requires OnlyAuthorised(s, preExisting)
    ensures OnlyAuthorised(AwaitInitial(s, p), preExisting)
  {
    var s1 := Publish(s, Publication(s.owned, true), p.first);
    PublishOnlyAuthorised(s, Publication(s.owned, true), p.first, preExisting);
    ConfirmOnlyAuthorised(s1, p, GAME_STABLE_MS, preExisting);
    var s2 := s1.(waiting := true, stableSince := None);
    SameAuthority(s1, s2, preExisting);
    PublishOnlyAuthorised(s2, Publication({}, true), p.second, preExisting);
  }

  lemma RelaunchOnlyAuthorised(s: State, p: Probe, preExisting: set<Pid>)
    requires OnlyAuthorised(s, preExisting)
    ensures OnlyAuthorised(AwaitRelaunch(s, p), preExisting)
  {
    AdoptOnlyAuthorised(s, p, preExisting);
    var a := if s.candidate > 0 && s.candidate in s.owned then s else Adopt(s, p);
    PruneOnlyAuthorised(a, p.live2, preExisting);
    var b := a.(owned := a.owned * p.live2);
    PublishOnlyAuthorised(b, Publication(b.owned, true), p.first, preExisting);
    ConfirmOnlyAuthorised(Publish(b, Publication(b.owned, true), p.first), p, RELAUNCH_STABLE_MS, preExisting);
  }

  lemma PruneOnlyAuthorised(s: State, alive: set<Pid>, preExisting: set<Pid>)
    requires OnlyAuthorised(s, preExisting)
    ensures OnlyAuthorised(s.(owned := s.owned * alive), preExisting)
  {
    assert Authorised(s.(owned := s.owned * alive)) == Authorised(s);
  }

  lemma SameAuthority(s: State, s': State, preExisting: set<Pid>)
    requires OnlyAuthorised(s, preExisting)
    requires s'.initial == s.initial && s'.owned <= s.owned && s'.excluded == s.excluded
    requires s'.adopted == s.adopted && s'.published == s.published
    ensures OnlyAuthorised(s', preExisting)
  {
    assert Authorised(s') == Authorised(s);
  }

  lemma AdoptOnlyAuthorised(s: State, p: Probe, preExisting: set<Pid>)
    requires OnlyAuthorised(s, preExisting)
    ensures OnlyAuthorised(Adopt(s, p), preExisting)
  {
    var a := Adopt(s, p);
    if a.adopted != s.adopted {
      var e := if s.candidate > 0 then s.excluded + {s.candidate} else s.excluded;
      var found := NewMatching(p.matching, Since(s), e);
      assert found[0] in found && Eligible(found[0], Since(s), e);
      assert a.adopted == s.adopted + [a.candidate];
      assert Authorised(a) == Authorised(s) + {a.candidate};
    }
  }

  // ---- confirmation ----

  /** Every look at `pid` by the probes k..|ps| found it alive; a relaunched process is
      adopted during probe `k` itself. */
  ghost predicate AliveSince(ps: seq<Probe>, k: nat, pid: Pid, relaunched: bool) {
    && k < |ps|
    && (forall j :: k <= j < |ps| && (relaunched ==> k < j) ==> pid in ps[j].live0)
    && (relaunched ==> forall j :: k <= j < |ps| ==> pid in ps[j].live2)
  }

  function Watched(s: State): Pid { if s.waiting then s.candidate else s.initial }

  function StableMs(s: State): int { if s.waiting then RELAUNCH_STABLE_MS else GAME_STABLE_MS }

  /** The clock that reads `since` was started by a probe ever since which `pid` has been alive. */
  ghost predicate AliveSinceTime(ps: seq<Probe>, pid: Pid, relaunched: bool, since: int) {
    exists k: nat :: AliveSince(ps, k, pid, relaunched) && ps[k].t0 == since
  }

  /** While unconfirmed, the stability clock is honest. */
  ghost predicate ClockIsHonest(s: State, ps: seq<Probe>) {
    && s.missing == 0
    && (s.waiting ==> (s.candidate > 0 ==> s.stableSince.Some?))
    && (!s.waiting ==> s.candidate == 0)
    && (s.stableSince.Some? && Watched(s) in s.owned && Watched(s) > 0 ==>
          AliveSinceTime(ps, Watched(s), s.waiting, s.stableSince.value))
  }

  /** `s'` took the watched process for the running game, rightly. */
  ghost predicate ConfirmedRightly(s': State, ps: seq<Probe>, now: int) {
    && Watched(s') in s'.owned && s'.missing == 0 && s'.stableSince.Some?
    && now - s'.stableSince.value >= StableMs(s')
    && AliveSinceTime(ps, Watched(s'), s'.waiting, s'.stableSince.value)
  }

  lemma StillAlive(ps: seq<Probe>, p: Probe, pid: Pid, relaunched: bool, since: int)
    requires AliveSinceTime(ps, pid, relaunched, since)
    requires pid in p.live0 && (relaunched ==> pid in p.live2)
    ensures AliveSinceTime(ps + [p], pid, relaunched, since)
  {
    var k: nat :| AliveSince(ps, k, pid, relaunched) && ps[k].t0 == since;
    assert AliveSince(ps + [p], k, pid, relaunched) && (ps + [p])[k].t0 == since;
  }

  lemma AliveNow(ps: seq<Probe>, p: Probe, pid: Pid, relaunched: bool)
    requires if relaunched then pid in p.live2 else pid in p.live0
    ensures AliveSinceTime(ps + [p], pid, relaunched, p.t0)
  {
    assert AliveSince(ps + [p], |ps|, pid, relaunched) && (ps + [p])[|ps|].t0 == p.t0;
  }

  /** What holds after a turn that met an unconfirmed game. */
  ghost predicate HonestTurn(s': State, ps: seq<Probe>, p: Probe) {
    if s'.confirmed then ConfirmedRightly(s', ps + [p], p.t1)
    else s'.phase == TimedOut || s'.phase == Faulted || ClockIsHonest(s', ps + [p])
  }

  lemma InitialTurn(s: State, ps: seq<Probe>, p: Probe)
    requires ClockIsHonest(s, ps) && !s.waiting && !s.confirmed && s.initial > 0 && s.phase == Running
    ensures HonestTurn(AwaitInitial(s.(owned := s.owned * p.live0), p), ps, p)
  {
    if s.initial in s.owned * p.live0 {
      if s.stableSince.Some? {
        StillAlive(ps, p, s.initial, false, s.stableSince.value);
      } else {
        AliveNow(ps, p, s.initial, false);
      }
    }
  }

  lemma RelaunchTurn(s: State, ps: seq<Probe>, p: Probe)
    requires ClockIsHonest(s, ps) && s.waiting && !s.confirmed && s.phase == Running
    ensures HonestTurn(AwaitRelaunch(s.(owned := s.owned * p.live0), p), ps, p)
  {
    var s0 := s.(owned := s.owned * p.live0);
    if s.candidate > 0 && s.candidate in s0.owned {
      if s.candidate in p.live2 {
        StillAlive(ps, p, s.candidate, true, s.stableSince.value);
      }
    } else {
      var c := Adopt(s0, p).candidate;
      if c > 0 && c in p.live2 {
        AliveNow(ps, p, c, true);
      }
    }
  }

  /** Probe `n` confirmed the game, rightly. */
  ghost predicate ConfirmedAt(s0: State, ps: seq<Probe>, n: nat)
    requires n < |ps|
  {
    && !Run(s0, ps[..n]).confirmed && Run(s0, ps[..n + 1]).confirmed
    && ConfirmedRightly(Run(s0, ps[..n + 1]), ps[..n + 1], ps[n].t1)
  }

  lemma ConfirmedInPrefix(s0: State, ps: seq<Probe>, n: nat)
    requires n < |ps| - 1 && ConfirmedAt(s0, ps[..|ps| - 1], n)
    ensures ConfirmedAt(s0, ps, n)
  {
    assert ps[..|ps| - 1][..n + 1] == ps[..n + 1] && ps[..|ps| - 1][..n] == ps[..n];
  }

  lemma Turn(s: State, ps: seq<Probe>, p: Probe)
    requires ClockIsHonest(s, ps) && !s.confirmed && s.initial > 0 && s.phase == Running
    ensures HonestTurn(Step(s, p), ps, p) && Step(s, p).phase != ExitStopped
  {
    if s.waiting { RelaunchTurn(s, ps, p); } else { InitialTurn(s, ps, p); }
  }

  lemma TurnOfRun(s0: State, s: State, shorter: seq<Probe>, p: Probe)
    requires s == Run(s0, shorter) && s.initial > 0
    requires ClockIsHonest(s, shorter) && !s.confirmed && s.phase == Running
    ensures Run(s0, shorter + [p]) == Step(s, p) && Step(s, p).phase != ExitStopped
    ensures Step(s, p).confirmed ==> ConfirmedAt(s0, shorter + [p], |shorter|)
    ensures HonestTurn(Step(s, p), shorter, p)
  {
    var ps := shorter + [p];
    assert ps[..|ps| - 1] == shorter && ps[..|shorter|] == shorter && ps[..|shorter| + 1] == ps;
    Turn(s, shorter, p);
  }

  /** A run that stands at `s` after `ps` has confirmed nothing but a stable process. */
  ghost predicate HonestRun(s0: State, ps: seq<Probe>, s: State) {
    if s.confirmed then exists n: nat :: n < |ps| && ConfirmedAt(s0, ps, n)
    else s.phase == TimedOut || s.phase == Faulted || (s.phase == Running && ClockIsHonest(s, ps))
  }

  lemma ConfirmedStays(s: State, p: Probe)
    ensures s.confirmed ==> Step(s, p).confirmed
    ensures s.phase != Running ==> Step(s, p) == s
  {
  }

  lemma HonestOneMore(s0: State, ps: seq<Probe>, s: State)
    requires ps != [] && s.initial > 0
    requires s == Run(s0, ps[..|ps| - 1]) && HonestRun(s0, ps[..|ps| - 1], s)
    ensures HonestRun(s0, ps, Step(s, ps[|ps| - 1]))
  {
    var shorter, p := ps[..|ps| - 1], ps[|ps| - 1];
    assert ps == shorter + [p];
    ConfirmedStays(s, p);
    if s.confirmed {
      var n: nat :| n < |shorter| && ConfirmedAt(s0, shorter, n);
      ConfirmedInPrefix(s0, ps, n);
    } else if s.phase == Running {
      TurnOfRun(s0, s, shorter, p);
    }
  }

  lemma {:induction false} HonestFrom(s0: State, ps: seq<Probe>)
    requires HonestRun(s0, [], s0) && s0.initial > 0
    ensures HonestRun(s0, ps, Run(s0, ps))
    decreases |ps|
  {
    if ps != [] {
      var shorter := ps[..|ps| - 1];
      HonestFrom(s0, shorter);
      InitialStays(s0, shorter);
      HonestOneMore(s0, ps, Run(s0, shorter));
    }
  }

  /** The game is confirmed only after one process was found alive at every look, over a span of
      probes of at least 20 seconds, or 4 for a relaunched process. */
  lemma ConfirmsOnlyStableProcesses(initial: Pid, launchedAt: int, preExisting: set<Pid>,
                                    session: Option<Publication>, ps: seq<Probe>)
    requires initial > 0
    ensures var s0 := Start(initial, launchedAt, preExisting, session); HonestRun(s0, ps, Run(s0, ps))
  {
    HonestFrom(Start(initial, launchedAt, preExisting, session), ps);
  }

  lemma {:induction false} InitialStays(s: State, ps: seq<Probe>)
    ensures Run(s, ps).initial == s.initial && Run(s, ps).deadline == s.deadline
    decreases |ps|
  {
    if ps != [] {
      InitialStays(s, ps[..|ps| - 1]);
      StepKeepsInitial(Run(s, ps[..|ps| - 1]), ps[|ps| - 1]);
    }
  }

  lemma StepKeepsInitial(s: State, p: Probe)
    ensures Step(s, p).initial == s.initial && Step(s, p).deadline == s.deadline
  {
  }

  // ---- after confirmation, and giving up ----

  /** The processes of `owned` that every look of every probe found alive. */
  function Left(owned: set<Pid>, ps: seq<Probe>): set<Pid> {
    set pid | pid in owned && forall i :: 0 <= i < |ps| ==> pid in ps[i].live0 && pid in ps[i].live2
  }

  lemma LeftOneMore(owned: set<Pid>, ps: seq<Probe>)
    requires ps != []
    ensures Left(owned, ps) == Left(owned, ps[..|ps| - 1]) * ps[|ps| - 1].live0 * ps[|ps| - 1].live2
  {
  }

  /** Probe `i` missed a process that all probes before it had found, and so has a change to publish. */
  predicate Changes(owned: set<Pid>, ps: seq<Probe>, i: nat)
    requires i < |ps|
  {
    Left(owned, ps[..i + 1]) != Left(owned, ps[..i])
  }

  /** Probe `i` found a process gone and could not write that to the session, which was still on. */
  ghost predicate FailedChange(s: State, ps: seq<Probe>, i: nat)
    requires i < |ps|
  {
    && s.session.Some? && (forall j :: 0 <= j < i ==> ps[j].first != Stopped)
    && Changes(s.owned, ps, i) && ps[i].first == Fails
  }

  ghost predicate NoFailedChange(s: State, ps: seq<Probe>) {
    forall i: nat :: i < |ps| ==> !FailedChange(s, ps, i)
  }

  lemma NoFailedChangeOneMore(s: State, ps: seq<Probe>)
    requires ps != []
    ensures NoFailedChange(s, ps) <==> NoFailedChange(s, ps[..|ps| - 1]) && !FailedChange(s, ps, |ps| - 1)
  {
    var shorter := ps[..|ps| - 1];
    forall i: nat | i < |shorter|
      ensures FailedChange(s, ps, i) <==> FailedChange(s, shorter, i)
    {
      assert shorter[..i] == ps[..i] && shorter[..i + 1] == ps[..i + 1];
      assert forall j :: 0 <= j < i ==> shorter[j] == ps[j];
    }
  }

  /** The state a confirmation leaves: the game is owned and the session, if on, knows it. */
  ghost predicate JustConfirmed(s: State) {
    && s.confirmed && s.phase == Running && s.missing == 0 && s.owned != {} && 0 !in s.owned
    && (s.session.Some? ==> s.session.value == Publication(s.owned, false))
    && s.published != [] && s.published[|s.published| - 1] == Publication(s.owned, false)
  }

  /** The session holds what was last published, unless it was stopped. */
  ghost predicate SessionTold(s: State, ps: seq<Probe>, session: Option<Publication>) {
    if s.session.None? || exists j :: 0 <= j < |ps| && ps[j].first == Stopped then session == None
    else session == Some(Publication(Left(s.owned, ps), false))
  }

  /** The outcome of a run that began just confirmed. */
  ghost predicate RunAsConfirmed(s: State, ps: seq<Probe>, r: State) {
    && r.confirmed && r.phase != TimedOut
    && (r.phase == Faulted <==> !NoFailedChange(s, ps))
    && (r.phase == ExitStopped <==>
          |ps| >= 2 && Left(s.owned, ps[..|ps| - 1]) == {} && NoFailedChange(s, ps))
    && (r.phase == Running ==>
          && r.owned == Left(s.owned, ps) && SessionTold(s, ps, r.session)
          && r.missing == (if r.owned == {} then 1 else 0)
          && r.published != [] && |r.published| == |s.published| + |ps|
          && r.published[|r.published| - 1] == Publication(Left(s.owned, ps), false))
  }

  /** Once confirmed, the session owns exactly the processes never missed so far, publishes just
      those and no longer tolerates none.  It ends at exactly the second probe without any, unless
      a change up to then could not be written: that ends the monitor instead. */
  lemma {:induction false} ConfirmedRun(s: State, ps: seq<Probe>)
    requires JustConfirmed(s)
    ensures RunAsConfirmed(s, ps, Run(s, ps))
    decreases |ps|
  {
    if ps == [] {
      assert Left(s.owned, ps) == s.owned;
    } else {
      var shorter := ps[..|ps| - 1];
      ConfirmedRun(s, shorter);
      ConfirmedTurn(s, ps, Run(s, shorter));
    }
  }

  /** One turn with a confirmed game, of which `left` is still alive. */
  lemma WatchedTurn(r: State, p: Probe, left: set<Pid>)
    requires r.phase == Running && r.confirmed && left == r.owned * p.live0 * p.live2
    ensures var r', u := Step(r, p), Publication(left, false);
      var ends := left == {} && r.missing + 1 >= EXIT_MISSING_CHECKS;
      && r'.confirmed && r'.session == SessionAfter(r.session, u, p.first)
      && r'.published == r.published + [u]
      && r'.phase == (if WriteFails(r.session, u, p.first) then Faulted else if ends then ExitStopped else Running)
      && (r'.phase == Running ==> r'.owned == left && r'.missing == if left == {} then r.missing + 1 else 0)
  {
  }

  lemma FailsIffFailedChange(s: State, ps: seq<Probe>, session: Option<Publication>)
    requires JustConfirmed(s) && ps != [] && SessionTold(s, ps[..|ps| - 1], session)
    ensures var u, c := Publication(Left(s.owned, ps), false), ps[|ps| - 1].first;
      && (WriteFails(session, u, c) <==> FailedChange(s, ps, |ps| - 1))
      && SessionTold(s, ps, SessionAfter(session, u, c))
  {
    var shorter := ps[..|ps| - 1];
    assert ps[..|ps| - 1 + 1] == ps;
    assert Left(s.owned, ps) - {0} == Left(s.owned, ps);
    assert (exists j :: 0 <= j < |ps| && ps[j].first == Stopped) <==>
           ps[|ps| - 1].first == Stopped || exists j :: 0 <= j < |shorter| && shorter[j].first == Stopped;
  }

  lemma ConfirmedTurn(s: State, ps: seq<Probe>, r: State)
    requires JustConfirmed(s) && ps != [] && RunAsConfirmed(s, ps[..|ps| - 1], r)
    ensures RunAsConfirmed(s, ps, Step(r, ps[|ps| - 1]))
  {
    var shorter, p, left := ps[..|ps| - 1], ps[|ps| - 1], Left(s.owned, ps);
    NoFailedChangeOneMore(s, ps);
    LeftOneMore(s.owned, ps);
    LeftShrinks(s.owned, shorter);
    if r.phase == Running {
      WatchedTurn(r, p, left);
      FailsIffFailedChange(s, ps, r.session);
    } else if r.phase == ExitStopped {
      assert !Changes(s.owned, ps, |ps| - 1) by { assert ps[..|ps| - 1 + 1] == ps; }
    }
  }

  lemma LeftShrinks(owned: set<Pid>, ps: seq<Probe>)
    ensures if ps == [] then Left(owned, ps) == owned else Left(owned, ps) <= Left(owned, ps[..|ps| - 1])
  {
    if ps == [] { assert Left(owned, ps) == owned; }
  }

  // ---- what is adopted, and when it is confirmed ----

  /** The processes that a turn must not adopt: those known before, and a candidate that is gone. */
  function Barred(s: State): set<Pid> {
    if s.candidate > 0 then s.excluded + {s.candidate} else s.excluded
  }

  ghost predicate Adoptable(s: State, p: Probe, m: Found) {
    m in p.matching && m.start >= s.deadline - 602_000 && m.pid !in Barred(s)
  }

  /** The first process is gone and no relaunched one is alive. */
  predicate Seeks(s: State, p: Probe) {
    && s.phase == Running && !s.confirmed && s.waiting
    && !(s.candidate > 0 && s.candidate in s.owned && s.candidate in p.live0)
  }

  /** A turn that seeks a relaunched process adopts the one that started first, by PID among equals,
      of those that started no earlier than two seconds before the launch and were not known. */
  lemma AdoptsEarliest(s: State, p: Probe, m: Found)
    requires Seeks(s, p) && m.pid != 0 && Adoptable(s, p, m)
    requires forall other :: Adoptable(s, p, other) ==>
      m.start < other.start || (m.start == other.start && m.pid <= other.pid)
    ensures Step(s, p).adopted == s.adopted + [m.pid] && Step(s, p).candidate == m.pid
    ensures m.pid in p.live1 * p.live2 && Step(s, p).phase == Running ==> m.pid in Step(s, p).owned
  {
    var found := NewMatching(p.matching, Since(s), Barred(s));
    assert Eligible(m, Since(s), Barred(s)) && m in found;
    assert Adoptable(s, p, found[0]) by { assert found[0] in found; }
    assert Before(found[0], m);
    FollowsAdopt(s, p);
  }

  /** Nothing is adopted by any other turn, or when there is nothing to adopt. */
  lemma AdoptsNothingElse(s: State, p: Probe)
    requires !Seeks(s, p) || forall m :: !Adoptable(s, p, m)
    ensures Step(s, p).adopted == s.adopted
  {
    if Seeks(s, p) {
      var found := NewMatching(p.matching, Since(s), Barred(s));
      if found != [] {
        assert found[0] in found && Adoptable(s, p, found[0]);
      }
      FollowsAdopt(s, p);
    }
  }

  lemma FollowsAdopt(s: State, p: Probe)
    requires Seeks(s, p)
    ensures var a := Adopt(s.(owned := s.owned * p.live0), p);
      && Step(s, p).adopted == a.adopted && Step(s, p).candidate == a.candidate
      && (Step(s, p).phase == Running ==> Step(s, p).owned == a.owned * p.live2)
  {
  }

  /** A launch not yet confirmed seeks a relaunched process exactly if some probe has missed the
      first one. */
  lemma {:induction false} SeeksIffFirstMissed(initial: Pid, launchedAt: int, preExisting: set<Pid>,
                                               session: Option<Publication>, ps: seq<Probe>)
    ensures var r := Run(Start(initial, launchedAt, preExisting, session), ps);
      r.phase == Running && !r.confirmed ==>
        && (r.waiting <==> exists i :: 0 <= i < |ps| && initial !in ps[i].live0)
        && (!r.waiting ==> initial in r.owned && r.owned <= {initial})
    decreases |ps|
  {
    if ps != [] {
      var s0, shorter := Start(initial, launchedAt, preExisting, session), ps[..|ps| - 1];
      SeeksIffFirstMissed(initial, launchedAt, preExisting, session, shorter);
      InitialStays(s0, shorter);
      var r := Run(s0, shorter);
      MissedOneMore(initial, ps);
      ConfirmedStays(r, ps[|ps| - 1]);
      if r.phase == Running && !r.confirmed { WaitsOnceMissed(r, ps[|ps| - 1]); }
    }
  }

  lemma MissedOneMore(initial: Pid, ps: seq<Probe>)
    requires ps != []
    ensures var shorter := ps[..|ps| - 1];
      (exists i :: 0 <= i < |ps| && initial !in ps[i].live0) <==>
        (exists i :: 0 <= i < |shorter| && initial !in shorter[i].live0) || initial !in ps[|ps| - 1].live0
  {
    var shorter := ps[..|ps| - 1];
    if i :| 0 <= i < |shorter| && initial !in shorter[i].live0 {
      assert initial !in ps[i].live0;
    }
  }

  lemma WaitsOnceMissed(s: State, p: Probe)
    requires s.phase == Running && !s.confirmed && (!s.waiting ==> s.initial in s.owned && s.owned <= {s.initial})
    ensures var s' := Step(s, p);
      s'.phase == Running && !s'.confirmed ==>
        && (s'.waiting <==> s.waiting || s.initial !in p.live0)
        && (!s'.waiting ==> s.initial in s'.owned && s'.owned <= {s.initial})
  {
  }

  /** Every probe finds the watched process alive, none comes late, and every write works. */
  ghost predicate Undisturbed(s: State, ps: seq<Probe>) {
    && (forall i :: 0 <= i < |ps| ==> Watched(s) in ps[i].live0 && (s.waiting ==> Watched(s) in ps[i].live2))
    && (forall i :: 0 <= i < |ps| ==> ps[i].t2 < s.deadline)
    && NoFailure(s, ps)
  }

  /** When the process that is being watched was first seen. */
  function FirstSeen(s: State, ps: seq<Probe>): int
    requires ps != []
  {
    if s.stableSince.Some? then s.stableSince.value else ps[0].t0
  }

  ghost predicate LongEnough(s: State, ps: seq<Probe>) {
    exists i :: 0 <= i < |ps| && ps[i].t1 - FirstSeen(s, ps) >= if s.waiting then 4_000 else 20_000
  }

  /** A process that stays alive is confirmed, and exactly once it has been watched for 20 seconds,
      or 4 if it was relaunched. */
  lemma {:induction false} StableProcessIsConfirmed(s: State, ps: seq<Probe>)
    requires s.phase == Running && !s.confirmed && ps != []
    requires Watched(s) in s.owned && (s.waiting ==> s.candidate > 0) && Undisturbed(s, ps)
    ensures var r := Run(s, ps);
      && (r.confirmed <==> LongEnough(s, ps))
      && Watching(s, ps, r)
    decreases |ps|
  {
    var shorter, p := ps[..|ps| - 1], ps[|ps| - 1];
    var r := Run(s, shorter);
    if shorter != [] {
      assert forall i :: 0 <= i < |shorter| ==> shorter[i] == ps[i];
      StableProcessIsConfirmed(s, shorter);
    }
    ConfirmedStays(r, p);
    if !r.confirmed { WatchedStep(r, p); }
    LongEnoughOneMore(s, ps);
    WatchedOneMore(s, ps, r, Step(r, p));
  }

  ghost predicate StillWatched(s: State, r: State) {
    && r.phase == Running && r.waiting == s.waiting && r.initial == s.initial && r.candidate == s.candidate
    && r.deadline == s.deadline && Watched(s) in r.owned
  }

  lemma LongEnoughOneMore(s: State, ps: seq<Probe>)
    requires ps != []
    ensures var last := ps[|ps| - 1].t1 - FirstSeen(s, ps) >= if s.waiting then 4_000 else 20_000;
      LongEnough(s, ps) <==> (|ps| > 1 && LongEnough(s, ps[..|ps| - 1])) || last
  {
    var shorter := ps[..|ps| - 1];
    if |ps| > 1 && LongEnough(s, shorter) {
      var i :| 0 <= i < |shorter| && shorter[i].t1 - FirstSeen(s, shorter) >= if s.waiting then 4_000 else 20_000;
      assert ps[i] == shorter[i];
    }
  }

  /** One turn that finds the watched process alive. */
  ghost predicate WatchedWell(s: State, p: Probe, s': State) {
    var since := Or(s.stableSince, p.t0);
    if p.t1 - since >= (if s.waiting then 4_000 else 20_000) then s'.confirmed
    else !s'.confirmed && StillWatched(s, s') && s'.stableSince == Some(since)
  }

  lemma InitialWatched(s: State, p: Probe)
    requires s.phase == Running && !s.confirmed && !s.waiting && s.initial in s.owned && s.initial in p.live0
    requires Step(s, p).phase != Faulted && p.t2 < s.deadline
    ensures WatchedWell(s, p, Step(s, p))
  {
  }

  lemma RelaunchedWatched(s: State, p: Probe)
    requires s.phase == Running && !s.confirmed && s.waiting && s.candidate > 0 && s.candidate in s.owned
    requires s.candidate in p.live0 && s.candidate in p.live2
    requires Step(s, p).phase != Faulted && p.t2 < s.deadline
    ensures WatchedWell(s, p, Step(s, p))
  {
  }

  lemma WatchedStep(s: State, p: Probe)
    requires s.phase == Running && !s.confirmed && Watched(s) in s.owned && (s.waiting ==> s.candidate > 0)
    requires Watched(s) in p.live0 && (s.waiting ==> Watched(s) in p.live2)
    requires !TurnFails(s, p) && p.t2 < s.deadline
    ensures WatchedWell(s, p, Step(s, p))
  {
    FaultsIffWriteFails(s, p);
    if s.waiting { RelaunchedWatched(s, p); } else { InitialWatched(s, p); }
  }

  /** A run that is still watching, or has confirmed. */
  ghost predicate Watching(s: State, ps: seq<Probe>, r: State) {
    if ps == [] then r == s
    else !r.confirmed ==> StillWatched(s, r) && r.stableSince == Some(FirstSeen(s, ps))
  }

  lemma WatchedOneMore(s: State, ps: seq<Probe>, r: State, r': State)
    requires ps != [] && s.phase == Running && !s.confirmed && Watched(s) in s.owned
    requires Watching(s, ps[..|ps| - 1], r)
    requires if r.confirmed then r'.confirmed else WatchedWell(r, ps[|ps| - 1], r')
    ensures Watching(s, ps, r')
    ensures r'.confirmed <==>
      r.confirmed || ps[|ps| - 1].t1 - FirstSeen(s, ps) >= if s.waiting then 4_000 else 20_000
  {
    assert |ps| > 1 ==> ps[..|ps| - 1][0] == ps[0];
  }

  // ---- from the launch to the end ----

  lemma {:induction false} RunSplits(s: State, before: seq<Probe>, after: seq<Probe>)
    ensures Run(s, before + after) == Run(Run(s, before), after)
    decreases |after|
  {
    var ps := before + after;
    if after == [] {
      assert ps == before;
    } else {
      assert ps[..|ps| - 1] == before + after[..|after| - 1];
      RunSplits(s, before, after[..|after| - 1]);
    }
  }

  /** What the launch has told the session: before confirmation only updates that tolerate an
      empty list, afterwards exactly the processes still owned, and that they are required. */
  ghost predicate Told(s: State) {
    && (!s.confirmed ==> forall i :: 0 <= i < |s.published| ==> s.published[i].allowEmpty)
    && (s.confirmed ==> s.phase != TimedOut)
    && (s.confirmed && s.phase != ExitStopped ==>
          s.published != [] && s.published[|s.published| - 1] == Publication(s.owned, false))
  }

  /** The state a launch begins with. */
  ghost predicate Unstarted(s: State) {
    exists launchedAt, preExisting :: s == Start(s.initial, launchedAt, preExisting, s.session)
  }

  lemma StepTells(s: State, p: Probe)
    requires Told(s)
    ensures Told(Step(s, p))
  {
    if s.phase == Running && s.confirmed {
      WatchedTurn(s, p, s.owned * p.live0 * p.live2);
    }
  }

  lemma {:induction false} TellsSession(s: State, ps: seq<Probe>)
    requires Told(s)
    ensures Told(Run(s, ps))
    decreases |ps|
  {
    if ps != [] {
      TellsSession(s, ps[..|ps| - 1]);
      StepTells(Run(s, ps[..|ps| - 1]), ps[|ps| - 1]);
    }
  }

  /** The turn that confirms the game also tells a session that is on. */
  lemma ConfirmingTurn(s: State, p: Probe)
    requires s.phase == Running && !s.confirmed && Step(s, p).confirmed
    ensures var s' := Step(s, p);
      s'.session.Some? ==> s'.session.value == Normal(Publication(s'.owned, false))
  {
  }

  lemma NoZeroOwned(s: State, preExisting: set<Pid>)
    requires OnlyAuthorised(s, preExisting) && s.initial > 0
    ensures 0 !in s.owned && Normal(Publication(s.owned, false)) == Publication(s.owned, false)
  {
    assert 0 !in Authorised(s);
  }

  lemma JustConfirmedAt(s0: State, launchedAt: int, preExisting: set<Pid>, session: Option<Publication>,
                        ps: seq<Probe>, s: State)
    requires s0 == Start(s0.initial, launchedAt, preExisting, session) && s0.initial > 0
    requires ps != [] && ConfirmedAt(s0, ps, |ps| - 1) && s == Run(s0, ps) && s.phase == Running
    ensures JustConfirmed(s)
  {
    assert ps[..|ps| - 1 + 1] == ps;
    ConfirmedStays(Run(s0, ps[..|ps| - 1]), ps[|ps| - 1]);
    ConfirmingTurn(Run(s0, ps[..|ps| - 1]), ps[|ps| - 1]);
    TellsSession(s0, ps);
    PublishesOnlyItsOwn(s0.initial, launchedAt, preExisting, session, ps);
    InitialStays(s0, ps);
    NoZeroOwned(s, preExisting);
  }

  /** A launch whose probe `n` confirmed the game, and told the session so, goes on from there as
      ConfirmedRun says. */
  lemma ConfirmedLaunch(s0: State, launchedAt: int, preExisting: set<Pid>, session: Option<Publication>,
                        ps: seq<Probe>, n: nat, s: State)
    requires s0 == Start(s0.initial, launchedAt, preExisting, session) && s0.initial > 0
    requires n < |ps| && ConfirmedAt(s0, ps, n) && s == Run(s0, ps[..n + 1]) && s.phase == Running
    ensures JustConfirmed(s) && RunAsConfirmed(s, ps[n + 1..], Run(s0, ps))
  {
    var upTo, after := ps[..n + 1], ps[n + 1..];
    assert upTo[..n] == ps[..n] && upTo[..n + 1] == upTo && upTo + after == ps;
    JustConfirmedAt(s0, launchedAt, preExisting, session, upTo, s);
    ConfirmedRun(s, after);
    RunSplits(s0, upTo, after);
  }

  /** One look that finds exactly `alive`, with an update that fares as `c` says. */
  function Look(alive: set<Pid>, now: int, c: Call): Probe {
    Probe(alive, alive, alive, [], now, now, now, c, Works)
  }

  function LaunchOf(pid: Pid): State { Start(pid, 0, {}, Some(Publication({pid}, true))) }

  /** A heartbeat file that stays locked while a confirmed game goes away ends the monitor: no
      later probe stops the session, although none finds a process. */
  lemma LockedFileHidesExit(pid: Pid, later: seq<Probe>)
    requires pid > 0
    ensures var ps := [Look({pid}, 0, Works), Look({pid}, 20_000, Works), Look({}, 21_000, Fails)] + later;
      Run(LaunchOf(pid), ps).confirmed && Run(LaunchOf(pid), ps).phase == Faulted
  {
    var a, b := Look({pid}, 0, Works), Look({pid}, 20_000, Works);
    var gone := [Look({}, 21_000, Fails)] + later;
    var s1 := Step(LaunchOf(pid), a);
    assert {pid} * {pid} == {pid} && {pid} - {0} == {pid};
    assert s1 == LaunchOf(pid).(stableSince := Some(0), published := [Publication({pid}, true)]);
    var s := Step(s1, b);
    assert s.published[|s.published| - 1] == Publication({pid}, false);
    assert JustConfirmed(s);
    assert [a, b][..1] == [a] && [a][..0] == [];
    assert Run(LaunchOf(pid), [a]) == s1 && Run(LaunchOf(pid), [a, b]) == s;
    assert Left({pid}, gone[..0]) == {pid};
    assert pid !in Left({pid}, gone[..1]) by { assert gone[..1][0] == gone[0]; }
    assert FailedChange(s, gone, 0);
    ConfirmedRun(s, gone);
    RunSplits(LaunchOf(pid), [a, b], gone);
    assert [a, b] + gone == [a, b, Look({}, 21_000, Fails)] + later;
  }

  /** The same before confirmation: the launch is never given up, however late it gets. */
  lemma LockedFileHidesDeadline(pid: Pid, later: seq<Probe>)
    requires pid > 0
    ensures var ps := [Look({}, 0, Fails)] + later;
      !Run(LaunchOf(pid), ps).confirmed && Run(LaunchOf(pid), ps).phase == Faulted
  {
    var p := Look({}, 0, Fails);
    assert [p][..0] == [] && Publication({pid}, true).pids != {};
    assert Run(LaunchOf(pid), [p]) == Step(LaunchOf(pid), p);
    RunSplits(LaunchOf(pid), [p], later);
    EndedStays(Run(LaunchOf(pid), [p]), later);
  }

  lemma {:induction false} EndedStays(s: State, ps: seq<Probe>)
    requires s.phase != Running
    ensures Run(s, ps) == s
    decreases |ps|
  {
    if ps != [] { EndedStays(s, ps[..|ps| - 1]); }
  }

  // ---- giving up ----

  /** The updates a turn passes on, if none of them throws. */
  function Updates(s: State, p: Probe): seq<Publication> {
    var live := s.owned * p.live0;
    if s.confirmed then [Publication(live * p.live2, false)]
    else if s.waiting then
      var owned := if s.candidate > 0 && s.candidate in live then live * p.live2
                   else Adopt(s.(owned := live), p).owned * p.live2;
      [Publication(owned, true)] + if Confirms(s, p) then [Publication(owned, false)] else []
    else if s.initial in live then
      [Publication(live, true)] + if Confirms(s, p) then [Publication(live, false)] else []
    else [Publication(live, true), Publication({}, true)]
  }

  /** The process a turn watches is alive at the turn's last look, and has been for long enough. */
  predicate Confirms(s: State, p: Probe) {
    var live := s.owned * p.live0;
    if !s.waiting then
      s.initial in live && p.t1 - Or(s.stableSince, p.t0) >= GAME_STABLE_MS
    else if s.candidate > 0 && s.candidate in live then
      s.candidate in p.live2 && p.t1 - Or(s.stableSince, p.t0) >= RELAUNCH_STABLE_MS
    else
      var a := Adopt(s.(owned := live), p);
      a.candidate > 0 && a.candidate in a.owned * p.live2 && p.t1 - Or(a.stableSince, p.t0) >= RELAUNCH_STABLE_MS
  }

  function Or(since: Option<int>, otherwise: int): int {
    if since.Some? then since.value else otherwise
  }

  /** One of the turn's updates changes a session that is still on and cannot be written. */
  predicate TurnFails(s: State, p: Probe) {
    var us := Updates(s, p);
    || WriteFails(s.session, us[0], p.first)
    || (|us| > 1 && WriteFails(SessionAfter(s.session, us[0], p.first), us[1], p.second))
  }

  /** A turn is cut short exactly by a failing write; what it passed on was told in order. */
  lemma FaultsIffWriteFails(s: State, p: Probe)
    requires s.phase == Running
    ensures Step(s, p).phase == Faulted <==> TurnFails(s, p)
    ensures Step(s, p).published == s.published +
      if WriteFails(s.session, Updates(s, p)[0], p.first) then Updates(s, p)[..1] else Updates(s, p)
  {
    if !s.confirmed {
      if s.waiting { RelaunchUpdates(s, p); } else { InitialUpdates(s, p); }
    }
  }

  lemma InitialUpdates(s: State, p: Probe)
    requires s.phase == Running && !s.confirmed && !s.waiting
    ensures var r := AwaitInitial(s.(owned := s.owned * p.live0), p);
      && (r.phase == Faulted <==> TurnFails(s, p))
      && r.published == s.published +
           if WriteFails(s.session, Updates(s, p)[0], p.first) then Updates(s, p)[..1] else Updates(s, p)
  {
  }

  lemma RelaunchUpdates(s: State, p: Probe)
    requires s.phase == Running && !s.confirmed && s.waiting
    ensures var r := AwaitRelaunch(s.(owned := s.owned * p.live0), p);
      && (r.phase == Faulted <==> TurnFails(s, p))
      && r.published == s.published +
           if WriteFails(s.session, Updates(s, p)[0], p.first) then Updates(s, p)[..1] else Updates(s, p)
  {
    var s0 := s.(owned := s.owned * p.live0);
    var a := if s0.candidate > 0 && s0.candidate in s0.owned then s0 else Adopt(s0, p);
    assert a.session == s.session && a.published == s.published && a.phase == Running && !a.confirmed;
    var u := Publication(a.owned * p.live2, true);
    assert Updates(s, p)[0] == u;
    var b := Publish(a.(owned := a.owned * p.live2), u, p.first);
    assert b.published == s.published + [u];
  }

  // ---- the calls of a run ----

  /** One call of UpdateGameSession and what became of it. */
  datatype Said = Said(update: Publication, outcome: Call)

  /** What `calls` make of a session, whoever makes them. */
  function SessionAfterAll(session: Option<Publication>, calls: seq<Said>): Option<Publication>
    decreases |calls|
  {
    if calls == [] then session
    else
      var last := calls[|calls| - 1];
      SessionAfter(SessionAfterAll(session, calls[..|calls| - 1]), last.update, last.outcome)
  }

  /** Some call changes the session it meets and cannot be written. */
  predicate SomeCallFails(session: Option<Publication>, calls: seq<Said>)
    decreases |calls|
  {
    calls != [] &&
      var shorter, last := calls[..|calls| - 1], calls[|calls| - 1];
      SomeCallFails(session, shorter) || WriteFails(SessionAfterAll(session, shorter), last.update, last.outcome)
  }

  lemma {:induction false} CallsSplit(session: Option<Publication>, calls: seq<Said>, more: seq<Said>)
    ensures SessionAfterAll(session, calls + more) == SessionAfterAll(SessionAfterAll(session, calls), more)
    ensures SomeCallFails(session, calls + more) <==>
      SomeCallFails(session, calls) || SomeCallFails(SessionAfterAll(session, calls), more)
    decreases |more|
  {
    if more == [] {
      assert calls + more == calls;
    } else {
      assert (calls + more)[..|calls + more| - 1] == calls + more[..|more| - 1];
      CallsSplit(session, calls, more[..|more| - 1]);
    }
  }

  /** The calls of one turn: none after one that throws. */
  function CallsOfTurn(s: State, p: Probe): seq<Said> {
    var us := Updates(s, p);
    if s.phase != Running then []
    else if |us| == 1 || WriteFails(s.session, us[0], p.first) then [Said(us[0], p.first)]
    else [Said(us[0], p.first), Said(us[1], p.second)]
  }

  function Calls(s: State, ps: seq<Probe>): seq<Said>
    decreases |ps|
  {
    if ps == [] then []
    else Calls(s, ps[..|ps| - 1]) + CallsOfTurn(Run(s, ps[..|ps| - 1]), ps[|ps| - 1])
  }

  lemma TurnCalls(s: State, p: Probe)
    requires s.phase == Running
    ensures Step(s, p).session == SessionAfterAll(s.session, CallsOfTurn(s, p))
    ensures Step(s, p).phase == Faulted <==> SomeCallFails(s.session, CallsOfTurn(s, p))
  {
    FaultsIffWriteFails(s, p);
    var us := Updates(s, p);
    OneCall(s.session, us[0], p.first);
    if |us| > 1 { TwoCalls(s.session, us[0], p.first, us[1], p.second); }
    TurnSession(s, p);
  }

  lemma OneCall(session: Option<Publication>, u: Publication, c: Call)
    ensures SessionAfterAll(session, [Said(u, c)]) == SessionAfter(session, u, c)
    ensures SomeCallFails(session, [Said(u, c)]) <==> WriteFails(session, u, c)
  {
    assert [Said(u, c)][..0] == [];
  }

  lemma TwoCalls(session: Option<Publication>, u: Publication, c: Call, u': Publication, c': Call)
    ensures var calls, next := [Said(u, c), Said(u', c')], SessionAfter(session, u, c);
      && SessionAfterAll(session, calls) == SessionAfter(next, u', c')
      && (SomeCallFails(session, calls) <==> WriteFails(session, u, c) || WriteFails(next, u', c'))
  {
    assert [Said(u, c), Said(u', c')][..1] == [Said(u, c)];
    OneCall(session, u, c);
  }

  lemma TurnSession(s: State, p: Probe)
    requires s.phase == Running
    ensures var us, next := Updates(s, p), SessionAfter(s.session, Updates(s, p)[0], p.first);
      Step(s, p).session ==
        if |us| == 1 || WriteFails(s.session, us[0], p.first) then next else SessionAfter(next, us[1], p.second)
  {
    if !s.confirmed && s.waiting {
      var s0 := s.(owned := s.owned * p.live0);
      var a := if s0.candidate > 0 && s0.candidate in s0.owned then s0 else Adopt(s0, p);
      assert a.session == s.session && a.phase == Running && !a.confirmed;
      assert Updates(s, p)[0] == Publication(a.owned * p.live2, true);
    }
  }

  /** The monitor's picture of the session is what its calls made of it, and it is gone exactly
      when one of them threw. */
  lemma {:induction false} SessionOfRun(s: State, ps: seq<Probe>)
    requires s.phase == Running
    ensures Run(s, ps).session == SessionAfterAll(s.session, Calls(s, ps))
    ensures Run(s, ps).phase == Faulted <==> SomeCallFails(s.session, Calls(s, ps))
    decreases |ps|
  {
    if ps != [] {
      var shorter, p := ps[..|ps| - 1], ps[|ps| - 1];
      var r := Run(s, shorter);
      SessionOfRun(s, shorter);
      CallsSplit(s.session, Calls(s, shorter), CallsOfTurn(r, p));
      if r.phase == Running {
        TurnCalls(r, p);
      } else {
        EndedStep(r, p);
      }
    }
  }

  lemma EndedStep(s: State, p: Probe)
    requires s.phase != Running
    ensures Step(s, p) == s && CallsOfTurn(s, p) == []
  {
  }

  lemma LateStep(s: State, p: Probe)
    ensures var s' := Step(s, p);
      && (s'.phase == TimedOut <==>
            s.phase == TimedOut || (s.phase == Running && !TurnFails(s, p) && !s'.confirmed && p.t2 >= s.deadline))
      && (s'.phase == Faulted <==> s.phase == Faulted || (s.phase == Running && TurnFails(s, p)))
      && (s'.phase == ExitStopped && s.phase == Running ==> s.confirmed)
      && (s.phase != Running ==> s' == s)
      && (s.confirmed ==> s'.confirmed)
  {
    if s.phase == Running { FaultsIffWriteFails(s, p); }
  }

  /** No update up to the end of `ps` failed to be written. */
  predicate NoFailure(s: State, ps: seq<Probe>)
    decreases |ps|
  {
    ps == [] || (NoFailure(s, ps[..|ps| - 1]) && !TurnFails(Run(s, ps[..|ps| - 1]), ps[|ps| - 1]))
  }

  /** Probe `n` came past the deadline and left the launch unconfirmed, no update having failed. */
  ghost predicate LateAt(s: State, ps: seq<Probe>, n: nat)
    requires n < |ps|
  {
    !Run(s, ps[..n + 1]).confirmed && ps[n].t2 >= s.deadline && NoFailure(s, ps[..n + 1])
  }

  lemma LateInPrefix(s: State, ps: seq<Probe>, n: nat)
    requires n < |ps| - 1
    ensures LateAt(s, ps, n) <==> LateAt(s, ps[..|ps| - 1], n)
  {
    assert ps[..|ps| - 1][..n + 1] == ps[..n + 1];
  }

  lemma {:induction false} PhasesAgree(s: State, ps: seq<Probe>)
    requires !s.confirmed && s.phase == Running
    ensures Run(s, ps).phase == TimedOut ==> !Run(s, ps).confirmed
    ensures Run(s, ps).phase == ExitStopped ==> Run(s, ps).confirmed
    ensures NoFailure(s, ps) ==> Run(s, ps).phase != Faulted
    ensures Run(s, ps).phase == Running ==> NoFailure(s, ps)
    decreases |ps|
  {
    if ps != [] {
      PhasesAgree(s, ps[..|ps| - 1]);
      LateStep(Run(s, ps[..|ps| - 1]), ps[|ps| - 1]);
    }
  }

  lemma LateLast(s: State, ps: seq<Probe>, r: State)
    requires !s.confirmed && s.phase == Running && ps != [] && r == Run(s, ps[..|ps| - 1])
    ensures Run(s, ps).phase == TimedOut <==> r.phase == TimedOut || LateAt(s, ps, |ps| - 1)
  {
    assert ps[..|ps| - 1 + 1] == ps;
    InitialStays(s, ps[..|ps| - 1]);
    PhasesAgree(s, ps[..|ps| - 1]);
    LateStep(r, ps[|ps| - 1]);
  }

  ghost predicate GaveUp(s: State, ps: seq<Probe>) {
    exists n: nat :: n < |ps| && LateAt(s, ps, n)
  }

  lemma GaveUpOneMore(s: State, ps: seq<Probe>)
    requires ps != []
    ensures GaveUp(s, ps) <==> GaveUp(s, ps[..|ps| - 1]) || LateAt(s, ps, |ps| - 1)
  {
    var shorter := ps[..|ps| - 1];
    forall n: nat | n < |shorter|
      ensures LateAt(s, ps, n) <==> LateAt(s, shorter, n)
    {
      LateInPrefix(s, ps, n);
    }
    if GaveUp(s, shorter) {
      var n: nat :| n < |shorter| && LateAt(s, shorter, n);
      assert LateAt(s, ps, n);
    }
  }

  /** An unconfirmed launch is given up at the first probe past the deadline, and only then, unless
      an update before could not be written. */
  lemma {:induction false} GivesUpPastDeadline(s: State, ps: seq<Probe>)
    requires !s.confirmed && s.phase == Running
    ensures Run(s, ps).phase == TimedOut <==> GaveUp(s, ps)
    decreases |ps|
  {
    if ps != [] {
      GivesUpPastDeadline(s, ps[..|ps| - 1]);
      LateLast(s, ps, Run(s, ps[..|ps| - 1]));
      GaveUpOneMore(s, ps);
    }
  }
}
