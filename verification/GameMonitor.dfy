/** The launcher's game monitor: which processes it owns, when it takes the game for running,
    and what it publishes to the Route Guard session.  Times are milliseconds. */
module GameMonitors {
  import opened Common

  const GAME_STABLE_MS := 20_000
  const RELAUNCH_STABLE_MS := 4_000
  const EXIT_MISSING_CHECKS := 2
  const LAUNCH_TIMEOUT_MS := 600_000

  const START_SLACK_MS := 2_000

  /** A process of the selected game, as a scan finds it. */
  datatype Found = Found(pid: Pid, start: int)

  /** What becomes of a call of UpdateGameSession: the write it may need works or fails, or the
      session has been stopped by then and the call is ignored. */
  datatype Call = Works | Fails | Stopped

  /** What one turn of the loop sees.  `live0`, `live1` and `live2` are the processes found alive
      by its successive looks at the owned PIDs, `matching` the processes of the selected game in
      any order, `t0 <= t1 <= t2` its readings of the clock, and `first` and `second` the outcomes
      of the at most two updates it passes on. */
  datatype Probe = Probe(live0: set<Pid>, live1: set<Pid>, live2: set<Pid>, matching: seq<Found>,
                         t0: int, t1: int, t2: int, first: Call, second: Call)

  /** A monitor that a failed write has ended is Faulted: its task is gone without a trace. */
  datatype Phase = Running | ExitStopped | TimedOut | Faulted

  /** The arguments of one call of UpdateGameSession, and what a session holds. */
  datatype Publication = Publication(pids: set<Pid>, allowEmpty: bool)

  datatype State = State(initial: Pid, deadline: int, owned: set<Pid>, excluded: set<Pid>, stableSince: Option<int>,
                         candidate: Pid, waiting: bool, confirmed: bool, missing: nat, phase: Phase,
                         adopted: seq<Pid>, session: Option<Publication>, published: seq<Publication>)

  /** `session` is None when the launcher runs the game without a Route Guard session. */
  function Start(initial: Pid, launchedAt: int, preExisting: set<Pid>, session: Option<Publication>): State {
    State(initial, launchedAt + LAUNCH_TIMEOUT_MS, {initial}, preExisting, None, 0, false, false, 0, Running,
          [], session, [])
  }

  // ---- looking for a relaunched process ----

  /** The earlier start first, then the smaller PID. */
  predicate Before(a: Found, b: Found) {
    a.start < b.start || (a.start == b.start && a.pid <= b.pid)
  }

  ghost predicate InOrder(ms: seq<Found>) {
    forall i, j :: 0 <= i < j < |ms| ==> Before(ms[i], ms[j])
  }

  function Insert(m: Found, ms: seq<Found>): (r: seq<Found>)
    ensures forall x :: x in r <==> x in ms || x == m
    ensures InOrder(ms) ==> InOrder(r)
  {
    if ms == [] || Before(m, ms[0]) then [m] + ms
    else
      var rest := Insert(m, ms[1..]);
      assert ms == [ms[0]] + ms[1..];
      assert InOrder(ms) ==> forall x :: x in ms[1..] ==> Before(ms[0], x);
      assert forall j :: 0 <= j < |rest| ==> rest[j] in rest;
      [ms[0]] + rest
  }

  predicate Eligible(m: Found, since: int, excluded: set<Pid>) {
    m.start >= since && m.pid !in excluded
  }

  /** FindNewMatchingProcessIds: the matching processes that started in time and are not excluded. */
  function NewMatching(matching: seq<Found>, since: int, excluded: set<Pid>): (r: seq<Found>)
    ensures InOrder(r)
    ensures forall m :: m in r <==> m in matching && Eligible(m, since, excluded)
  {
    if matching == [] then []
    else
      var rest := NewMatching(matching[1..], since, excluded);
      assert matching == [matching[0]] + matching[1..];
      if !Eligible(matching[0], since, excluded) then rest
      else Insert(matching[0], rest)
  }

  function Since(s: State): int { s.deadline - LAUNCH_TIMEOUT_MS - START_SLACK_MS }

  // ---- one turn ----

  /** What a session stores of an update. */
  function Normal(u: Publication): Publication { u.(pids := u.pids - {0}) }

  /** The session that a call meets. */
  function Held(session: Option<Publication>, c: Call): Option<Publication> {
    if c == Stopped then None else session
  }

  /** Only a changed update is written, and only that can fail. */
  predicate WriteFails(session: Option<Publication>, u: Publication, c: Call) {
    Held(session, c).Some? && session.value != Normal(u) && c == Fails
  }

  function SessionAfter(session: Option<Publication>, u: Publication, c: Call): Option<Publication> {
    if Held(session, c).None? then None else Some(Normal(u))
  }

  /** A call of UpdateGameSession; when its write fails the exception ends the monitor. */
  function Publish(s: State, u: Publication, c: Call): State {
    s.(published := s.published + [u], session := SessionAfter(s.session, u, c),
       phase := if WriteFails(s.session, u, c) then Faulted else s.phase)
  }

  /** The launcher still waits for the process it started itself. */
  function AwaitInitial(s: State, p: Probe): State {
    var s := Publish(s, Publication(s.owned, true), p.first);
    if s.phase == Faulted then s
    else if s.initial in s.owned then Confirm(s, p, GAME_STABLE_MS)
    else Publish(s.(waiting := true, stableSince := None), Publication({}, true), p.second)
  }

  /** The watched process is alive: it counts as the game once it has been for long enough. */
  function Confirm(s: State, p: Probe, stableMs: int): State {
    var since := if s.stableSince.Some? then s.stableSince.value else p.t0;
    var s := s.(stableSince := Some(since));
    if p.t1 - since >= stableMs then Publish(s.(confirmed := true), Publication(s.owned, false), p.second) else s
  }

  /** No live candidate: forget the last one and adopt the first new matching process. */
  function Adopt(s: State, p: Probe): State {
    var s := if s.candidate > 0
             then s.(excluded := s.excluded + {s.candidate}, candidate := 0, stableSince := None)
             else s;
    var found := NewMatching(p.matching, Since(s), s.excluded);
    if found == [] || found[0].pid == 0 then s
    else s.(candidate := found[0].pid, excluded := s.excluded + {found[0].pid}, stableSince := Some(p.t0),
            owned := (s.owned + {found[0].pid}) * p.live1, adopted := s.adopted + [found[0].pid])
  }

  /** The first process is gone; a relaunched one is adopted and watched. */
  function AwaitRelaunch(s: State, p: Probe): State {
    var s := if s.candidate > 0 && s.candidate in s.owned then s else Adopt(s, p);
    var s := s.(owned := s.owned * p.live2);
    var s := Publish(s, Publication(s.owned, true), p.first);
    if s.phase != Faulted && s.candidate > 0 && s.candidate in s.owned then Confirm(s, p, RELAUNCH_STABLE_MS) else s
  }

  /** The game counts as running; two looks without it end the session. */
  function WatchRunning(s: State, p: Probe): State {
    var s := s.(owned := s.owned * p.live2);
    var s := Publish(s, Publication(s.owned, false), p.first);
    if s.phase == Faulted then s
    else if s.owned != {} then s.(missing := 0)
    else
      var s := s.(missing := s.missing + 1);
      if s.missing >= EXIT_MISSING_CHECKS then s.(phase := ExitStopped, owned := {}) else s
  }

  /** One turn of the monitor loop. */
  function Step(s: State, p: Probe): State {
    if s.phase != Running then s
    else
      var s := s.(owned := s.owned * p.live0);
      if s.confirmed then WatchRunning(s, p)
      else
        var s := if s.waiting then AwaitRelaunch(s, p) else AwaitInitial(s, p);
        if s.phase == Running && !s.confirmed && p.t2 >= s.deadline then s.(phase := TimedOut, owned := {}) else s
  }

  function Run(s: State, ps: seq<Probe>): State
    decreases |ps|
  {
    if ps == [] then s else Step(Run(s, ps[..|ps| - 1]), ps[|ps| - 1])
  }

  /** The monitor as the launcher runs it: one object updated by every turn of the loop. */
  class GameMonitor {
    const initial: Pid
    const deadline: int
    var owned: set<Pid>
    var excluded: set<Pid>
    var stableSince: Option<int>
    var candidate: Pid
    var waiting: bool
    var confirmed: bool
    var missing: nat
    var phase: Phase
    var adopted: seq<Pid>
    /** What the Route Guard session holds, while there is one. */
    var session: Option<Publication>
    var published: seq<Publication>

    function View(): State reads this {
      State(initial, deadline, owned, excluded, stableSince, candidate, waiting, confirmed, missing, phase,
            adopted, session, published)
    }

    constructor (initial: Pid, launchedAt: int, preExisting: set<Pid>, session: Option<Publication>)
      ensures View() == Start(initial, launchedAt, preExisting, session)
    {
      this.initial, deadline := initial, launchedAt + LAUNCH_TIMEOUT_MS;
      owned, excluded, stableSince, candidate := {initial}, preExisting, None, 0;
      waiting, confirmed, missing, phase, adopted := false, false, 0, Running, [];
      this.session, published := session, [];
    }

    /** GetLiveLauncherOwnedGamePids: drops the owned processes that are gone. */
    method DropDead(alive: set<Pid>)
      modifies this`owned
      ensures owned == old(owned) * alive
    {
      var left := owned;
      while left != {}
        invariant left <= owned && owned + left == owned
        invariant owned == old(owned) * alive + left
        invariant left <= old(owned)
      {
        var pid :| pid in left;
        left := left - {pid};
        if pid !in alive {
          owned := owned - {pid};
        }
      }
    }

    /** A call of ProcessRouterService.UpdateGameSession; `ok` is false when it throws. */
    method UpdateGameSession(pids: set<Pid>, allowEmpty: bool, c: Call) returns (ok: bool)
      modifies this`published, this`session
      ensures published == old(published) + [Publication(pids, allowEmpty)]
      ensures session == SessionAfter(old(session), Publication(pids, allowEmpty), c)
      ensures ok == !WriteFails(old(session), Publication(pids, allowEmpty), c)
    {
      published := published + [Publication(pids, allowEmpty)];
      if c == Stopped { session := None; }
      if session.None? { return true; }
      var held := session.value;
      session := Some(Publication(pids - {0}, allowEmpty));
      ok := held == session.value || c == Works;
    }

    /** One turn of the loop.  An exception leaves the loop at once, and with it the task. */
    method Turn(p: Probe)
      modifies this
      ensures View() == Step(old(View()), p)
    {
      if phase != Running { return; }
      DropDead(p.live0);
      var ok;
      if confirmed {
        ok := TurnRunning(p);
      } else {
        if waiting {
          ok := TurnRelaunch(p);
        } else {
          ok := TurnInitial(p);
        }
        if ok && !confirmed && p.t2 >= deadline {
          phase, owned := TimedOut, {};
        }
      }
      if !ok { phase := Faulted; }
    }

    method TurnInitial(p: Probe) returns (ok: bool)
      requires phase == Running
      modifies this
      ensures View().(phase := if ok then phase else Faulted) == AwaitInitial(old(View()), p) && phase == Running
    {
      ok := UpdateGameSession(owned, true, p.first);
      if !ok { return; }
      if initial in owned {
        ok := ConfirmStable(p, GAME_STABLE_MS);
      } else {
        waiting, stableSince := true, None;
        ok := UpdateGameSession({}, true, p.second);
      }
    }

    method ConfirmStable(p: Probe, stableMs: int) returns (ok: bool)
      requires phase == Running
      modifies this
      ensures View().(phase := if ok then phase else Faulted) == Confirm(old(View()), p, stableMs) && phase == Running
    {
      ok := true;
      if stableSince.None? { stableSince := Some(p.t0); }
      if p.t1 - stableSince.value >= stableMs {
        confirmed := true;
        ok := UpdateGameSession(owned, false, p.second);
      }
    }

    method AdoptNext(p: Probe)
      modifies this
      ensures View() == Adopt(old(View()), p)
    {
      if candidate > 0 {
        excluded, candidate, stableSince := excluded + {candidate}, 0, None;
      }
      var candidates := NewMatching(p.matching, deadline - LAUNCH_TIMEOUT_MS - START_SLACK_MS, excluded);
      if |candidates| > 0 && candidates[0].pid > 0 {
        candidate := candidates[0].pid;
        excluded := excluded + {candidate};
        owned := owned + {candidate};
        DropDead(p.live1);
        adopted, stableSince := adopted + [candidate], Some(p.t0);
      }
    }

    method TurnRelaunch(p: Probe) returns (ok: bool)
      requires phase == Running
      modifies this
      ensures View().(phase := if ok then phase else Faulted) == AwaitRelaunch(old(View()), p) && phase == Running
    {
      if !(candidate > 0 && candidate in owned) {
        AdoptNext(p);
      }
      DropDead(p.live2);
      ok := UpdateGameSession(owned, true, p.first);
      if ok && candidate > 0 && candidate in owned {
        ok := ConfirmStable(p, RELAUNCH_STABLE_MS);
      }
    }

    method TurnRunning(p: Probe) returns (ok: bool)
      requires phase == Running
      modifies this
      ensures (if ok then View() else View().(phase := Faulted)) == WatchRunning(old(View()), p)
    {
      DropDead(p.live2);
      ok := UpdateGameSession(owned, false, p.first);
      if !ok { return; }
      if owned != {} {
        missing := 0;
      } else {
        missing := missing + 1;
        if missing >= EXIT_MISSING_CHECKS {
          phase, owned := ExitStopped, {};
        }
      }
    }
  }
}
