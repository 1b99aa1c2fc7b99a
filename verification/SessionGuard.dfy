/** The Route Guard's side of the launcher session: it re-reads the heartbeat file every tick
    and fails open as soon as the launcher, the session or the game is gone.
    Times are milliseconds. */
module SessionGuards {
  import opened Common
  import opened Text

  const MAX_FUTURE_MS := 5_000
  const READ_ATTEMPTS := 5
  const RETRY_BUDGET_MS := 100

  /** The JSON document in the heartbeat file. */
  datatype Snapshot = Snapshot(sessionId: string, launcherPid: Pid, updatedAt: int, gamePids: set<Pid>,
                               allowEmpty: bool)

  datatype Reason = ReadFailed | SessionChanged | LauncherChanged | LauncherGone | HeartbeatExpired | NoLiveGame

  datatype Guard = Guard(session: string, launcher: Pid, timeout: int, pids: set<Pid>, expired: bool,
                         lastHeartbeat: int)

  function LivePids(s: Snapshot, alive: set<Pid>): set<Pid> {
    (s.gamePids - {0}) * alive
  }

  /** Why the guard must give up, if it must. `read` is None when every attempt failed. */
  function Assess(g: Guard, read: Option<Snapshot>, now: int, alive: set<Pid>): Option<Reason> {
    match read
    case None =>
      if g.lastHeartbeat > 0 && 0 <= now - g.lastHeartbeat <= g.timeout then None else Some(ReadFailed)
    case Some(s) =>
      if Trim(s.sessionId) != g.session then Some(SessionChanged)
      else if s.launcherPid != g.launcher then Some(LauncherChanged)
      else if s.launcherPid == 0 || s.launcherPid !in alive then Some(LauncherGone)
      else if now - s.updatedAt < -MAX_FUTURE_MS || now - s.updatedAt > g.timeout then Some(HeartbeatExpired)
      else if LivePids(s, alive) == {} && !s.allowEmpty then Some(NoLiveGame)
      else None
  }

  /** One tick of the guard: adopt the snapshot, keep the last one, or expire for good. */
  function Tick(g: Guard, read: Option<Snapshot>, now: int, alive: set<Pid>): Guard {
    if g.expired then g
    else if Assess(g, read, now, alive).Some? then g.(expired := true, pids := {})
    else if read.Some? then g.(pids := LivePids(read.value, alive), lastHeartbeat := read.value.updatedAt)
    else g
  }

  /** The first attempt that could be read and parsed. */
  function FirstRead(attempts: seq<Option<Snapshot>>): Option<Snapshot> {
    if attempts == [] then None else if attempts[0].Some? then attempts[0] else FirstRead(attempts[1..])
  }

  /** The sleeps before an attempt: 10, 20, 30 and 40 ms. */
  function SleptBefore(attempt: int): int
    requires 1 <= attempt <= READ_ATTEMPTS
  {
    match attempt
    case 1 => 0
    case 2 => 10
    case 3 => 30
    case 4 => 60
    case _ => 100
  }

  /** It is readable exactly if some attempt is, and then it is the earliest readable one. */
  lemma {:induction false} FirstReadIsFirst(attempts: seq<Option<Snapshot>>)
    ensures FirstRead(attempts) == None <==> forall k :: 0 <= k < |attempts| ==> attempts[k] == None
    ensures FirstRead(attempts) != None ==>
      exists k :: 0 <= k < |attempts| && attempts[k] == FirstRead(attempts)
                  && forall j :: 0 <= j < k ==> attempts[j] == None
  {
    if attempts != [] && attempts[0].None? {
      FirstReadIsFirst(attempts[1..]);
      assert forall k :: 0 < k < |attempts| ==> attempts[k] == attempts[1..][k - 1];
      if FirstRead(attempts) != None {
        var k :| 0 <= k < |attempts[1..]| && attempts[1..][k] == FirstRead(attempts[1..])
                 && forall j :: 0 <= j < k ==> attempts[1..][j] == None;
        assert attempts[k + 1] == FirstRead(attempts);
        assert forall j :: 0 <= j < k + 1 ==> attempts[j] == None;
      }
    }
  }

  class LauncherSessionGuard {
    const session: string
    const launcher: Pid
    const timeout: int
    var pids: set<Pid>
    var expired: bool
    var reason: Option<Reason>
    var lastHeartbeat: int

    function View(): Guard reads this {
      Guard(session, launcher, timeout, pids, expired, lastHeartbeat)
    }

    constructor (session: string, launcher: Pid, timeout: int)
      ensures View() == Guard(Trim(session), launcher, timeout, {}, false, 0) && reason == None
    {
      this.session, this.launcher, this.timeout := Trim(session), launcher, timeout;
      pids, expired, reason, lastHeartbeat := {}, false, None, 0;
    }

    /** refresh(): up to five attempts, sleeping 10, 20, 30 and 40 ms between them. */
    method Refresh(attempts: seq<Option<Snapshot>>, start: int, alive: set<Pid>)
      returns (error: Option<Reason>, slept: int)
      requires |attempts| == 5
      modifies this`pids, this`lastHeartbeat
      ensures 0 <= slept <= 100
      ensures error == Assess(old(View()), FirstRead(attempts), start + slept, alive)
      ensures error.None? && !old(expired) ==>
        View() == Tick(old(View()), FirstRead(attempts), start + slept, alive)
      ensures error.Some? ==> View() == old(View())
    {
      var state: Option<Snapshot> := None;
      var attempt := 1;
      slept := 0;
      while attempt <= READ_ATTEMPTS && state.None?
        invariant 1 <= attempt <= READ_ATTEMPTS + 1
        invariant state.None? ==> FirstRead(attempts) == FirstRead(attempts[attempt - 1..])
        invariant state.Some? ==> FirstRead(attempts) == state
        invariant attempt <= READ_ATTEMPTS ==> slept == SleptBefore(attempt)
        invariant 0 <= slept <= RETRY_BUDGET_MS
        decreases READ_ATTEMPTS + 1 - attempt, if state.None? then 1 else 0
      {
        state := attempts[attempt - 1];
        if state.None? {
          if attempt < READ_ATTEMPTS { slept := slept + attempt * 10; }
          attempt := attempt + 1;
        }
      }
      var now := start + slept;
      if state.None? {
        if lastHeartbeat > 0 {
          var age := now - lastHeartbeat;
          if 0 <= age <= timeout { return None, slept; }
        }
        return Some(ReadFailed), slept;
      }
      var s := state.value;
      if Trim(s.sessionId) != session { return Some(SessionChanged), slept; }
      if s.launcherPid != launcher { return Some(LauncherChanged), slept; }
      if s.launcherPid == 0 || s.launcherPid !in alive { return Some(LauncherGone), slept; }
      var age := now - s.updatedAt;
      if age < -MAX_FUTURE_MS || age > timeout { return Some(HeartbeatExpired), slept; }
      var live := set pid | pid in s.gamePids && pid != 0 && pid in alive;
      assert live == LivePids(s, alive);
      if live == {} && !s.allowEmpty { return Some(NoLiveGame), slept; }
      pids, lastHeartbeat := live, s.updatedAt;
      error := None;
    }

    /** One turn of the loop in Start. */
    method OnTick(attempts: seq<Option<Snapshot>>, start: int, alive: set<Pid>) returns (slept: int)
      requires |attempts| == 5
      modifies this
      ensures 0 <= slept <= 100
      ensures View() == Tick(old(View()), FirstRead(attempts), start + slept, alive)
      ensures old(expired) ==> reason == old(reason)
      ensures !old(expired) && expired ==> reason == Assess(old(View()), FirstRead(attempts), start + slept, alive)
    {
      slept := 0;
      if expired { return; }
      var error;
      error, slept := Refresh(attempts, start, alive);
      if error.Some? {
        expired, reason, pids := true, error, {};
      }
    }
  }

  // ---- runs ----

  /** One tick as it happened: started at `start`, decided at `now`. */
  datatype Turn = Turn(start: int, now: int, read: Option<Snapshot>, alive: set<Pid>)

  function After(g: Guard, ts: seq<Turn>): Guard
    decreases |ts|
  {
    if ts == [] then g
    else Tick(After(g, ts[..|ts| - 1]), ts[|ts| - 1].read, ts[|ts| - 1].now, ts[|ts| - 1].alive)
  }

  /** The stamp of the last heartbeat read so far. */
  function LastStamp(first: int, ts: seq<Turn>): int
    decreases |ts|
  {
    if ts == [] then first
    else if ts[|ts| - 1].read.Some? then ts[|ts| - 1].read.value.updatedAt
    else LastStamp(first, ts[..|ts| - 1])
  }

  /** The launcher and its game look well at this tick; a failed read counts as well while the
      last stamp is neither in the future nor older than the timeout. */
  predicate Healthy(session: string, launcher: Pid, timeout: int, lastStamp: int, t: Turn) {
    match t.read
    case None => 0 < lastStamp <= t.now <= lastStamp + timeout
    case Some(s) =>
      && Trim(s.sessionId) == session && s.launcherPid == launcher && launcher != 0 && launcher in t.alive
      && s.updatedAt - 5_000 <= t.now <= s.updatedAt + timeout
      && (s.allowEmpty || exists pid :: pid in s.gamePids && pid != 0 && pid in t.alive)
  }

  predicate AllHealthy(g: Guard, ts: seq<Turn>) {
    forall i :: 0 <= i < |ts| ==> Healthy(g.session, g.launcher, g.timeout, LastStamp(g.lastHeartbeat, ts[..i]), ts[i])
  }

  lemma AssessIsHealth(g: Guard, t: Turn)
    ensures Assess(g, t.read, t.now, t.alive).None? <==> Healthy(g.session, g.launcher, g.timeout, g.lastHeartbeat, t)
  {
    if t.read.Some? {
      var s := t.read.value;
      assert LivePids(s, t.alive) == {} <==> !exists pid :: pid in s.gamePids && pid != 0 && pid in t.alive by {
        if pid: Pid :| pid in s.gamePids && pid != 0 && pid in t.alive {
          assert pid in LivePids(s, t.alive);
        }
      }
    }
  }

  lemma {:induction false} IdentityStays(g: Guard, ts: seq<Turn>)
    ensures After(g, ts).session == g.session && After(g, ts).launcher == g.launcher
    ensures After(g, ts).timeout == g.timeout
    decreases |ts|
  {
    if ts != [] { IdentityStays(g, ts[..|ts| - 1]); }
  }

  lemma AllHealthyOneMore(g: Guard, ts: seq<Turn>)
    requires ts != []
    ensures var shorter := ts[..|ts| - 1];
      AllHealthy(g, ts) <==>
        && AllHealthy(g, shorter)
        && Healthy(g.session, g.launcher, g.timeout, LastStamp(g.lastHeartbeat, shorter), ts[|ts| - 1])
  {
    var shorter := ts[..|ts| - 1];
    assert forall i :: 0 <= i < |shorter| ==> ts[..i] == shorter[..i] && ts[i] == shorter[i];
  }

  /** The guard holds on exactly as long as every tick is healthy; once expired it stays so,
      with no PIDs. */
  lemma {:induction false} ExpiresIffUnhealthy(g: Guard, ts: seq<Turn>)
    requires !g.expired
    ensures After(g, ts).expired <==> !AllHealthy(g, ts)
    ensures After(g, ts).expired ==> After(g, ts).pids == {}
    ensures !After(g, ts).expired ==> After(g, ts).lastHeartbeat == LastStamp(g.lastHeartbeat, ts)
    decreases |ts|
  {
    if ts != [] {
      var shorter := ts[..|ts| - 1];
      ExpiresIffUnhealthy(g, shorter);
      IdentityStays(g, shorter);
      AssessIsHealth(After(g, shorter), ts[|ts| - 1]);
      AllHealthyOneMore(g, ts);
    }
  }

  /** The last turn that could read the file. */
  function LastRead(ts: seq<Turn>): (t: Option<Turn>)
    ensures t.Some? ==> t.value.read.Some?
    decreases |ts|
  {
    if ts == [] then None
    else if ts[|ts| - 1].read.Some? then Some(ts[|ts| - 1])
    else LastRead(ts[..|ts| - 1])
  }

  /** While it lasts, the guard isolates exactly the processes that the last snapshot it read lists
      and that were alive at that turn; before its first read, those it began with. */
  lemma {:induction false} HoldsWhatWasLastRead(g: Guard, ts: seq<Turn>, pid: Pid)
    requires !After(g, ts).expired
    ensures pid in After(g, ts).pids <==>
      match LastRead(ts)
      case None => pid in g.pids
      case Some(t) => pid in t.read.value.gamePids && pid in t.alive && pid != 0
    decreases |ts|
  {
    if ts != [] {
      HoldsWhatWasLastRead(g, ts[..|ts| - 1], pid);
    }
  }

  /** Ticks come at most 250 ms apart and spend at most 100 ms on retries. */
  ghost predicate Punctual(ts: seq<Turn>) {
    && (forall i :: 0 <= i < |ts| ==> ts[i].start <= ts[i].now <= ts[i].start + 100)
    && (forall i :: 0 < i < |ts| ==> ts[i].start <= ts[i - 1].start + 250)
  }

  ghost predicate NoStampAfter(ts: seq<Turn>, latest: int) {
    forall i :: 0 <= i < |ts| && ts[i].read.Some? ==> ts[i].read.value.updatedAt <= latest
  }

  lemma {:induction false} LastStampBounded(first: int, ts: seq<Turn>, latest: int)
    requires first <= latest && NoStampAfter(ts, latest)
    ensures LastStamp(first, ts) <= latest
    decreases |ts|
  {
    if ts != [] { LastStampBounded(first, ts[..|ts| - 1], latest); }
  }

  /** If no heartbeat is stamped later than `latest`, the guard has expired by
      latest + timeout + one tick + the retries. */
  lemma ExpiresInTime(g: Guard, ts: seq<Turn>, latest: int) returns (n: nat)
    requires !g.expired && g.lastHeartbeat <= latest && NoStampAfter(ts, latest) && Punctual(ts)
    requires ts != [] && ts[0].start <= latest + g.timeout + 250
    requires ts[|ts| - 1].start > latest + g.timeout
    ensures n < |ts| && ts[n].now <= latest + g.timeout + 250 + 100
    ensures forall m :: n < m <= |ts| ==> After(g, ts[..m]).expired && After(g, ts[..m]).pids == {}
  {
    n := 0;
    while ts[n].start <= latest + g.timeout
      invariant n < |ts| && ts[n].start <= latest + g.timeout + 250
      decreases |ts| - n
    {
      n := n + 1;
    }
    forall m | n < m <= |ts|
      ensures After(g, ts[..m]).expired && After(g, ts[..m]).pids == {}
    {
      var prefix := ts[..m];
      ExpiresIffUnhealthy(g, prefix);
      assert prefix[..n] == ts[..n] && prefix[n] == ts[n];
      LastStampBounded(g.lastHeartbeat, prefix[..n], latest);
      assert !Healthy(g.session, g.launcher, g.timeout, LastStamp(g.lastHeartbeat, prefix[..n]), prefix[n]);
    }
  }
}
