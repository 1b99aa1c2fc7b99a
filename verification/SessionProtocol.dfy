/** Launcher and Route Guard together, over every interleaving of their steps. */
module SessionProtocol {
  import opened Common
  import opened Text
  import opened SessionGuards
  import opened RouterSessions
  import M = GameMonitors
  import Runs = GameMonitorRuns

  datatype World = World(launcher: Session, guard: Guard, written: set<Snapshot>)

  /** The steps of the launcher and of the guard.  A guard tick sees the file as it is at that
      moment, or nothing; which processes are alive is up to the environment. */
  datatype Act =
    | Publish(update: M.Publication, now: int, works: bool)
    | Beat(now: int, works: bool)
    | Restart(id: string, pids: set<Pid>, allowEmpty: bool, now: int, works: bool)
    | End(deleted: bool)
    | GuardTick(readable: bool, now: int, alive: set<Pid>)

  function Logged(w: World, launcher: Session): World {
    w.(launcher := launcher, written := w.written + if launcher.file.Some? then {launcher.file.value} else {})
  }

  function Does(w: World, a: Act): World {
    match a
    case Publish(u, now, works) => Logged(w, Update(w.launcher, u.pids, u.allowEmpty, now, works))
    case Beat(now, works) => Logged(w, KeepAlive(w.launcher, now, works))
    case Restart(id, pids, allow, now, works) => Logged(w, Begin(w.launcher, id, pids, allow, now, works))
    case End(deleted) => w.(launcher := Stop(w.launcher, deleted))
    case GuardTick(readable, now, alive) =>
      w.(guard := Tick(w.guard, if readable then w.launcher.file else None, now, alive))
  }

  function WorldAfter(w: World, acts: seq<Act>): World
    decreases |acts|
  {
    if acts == [] then w else Does(WorldAfter(w, acts[..|acts| - 1]), acts[|acts| - 1])
  }

  /** `s` is a snapshot of the guard's own session that lists all its PIDs. */
  predicate Covers(s: Snapshot, g: Guard) {
    && g.pids <= s.gamePids && 0 !in g.pids
    && Trim(s.sessionId) == g.session && s.launcherPid == g.launcher
  }

  /** The guard's PIDs all come from one complete snapshot that the launcher wrote. */
  ghost predicate FromOneSnapshot(w: World) {
    w.guard.pids != {} ==> exists s :: s in w.written && Covers(s, w.guard)
  }

  ghost predicate FileIsLogged(w: World) {
    w.launcher.file.Some? ==> w.launcher.file.value in w.written
  }

  lemma {:induction false} GuardHoldsOneSnapshot(w: World, acts: seq<Act>)
    requires FromOneSnapshot(w) && FileIsLogged(w)
    ensures FromOneSnapshot(WorldAfter(w, acts)) && FileIsLogged(WorldAfter(w, acts))
    ensures w.written <= WorldAfter(w, acts).written
    decreases |acts|
  {
    if acts != [] {
      GuardHoldsOneSnapshot(w, acts[..|acts| - 1]);
      ActKeepsOneSnapshot(WorldAfter(w, acts[..|acts| - 1]), acts[|acts| - 1]);
    }
  }

  lemma ActKeepsOneSnapshot(w: World, a: Act)
    requires FromOneSnapshot(w) && FileIsLogged(w)
    ensures FromOneSnapshot(Does(w, a)) && FileIsLogged(Does(w, a)) && w.written <= Does(w, a).written
  {
    var w' := Does(w, a);
    if w'.guard.pids != {} {
      if a.GuardTick? && w'.guard.pids != w.guard.pids {
        assert w.launcher.file.value in w'.written && Covers(w.launcher.file.value, w'.guard);
      } else {
        var s :| s in w.written && Covers(s, w.guard);
        assert s in w'.written && Covers(s, w'.guard);
      }
    }
  }

  // ---- only the game's PIDs ----

  /** The updates among `acts`, in order. */
  function Updates(acts: seq<Act>): seq<M.Publication>
    decreases |acts|
  {
    if acts == [] then []
    else Updates(acts[..|acts| - 1]) + if acts[|acts| - 1].Publish? then [acts[|acts| - 1].update] else []
  }

  ghost predicate Within(w: World, may: set<Pid>) {
    && w.launcher.pids <= may
    && (w.launcher.file.Some? ==> w.launcher.file.value.gamePids <= may)
    && (forall s :: s in w.written ==> s.gamePids <= may)
  }

  lemma {:induction false} SnapshotsStayWithin(w: World, acts: seq<Act>, may: set<Pid>)
    requires Within(w, may)
    requires forall i :: 0 <= i < |acts| && acts[i].Publish? ==> acts[i].update.pids <= may
    requires forall i :: 0 <= i < |acts| && acts[i].Restart? ==> acts[i].pids <= may
    ensures Within(WorldAfter(w, acts), may)
    decreases |acts|
  {
    if acts != [] {
      SnapshotsStayWithin(w, acts[..|acts| - 1], may);
    }
  }

  lemma {:induction false} UpdateIsListed(acts: seq<Act>, i: nat)
    requires i < |acts| && acts[i].Publish?
    ensures acts[i].update in Updates(acts)
    decreases |acts|
  {
    if i < |acts| - 1 { UpdateIsListed(acts[..|acts| - 1], i); }
  }

  /** Whatever the interleaving, while the launcher publishes what its game monitor tells it to,
      the guard isolates only the process it launched and the relaunched ones it adopted. */
  lemma GuardHoldsOnlyTheGame(w: World, acts: seq<Act>, initial: Pid, launchedAt: int, preExisting: set<Pid>,
                              session: Option<M.Publication>, ps: seq<M.Probe>, m: M.State)
    requires FromOneSnapshot(w) && FileIsLogged(w) && Within(w, {initial})
    requires forall i :: 0 <= i < |acts| && acts[i].Restart? ==> acts[i].pids <= {initial}
    requires m == M.Run(M.Start(initial, launchedAt, preExisting, session), ps) && Updates(acts) <= m.published
    ensures WorldAfter(w, acts).guard.pids <= {initial} + (set pid | pid in m.adopted)
    ensures WorldAfter(w, acts).guard.pids * (preExisting - {initial}) == {}
  {
    var may := {initial} + (set pid | pid in m.adopted);
    Runs.PublishesOnlyItsOwn(initial, launchedAt, preExisting, session, ps);
    Runs.InitialStays(M.Start(initial, launchedAt, preExisting, session), ps);
    assert Runs.Authorised(m) == may;
    forall i | 0 <= i < |acts| && acts[i].Publish?
      ensures acts[i].update.pids <= may
    {
      var k := ListedAt(acts, m.published, i);
    }
    SnapshotsStayWithin(w, acts, may);
    GuardHoldsOneSnapshot(w, acts);
  }

  /** Every update passed on is one the monitor made. */
  lemma ListedAt(acts: seq<Act>, published: seq<M.Publication>, i: nat) returns (k: nat)
    requires i < |acts| && acts[i].Publish? && Updates(acts) <= published
    ensures k < |published| && published[k] == acts[i].update
  {
    UpdateIsListed(acts, i);
    k :| 0 <= k < |Updates(acts)| && Updates(acts)[k] == acts[i].update;
  }

  // ---- the monitor and the session agree on what is written ----

  /** What the launcher's session holds, as the monitor sees it. */
  function SessionHeld(l: Session): Option<M.Publication> {
    if l.active && !Blank(l.sessionId) then Some(M.Publication(l.pids, l.allowEmpty)) else None
  }

  /** The monitor's picture of the session stays right, and a call ends the monitor exactly when
      the session takes the update but cannot write it. */
  lemma MonitorKnowsSession(s: M.State, l: Session, u: M.Publication, now: int, works: bool)
    requires s.session == SessionHeld(l) && s.phase == M.Running
    ensures var s' := M.Publish(s, u, if works then M.Works else M.Fails);
      && s'.session == SessionHeld(Update(l, u.pids, u.allowEmpty, now, works))
      && (s'.phase == M.Faulted <==> Takes(l, u.pids, u.allowEmpty) && !works)
    ensures forall deleted :: M.Publish(s, u, M.Stopped).session == SessionHeld(Stop(l, deleted))
  {
  }

  predicate Ended(acts: seq<Act>)
    decreases |acts|
  {
    acts != [] && (acts[|acts| - 1].End? || Ended(acts[..|acts| - 1]))
  }

  /** The monitor's calls among `acts`, and how each fares. */
  function CallsOf(acts: seq<Act>): seq<Runs.Said>
    decreases |acts|
  {
    if acts == [] then []
    else
      var shorter, last := acts[..|acts| - 1], acts[|acts| - 1];
      CallsOf(shorter) + if last.Publish? then [Runs.Said(last.update, OutcomeOf(shorter, last))] else []
  }

  function OutcomeOf(before: seq<Act>, a: Act): M.Call
    requires a.Publish?
  {
    if Ended(before) then M.Stopped else if a.works then M.Works else M.Fails
  }

  /** Act `i` is an update that the session takes but cannot write. */
  ghost predicate NotWritten(w: World, acts: seq<Act>, i: nat) {
    && i < |acts| && acts[i].Publish? && !acts[i].works
    && Takes(WorldAfter(w, acts[..i]).launcher, acts[i].update.pids, acts[i].update.allowEmpty)
  }

  ghost predicate SomeNotWritten(w: World, acts: seq<Act>) {
    exists i: nat :: NotWritten(w, acts, i)
  }

  lemma NotWrittenOneMore(w: World, acts: seq<Act>)
    requires acts != []
    ensures SomeNotWritten(w, acts) <==>
      SomeNotWritten(w, acts[..|acts| - 1]) || NotWritten(w, acts, |acts| - 1)
  {
    var shorter := acts[..|acts| - 1];
    forall i: nat | i < |shorter|
      ensures NotWritten(w, acts, i) <==> NotWritten(w, shorter, i)
    {
      assert shorter[..i] == acts[..i];
    }
    if SomeNotWritten(w, shorter) {
      var i: nat :| NotWritten(w, shorter, i);
      assert NotWritten(w, acts, i);
    }
  }

  /** What one act does to a session, as seen from outside. */
  lemma HeldAfterAct(w: World, a: Act, ended: bool)
    requires !a.Restart? && (ended ==> SessionHeld(w.launcher) == None)
    ensures var held, held' := SessionHeld(w.launcher), SessionHeld(Does(w, a).launcher);
      && (a.End? ==> held' == None)
      && (!a.End? && !a.Publish? ==> held' == held)
      && (a.Publish? ==>
            var c := if ended then M.Stopped else if a.works then M.Works else M.Fails;
            && held' == M.SessionAfter(held, a.update, c)
            && (M.WriteFails(held, a.update, c) <==>
                  Takes(w.launcher, a.update.pids, a.update.allowEmpty) && !a.works))
  {
  }

  lemma {:induction false} SessionIsItsCalls(w: World, acts: seq<Act>)
    requires forall i :: 0 <= i < |acts| ==> !acts[i].Restart?
    ensures var held, calls := SessionHeld(w.launcher), CallsOf(acts);
      && SessionHeld(WorldAfter(w, acts).launcher) == (if Ended(acts) then None else Runs.SessionAfterAll(held, calls))
      && (Runs.SomeCallFails(held, calls) <==> SomeNotWritten(w, acts))
    decreases |acts|
  {
    if acts != [] {
      var shorter, last := acts[..|acts| - 1], acts[|acts| - 1];
      SessionIsItsCalls(w, shorter);
      HeldAfterAct(WorldAfter(w, shorter), last, Ended(shorter));
      NotWrittenOneMore(w, acts);
      if last.Publish? {
        var calls := CallsOf(acts);
        assert calls[..|calls| - 1] == CallsOf(shorter);
      } else {
        assert CallsOf(acts) == CallsOf(shorter);
      }
    }
  }

  /** Over every interleaving of a launch with heartbeats, guard ticks and the end of its session:
      the monitor's picture of the session is right until the session ends, and the monitor is gone
      exactly when an update that the session took could not be written. */
  lemma MonitorFollowsSession(w: World, acts: seq<Act>, s0: M.State, ps: seq<M.Probe>)
    requires Runs.Unstarted(s0) && s0.session == SessionHeld(w.launcher)
    requires forall i :: 0 <= i < |acts| ==> !acts[i].Restart?
    requires CallsOf(acts) == Runs.Calls(s0, ps)
    ensures SessionHeld(WorldAfter(w, acts).launcher) == if Ended(acts) then None else M.Run(s0, ps).session
    ensures M.Run(s0, ps).phase == M.Faulted <==> SomeNotWritten(w, acts)
  {
    SessionIsItsCalls(w, acts);
    Runs.SessionOfRun(s0, ps);
  }

  /** A new session holds its processes and its flag at once, and is kept alive by heartbeats from
      then on exactly if its first snapshot could be written. */
  lemma NewSessionHolds(w: World, id: string, pids: set<Pid>, allowEmpty: bool, now: int, works: bool)
    requires !Blank(id)
    ensures var l := Does(w, Restart(id, pids, allowEmpty, now, works)).launcher;
      && SessionHeld(l) == Some(M.Publication(pids - {0}, allowEmpty))
      && l.sessionId == id && l.launcher == w.launcher.launcher && l.beating == works
  {
  }

  /** Once a session has ended nothing but a new one changes the launcher's side or the file. */
  lemma {:induction false} EndedSessionIsSilent(w: World, deleted: bool, acts: seq<Act>)
    requires forall i :: 0 <= i < |acts| ==> !acts[i].Restart? && (acts[i].End? ==> !acts[i].deleted)
    ensures WorldAfter(Does(w, End(deleted)), acts).launcher ==
      Session(w.launcher.launcher, "", false, false, {}, false, if deleted then None else w.launcher.file)
    decreases |acts|
  {
    if acts != [] { EndedSessionIsSilent(w, deleted, acts[..|acts| - 1]); }
  }

  // ---- what is on disk, and how old ----

  /** The act replaces the heartbeat file: a beat of a running loop, a changed update, or a new
      session, whose write works. */
  ghost predicate WritesFile(w: World, a: Act) {
    var l := w.launcher;
    match a
    case Beat(_, works) => works && l.beating && !Blank(l.sessionId)
    case Publish(u, _, works) =>
      works && l.active && !Blank(l.sessionId) && (l.pids != u.pids - {0} || l.allowEmpty != u.allowEmpty)
    case Restart(id, _, _, _, works) => works && !Blank(id)
    case _ => false
  }

  ghost predicate WritesAt(w: World, acts: seq<Act>, i: nat) {
    i < |acts| && WritesFile(WorldAfter(w, acts[..i]), acts[i])
  }

  function ActTime(a: Act): int {
    if a.End? then 0 else a.now
  }

  /** The complete snapshot of a session at some time. */
  function SnapshotOf(l: Session, now: int): Snapshot {
    Snapshot(l.sessionId, l.launcher, now, l.pids, l.allowEmpty)
  }

  lemma FileAfterAct(w: World, a: Act)
    ensures var w' := Does(w, a);
      w'.launcher.file ==
        if WritesFile(w, a) then Some(SnapshotOf(w'.launcher, ActTime(a)))
        else if a.End? && a.deleted then None
        else w.launcher.file
    ensures a.Beat? || a.GuardTick? ==> Does(w, a).launcher == w.launcher.(file := Does(w, a).launcher.file)
  {
  }

  /** The file is that of act `i`: nothing wrote or deleted it since. */
  ghost predicate LastWrote(w: World, acts: seq<Act>, i: nat) {
    && WritesAt(w, acts, i)
    && forall j: nat :: i < j < |acts| ==> !WritesAt(w, acts, j) && !(acts[j].End? && acts[j].deleted)
  }

  lemma LastWrotePrefix(w: World, acts: seq<Act>, i: nat)
    requires acts != [] && i < |acts| - 1
    ensures LastWrote(w, acts, i) ==>
      LastWrote(w, acts[..|acts| - 1], i) && !WritesAt(w, acts, |acts| - 1)
      && !(acts[|acts| - 1].End? && acts[|acts| - 1].deleted)
    ensures acts[..|acts| - 1][..i + 1] == acts[..i + 1]
  {
    var shorter := acts[..|acts| - 1];
    forall j: nat | j < |shorter|
      ensures WritesAt(w, acts, j) <==> WritesAt(w, shorter, j)
    {
      assert shorter[..j] == acts[..j];
    }
  }

  /** Over every interleaving the file on disk is the complete snapshot that the session had at the
      last act that wrote, stamped with the time of that act. Every beat of a running loop whose
      write works is such an act. */
  lemma {:induction false} FileIsLastWritten(w: World, acts: seq<Act>, i: nat)
    requires LastWrote(w, acts, i)
    ensures WorldAfter(w, acts).launcher.file ==
      Some(SnapshotOf(WorldAfter(w, acts[..i + 1]).launcher, ActTime(acts[i])))
    decreases |acts|
  {
    var shorter, last := acts[..|acts| - 1], acts[|acts| - 1];
    FileAfterAct(WorldAfter(w, shorter), last);
    if i < |acts| - 1 {
      LastWrotePrefix(w, acts, i);
      FileIsLastWritten(w, shorter, i);
    } else {
      assert acts[..i + 1] == acts;
    }
  }

  /** A heartbeat with this stamp was on disk when `acts` began, or was written by one of them. */
  ghost predicate Stamped(w: World, acts: seq<Act>, stamp: int) {
    || (w.launcher.file.Some? && stamp == w.launcher.file.value.updatedAt)
    || exists i: nat :: WritesAt(w, acts, i) && stamp == ActTime(acts[i])
  }

  /** The guard has read a heartbeat at least as late as this stamp. */
  ghost predicate WasRead(w: World, acts: seq<Act>, stamp: int) {
    || stamp == w.guard.lastHeartbeat
    || exists r: nat :: r < |acts| && ReadsAt(w, acts, r, stamp)
  }

  ghost predicate ReadsAt(w: World, acts: seq<Act>, r: nat, stamp: int)
    requires r < |acts|
  {
    acts[r].GuardTick? && acts[r].readable && Stamped(w, acts[..r], stamp)
  }

  /** A tick that can read finds a heartbeat written within the timeout, and one that cannot has
      read such a heartbeat before. */
  ghost predicate Fed(w: World, acts: seq<Act>, t: nat)
    requires t < |acts|
  {
    acts[t].GuardTick? ==> exists stamp :: FedBy(w, acts, t, stamp)
  }

  ghost predicate FedBy(w: World, acts: seq<Act>, t: nat, stamp: int)
    requires t < |acts| && acts[t].GuardTick?
  {
    && 0 < stamp && acts[t].now <= stamp + w.guard.timeout
    && if acts[t].readable then Stamped(w, acts[..t], stamp) else WasRead(w, acts[..t], stamp)
  }

  /** The clock does not run backwards, and one session lasts throughout. */
  ghost predicate OneSession(w: World, acts: seq<Act>) {
    && (forall i :: 0 <= i < |acts| ==> !acts[i].Restart? && !acts[i].End?)
    && (forall i, j :: 0 <= i < j < |acts| ==> ActTime(acts[i]) <= ActTime(acts[j]))
    && (w.launcher.file.Some? ==> w.guard.lastHeartbeat <= w.launcher.file.value.updatedAt)
    && (forall i :: 0 <= i < |acts| ==>
          && w.guard.lastHeartbeat <= ActTime(acts[i])
          && (w.launcher.file.Some? ==> w.launcher.file.value.updatedAt <= ActTime(acts[i])))
  }

  /** What is on disk, and what the guard last read, is as late as anything written or read. */
  ghost predicate UpToDate(w: World, acts: seq<Act>, v: World) {
    && v.guard.timeout == w.guard.timeout
    && (forall stamp :: Stamped(w, acts, stamp) ==>
          v.launcher.file.Some? && stamp <= v.launcher.file.value.updatedAt)
    && (!v.guard.expired ==> forall stamp :: WasRead(w, acts, stamp) ==> stamp <= v.guard.lastHeartbeat)
  }

  lemma StampedOneMore(w: World, acts: seq<Act>, stamp: int)
    requires acts != [] && Stamped(w, acts, stamp)
    ensures Stamped(w, acts[..|acts| - 1], stamp)
         || (WritesAt(w, acts, |acts| - 1) && stamp == ActTime(acts[|acts| - 1]))
  {
    var shorter := acts[..|acts| - 1];
    if i: nat :| WritesAt(w, acts, i) && stamp == ActTime(acts[i]) {
      if i < |shorter| {
        assert shorter[..i] == acts[..i] && WritesAt(w, shorter, i);
      }
    }
  }

  lemma WasReadOneMore(w: World, acts: seq<Act>, stamp: int)
    requires acts != [] && WasRead(w, acts, stamp)
    ensures var shorter, last := acts[..|acts| - 1], acts[|acts| - 1];
      WasRead(w, shorter, stamp) || (last.GuardTick? && last.readable && Stamped(w, shorter, stamp))
  {
    var shorter := acts[..|acts| - 1];
    if r: nat :| r < |acts| && ReadsAt(w, acts, r, stamp) {
      if r < |shorter| {
        assert shorter[..r] == acts[..r] && ReadsAt(w, shorter, r, stamp);
      }
    }
  }

  lemma StampedGrows(w: World, acts: seq<Act>, r: nat, stamp: int)
    requires r <= |acts| && Stamped(w, acts[..r], stamp)
    ensures Stamped(w, acts, stamp)
  {
    if i: nat :| WritesAt(w, acts[..r], i) && stamp == ActTime(acts[..r][i]) {
      assert acts[..r][..i] == acts[..i] && WritesAt(w, acts, i);
    }
  }

  /** Nothing is stamped later than `top` as long as no act is. */
  lemma {:induction false} NothingLater(w: World, acts: seq<Act>, top: int)
    requires OneSession(w, acts) && forall i :: 0 <= i < |acts| ==> ActTime(acts[i]) <= top
    requires w.guard.lastHeartbeat <= top && (w.launcher.file.Some? ==> w.launcher.file.value.updatedAt <= top)
    ensures var v := WorldAfter(w, acts);
      v.guard.lastHeartbeat <= top && (v.launcher.file.Some? ==> v.launcher.file.value.updatedAt <= top)
    decreases |acts|
  {
    if acts != [] {
      NothingLater(w, acts[..|acts| - 1], top);
      FileAfterAct(WorldAfter(w, acts[..|acts| - 1]), acts[|acts| - 1]);
    }
  }

  lemma {:induction false} StaysUpToDate(w: World, acts: seq<Act>)
    requires OneSession(w, acts)
    ensures UpToDate(w, acts, WorldAfter(w, acts))
    decreases |acts|
  {
    if acts != [] {
      StaysUpToDate(w, acts[..|acts| - 1]);
      UpToDateOneMore(w, acts, WorldAfter(w, acts[..|acts| - 1]));
    }
  }

  lemma UpToDateOneMore(w: World, acts: seq<Act>, v: World)
    requires acts != [] && OneSession(w, acts)
    requires v == WorldAfter(w, acts[..|acts| - 1]) && UpToDate(w, acts[..|acts| - 1], v)
    ensures UpToDate(w, acts, Does(v, acts[|acts| - 1]))
  {
    var shorter, last := acts[..|acts| - 1], acts[|acts| - 1];
    var v' := Does(v, last);
    FileAfterAct(v, last);
    NothingLater(w, shorter, ActTime(last));
    forall stamp | Stamped(w, acts, stamp)
      ensures v'.launcher.file.Some? && stamp <= v'.launcher.file.value.updatedAt
    {
      StampedOneMore(w, acts, stamp);
    }
    if !v'.guard.expired {
      forall stamp | WasRead(w, acts, stamp)
        ensures stamp <= v'.guard.lastHeartbeat
      {
        WasReadOneMore(w, acts, stamp);
        ReadIsOnDisk(w, shorter, v, stamp);
      }
    }
  }

  /** What has been read is not later than what is on disk. */
  lemma ReadIsOnDisk(w: World, acts: seq<Act>, v: World, stamp: int)
    requires OneSession(w, acts) && v == WorldAfter(w, acts) && UpToDate(w, acts, v)
    requires w.launcher.file.Some? ==> w.guard.lastHeartbeat <= w.launcher.file.value.updatedAt
    ensures WasRead(w, acts, stamp) && v.launcher.file.Some? ==> stamp <= v.launcher.file.value.updatedAt
  {
    if WasRead(w, acts, stamp) && v.launcher.file.Some? {
      if r: nat :| r < |acts| && ReadsAt(w, acts, r, stamp) {
        StampedGrows(w, acts, r, stamp);
      } else {
        InitialIsOlder(w, acts);
      }
    }
  }

  lemma {:induction false} InitialIsOlder(w: World, acts: seq<Act>)
    requires OneSession(w, acts)
    ensures var v := WorldAfter(w, acts);
      v.launcher.file.Some? ==> w.guard.lastHeartbeat <= v.launcher.file.value.updatedAt
    decreases |acts|
  {
    if acts != [] {
      InitialIsOlder(w, acts[..|acts| - 1]);
      FileAfterAct(WorldAfter(w, acts[..|acts| - 1]), acts[|acts| - 1]);
    }
  }

  /** The heartbeat a tick sees, or last saw, is recent. */
  ghost predicate Recent(v: World, a: Act)
    requires a.GuardTick?
  {
    if a.readable then
      && v.launcher.file.Some?
      && v.launcher.file.value.updatedAt <= a.now <= v.launcher.file.value.updatedAt + v.guard.timeout
    else 0 < v.guard.lastHeartbeat <= a.now <= v.guard.lastHeartbeat + v.guard.timeout
  }

  lemma FedIsRecent(w: World, acts: seq<Act>, t: nat, v: World)
    requires OneSession(w, acts) && t < |acts| && acts[t].GuardTick? && Fed(w, acts, t)
    requires v == WorldAfter(w, acts[..t]) && !v.guard.expired
    ensures Recent(v, acts[t])
  {
    var stamp :| FedBy(w, acts, t, stamp);
    StaysUpToDate(w, acts[..t]);
    NothingLater(w, acts[..t], acts[t].now);
  }

  /** The guard has no fault to find with the age of a recent heartbeat. */
  ghost predicate NotTooOld(v: World, a: Act)
    requires a.GuardTick?
  {
    var read := if a.readable then v.launcher.file else None;
    Assess(v.guard, read, a.now, a.alive) !in {Some(ReadFailed), Some(HeartbeatExpired)}
  }

  lemma RecentIsNotTooOld(v: World, a: Act)
    requires a.GuardTick? && Recent(v, a)
    ensures NotTooOld(v, a)
    ensures v.guard.launcher in a.alive ==> Timely(v, a)
  {
  }

  /** Beats that work keep the guard: a tick that is fed finds a heartbeat neither too old, nor
      stamped in the future, nor missing, whatever the game does. */
  lemma BeatsKeepGuard(w: World, acts: seq<Act>, t: nat, v: World)
    requires OneSession(w, acts) && t < |acts| && acts[t].GuardTick? && Fed(w, acts, t)
    requires v == WorldAfter(w, acts[..t]) && !v.guard.expired
    ensures NotTooOld(v, acts[t])
    ensures w.guard.launcher in acts[t].alive ==> Timely(v, acts[t])
  {
    FedIsRecent(w, acts, t, v);
    RecentIsNotTooOld(v, acts[t]);
    GuardKeepsIdentity(w, acts[..t]);
  }

  lemma {:induction false} GuardKeepsIdentity(w: World, acts: seq<Act>)
    ensures WorldAfter(w, acts).guard.launcher == w.guard.launcher
    decreases |acts|
  {
    if acts != [] { GuardKeepsIdentity(w, acts[..|acts| - 1]); }
  }

  // ---- an empty PID list, before and after confirmation ----

  /** The heartbeat a tick sees, or last saw, is recent and the launcher lives. */
  ghost predicate Timely(w: World, a: Act) {
    a.GuardTick? ==>
      && w.guard.launcher in a.alive
      && (a.readable && w.launcher.file.Some? ==>
            var stamp := w.launcher.file.value.updatedAt;
            stamp - MAX_FUTURE_MS <= a.now <= stamp + w.guard.timeout)
      && (!a.readable ==> 0 < w.guard.lastHeartbeat <= a.now <= w.guard.lastHeartbeat + w.guard.timeout)
  }

  /** The session is in place on both sides and tolerates an empty PID list. */
  ghost predicate Flagged(w: World) {
    && w.launcher.active && !Blank(w.launcher.sessionId) && w.launcher.allowEmpty
    && Trim(w.launcher.sessionId) == w.guard.session
    && w.launcher.launcher == w.guard.launcher && w.guard.launcher != 0
    && w.launcher.file.Some? && w.launcher.file.value.allowEmpty
    && w.launcher.file.value.sessionId == w.launcher.sessionId
    && w.launcher.file.value.launcherPid == w.launcher.launcher
    && !w.guard.expired
  }

  lemma FlaggedAct(w: World, a: Act)
    requires Flagged(w) && !a.Restart? && !a.End? && Timely(w, a)
    requires a.Publish? ==> a.update.allowEmpty
    ensures Flagged(Does(w, a))
  {
  }

  lemma {:induction false} FlaggedStays(w: World, acts: seq<Act>)
    requires Flagged(w) && OneSession(w, acts)
    requires forall i :: 0 <= i < |acts| && acts[i].Publish? ==> acts[i].update.allowEmpty
    requires forall t: nat :: t < |acts| ==> Fed(w, acts, t)
    requires forall t :: 0 <= t < |acts| && acts[t].GuardTick? ==> w.guard.launcher in acts[t].alive
    ensures Flagged(WorldAfter(w, acts))
    decreases |acts|
  {
    if acts != [] {
      var shorter := acts[..|acts| - 1];
      forall i: nat | i < |shorter|
        ensures Fed(w, shorter, i)
      {
        FedInPrefix(w, acts, i);
      }
      FlaggedStays(w, shorter);
      FlaggedOneMore(w, acts, WorldAfter(w, shorter));
    }
  }

  lemma FlaggedOneMore(w: World, acts: seq<Act>, v: World)
    requires acts != [] && OneSession(w, acts) && v == WorldAfter(w, acts[..|acts| - 1]) && Flagged(v)
    requires var t := |acts| - 1;
      && (acts[t].Publish? ==> acts[t].update.allowEmpty) && Fed(w, acts, t)
      && (acts[t].GuardTick? ==> w.guard.launcher in acts[t].alive)
    ensures Flagged(Does(v, acts[|acts| - 1]))
  {
    var t := |acts| - 1;
    if acts[t].GuardTick? { BeatsKeepGuard(w, acts, t, v); }
    FlaggedAct(v, acts[t]);
  }

  lemma FedInPrefix(w: World, acts: seq<Act>, t: nat)
    requires t < |acts| - 1 && Fed(w, acts, t)
    ensures Fed(w, acts[..|acts| - 1], t)
  {
    var shorter := acts[..|acts| - 1];
    assert shorter[..t] == acts[..t] && shorter[t] == acts[t];
    if acts[t].GuardTick? {
      var stamp :| FedBy(w, acts, t, stamp);
      assert FedBy(w, shorter, t, stamp);
    }
  }

  /** While the monitor has not confirmed the game, be it starting or relaunching, and heartbeats
      are written in time, no PID list, empty or dead, ends the guard. */
  lemma FlaggedSessionNeverEnds(w: World, acts: seq<Act>, s0: M.State, ps: seq<M.Probe>)
    requires Flagged(w) && Runs.Unstarted(s0) && OneSession(w, acts)
    requires !M.Run(s0, ps).confirmed && Updates(acts) <= M.Run(s0, ps).published
    requires forall t: nat :: t < |acts| ==> Fed(w, acts, t)
    requires forall t :: 0 <= t < |acts| && acts[t].GuardTick? ==> w.guard.launcher in acts[t].alive
    ensures Flagged(WorldAfter(w, acts))
  {
    Runs.TellsSession(s0, ps);
    forall i | 0 <= i < |acts| && acts[i].Publish?
      ensures acts[i].update.allowEmpty
    {
      var k := ListedAt(acts, M.Run(s0, ps).published, i);
    }
    FlaggedStays(w, acts);
  }

  /** The launcher has told the session that no process is left and none is awaited; every
      snapshot written since says so. */
  ghost predicate Over(w: World, before: Option<Snapshot>) {
    && w.launcher.pids == {} && !w.launcher.allowEmpty
    && (w.launcher.file == before
        || (w.launcher.file.Some? && w.launcher.file.value.gamePids == {} && !w.launcher.file.value.allowEmpty))
  }

  lemma {:induction false} StaysOver(w: World, acts: seq<Act>, before: Option<Snapshot>)
    requires Over(w, before)
    requires forall i :: 0 <= i < |acts| ==> acts[i].Beat? || acts[i].GuardTick?
    ensures Over(WorldAfter(w, acts), before)
    decreases |acts|
  {
    if acts != [] { StaysOver(w, acts[..|acts| - 1], before); }
  }

  lemma OverOnceTold(w: World, now: int, works: bool)
    requires w.launcher.active && !Blank(w.launcher.sessionId)
    ensures Over(Does(w, Publish(M.Publication({}, false), now, works)), w.launcher.file)
  {
  }

  lemma OverIsNoticed(w: World, before: Option<Snapshot>, tick: Act)
    requires Over(w, before) && w.launcher.file.Some? && w.launcher.file != before
    requires tick.GuardTick? && tick.readable && !w.guard.expired
    ensures Does(w, tick).guard.expired && Does(w, tick).guard.pids == {}
  {
    assert LivePids(w.launcher.file.value, tick.alive) == {};
  }

  lemma {:induction false} SessionStays(w: World, acts: seq<Act>)
    requires forall i :: 0 <= i < |acts| ==> !acts[i].Restart? && !acts[i].End?
    ensures WorldAfter(w, acts).launcher.active == w.launcher.active
    ensures WorldAfter(w, acts).launcher.sessionId == w.launcher.sessionId
    decreases |acts|
  {
    if acts != [] { SessionStays(w, acts[..|acts| - 1]); }
  }

  lemma {:induction false} WorldSplits(w: World, acts: seq<Act>, tail: seq<Act>)
    ensures WorldAfter(w, acts + tail) == WorldAfter(WorldAfter(w, acts), tail)
    decreases |tail|
  {
    if tail == [] {
      assert acts + tail == acts;
    } else {
      assert (acts + tail)[..|acts + tail| - 1] == acts + tail[..|tail| - 1];
      WorldSplits(w, acts, tail[..|tail| - 1]);
    }
  }

  /** The monitor of a launch has confirmed the game and then found none of it left; everything it
      said has been passed on, last of all `told`, whether or not that could be written at once
      and whether or not the failure ended the monitor.  Then the first tick that can read a
      snapshot newer than the one on disk before makes the guard fail open. */
  lemma GoneGameFailsOpen(w: World, acts: seq<Act>, told: Act, tail: seq<Act>, s0: M.State, ps: seq<M.Probe>,
                          m: M.State, later: World, tick: Act)
    requires Runs.Unstarted(s0) && m == M.Run(s0, ps)
    requires m.confirmed && m.owned == {} && m.phase != M.ExitStopped
    requires told.Publish? && Updates(acts + [told]) == m.published
    requires w.launcher.active && !Blank(w.launcher.sessionId)
    requires forall i :: 0 <= i < |acts| ==> !acts[i].Restart? && !acts[i].End?
    requires forall i :: 0 <= i < |tail| ==> tail[i].Beat? || tail[i].GuardTick?
    requires later == WorldAfter(w, acts + [told] + tail)
    requires later.launcher.file.Some? && later.launcher.file != WorldAfter(w, acts).launcher.file
    requires tick.GuardTick? && tick.readable && !later.guard.expired
    ensures Does(later, tick).guard.expired && Does(later, tick).guard.pids == {}
  {
    var before := WorldAfter(w, acts);
    Runs.TellsSession(s0, ps);
    assert (acts + [told])[..|acts|] == acts;
    assert told.update == m.published[|m.published| - 1] == M.Publication({}, false);
    SessionStays(w, acts);
    OverOnceTold(before, told.now, told.works);
    assert Does(before, told) == WorldAfter(w, acts + [told]);
    WorldSplits(w, acts + [told], tail);
    StaysOver(Does(before, told), tail, before.launcher.file);
    OverIsNoticed(later, before.launcher.file, tick);
  }
}
