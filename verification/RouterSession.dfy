/** The launcher's side of the Route Guard session: ProcessRouterService and its heartbeat file. */
module RouterSessions {
  import opened Common
  import opened Text
  import opened SessionGuards

  /** `active` says that the session accepts updates, `beating` that its heartbeat loop runs. */
  datatype Session = Session(launcher: Pid, sessionId: string, active: bool, beating: bool, pids: set<Pid>,
                             allowEmpty: bool, file: Option<Snapshot>)

  function Heartbeat(s: Session, now: int): Snapshot {
    Snapshot(s.sessionId, s.launcher, now, s.pids, s.allowEmpty)
  }

  /** The file is replaced as a whole, or not at all when the replacement fails. */
  function Write(s: Session, now: int, works: bool): Session {
    if Blank(s.sessionId) || !works then s else s.(file := Some(Heartbeat(s, now)))
  }

  /** The heartbeat loop starts only once the first heartbeat has been written. */
  function Begin(s: Session, id: string, pids: set<Pid>, allowEmpty: bool, now: int, works: bool): Session {
    Write(s.(active := true, beating := Blank(id) || works,
             sessionId := id, pids := pids - {0}, allowEmpty := allowEmpty), now, works)
  }

  function KeepAlive(s: Session, now: int, works: bool): Session {
    if s.beating then Write(s, now, works) else s
  }

  /** Only a session that accepts updates and holds another one takes this one. */
  predicate Takes(s: Session, pids: set<Pid>, allowEmpty: bool) {
    !Blank(s.sessionId) && s.active && (s.pids != pids - {0} || s.allowEmpty != allowEmpty)
  }

  function Update(s: Session, pids: set<Pid>, allowEmpty: bool, now: int, works: bool): Session {
    if Takes(s, pids, allowEmpty) then Write(s.(pids := pids - {0}, allowEmpty := allowEmpty), now, works) else s
  }

  function Stop(s: Session, deleted: bool): Session {
    s.(active := false, beating := false, pids := {}, allowEmpty := false, sessionId := "",
       file := if deleted then None else s.file)
  }

  class ProcessRouterService {
    const launcher: Pid
    var sessionId: string
    /** _heartbeatCts is set. */
    var heartbeatOn: bool
    /** A heartbeat loop is running on it. */
    var beating: bool
    var gamePids: set<Pid>
    var allowEmptyGamePids: bool
    var processGeneration: nat
    var stopRequested: bool
    /** The heartbeat file on disk. */
    var file: Option<Snapshot>

    function View(): Session reads this {
      Session(launcher, sessionId, heartbeatOn, beating, gamePids, allowEmptyGamePids, file)
    }

    constructor (launcher: Pid)
      ensures View() == Session(launcher, "", false, false, {}, false, None)
    {
      this.launcher := launcher;
      sessionId, heartbeatOn, beating, gamePids, allowEmptyGamePids, file := "", false, false, {}, false, None;
      processGeneration, stopRequested := 0, false;
    }

    /** WriteSessionHeartbeatLocked; `moves` says which of the five File.Move attempts work. */
    method WriteHeartbeat(now: int, moves: seq<bool>) returns (ok: bool)
      requires |moves| == 5
      modifies this`file
      ensures ok == (Blank(sessionId) || true in moves)
      ensures View() == Write(old(View()), now, true in moves)
    {
      if Blank(sessionId) { return true; }
      ok := false;
      for attempt := 1 to 6
        invariant !ok && true !in moves[..attempt - 1]
        invariant file == old(file)
      {
        if moves[attempt - 1] {
          file := Some(Snapshot(sessionId, launcher, now, gamePids, allowEmptyGamePids));
          ok := true;
          assert moves[attempt - 1] in moves;
          return;
        }
      }
      assert moves[..5] == moves;
    }

    /** `ok` is false when the first write throws, which leaves the session without a loop. */
    method BeginSession(id: string, pids: set<Pid>, allowEmpty: bool, now: int, moves: seq<bool>) returns (ok: bool)
      requires |moves| == 5
      modifies this
      ensures View() == Begin(old(View()), id, pids, allowEmpty, now, true in moves)
      ensures ok == (Blank(id) || true in moves)
    {
      sessionId, heartbeatOn, gamePids, allowEmptyGamePids := id, true, pids - {0}, allowEmpty;
      beating := false;
      ok := WriteHeartbeat(now, moves);
      if ok { beating := true; }
    }

    /** `ok` is false when the write throws; the new values are kept all the same. */
    method UpdateGameSession(pids: set<Pid>, allowEmpty: bool, now: int, moves: seq<bool>) returns (ok: bool)
      requires |moves| == 5
      modifies this
      ensures View() == Update(old(View()), pids, allowEmpty, now, true in moves)
      ensures ok == (!Takes(old(View()), pids, allowEmpty) || true in moves)
    {
      var normal := pids - {0};
      if Blank(sessionId) || !heartbeatOn { return true; }
      if gamePids == normal && allowEmptyGamePids == allowEmpty { return true; }
      gamePids, allowEmptyGamePids := normal, allowEmpty;
      ok := WriteHeartbeat(now, moves);
    }

    /** One turn of RunHeartbeatAsync; a failed write is retried by the next turn. */
    method OnHeartbeat(now: int, moves: seq<bool>)
      requires |moves| == 5
      modifies this`file
      ensures View() == KeepAlive(old(View()), now, true in moves)
    {
      if beating {
        var _ := WriteHeartbeat(now, moves);
      }
    }

    method StopSession(deletes: bool)
      modifies this
      ensures View() == Stop(old(View()), deletes && !Blank(old(sessionId)))
      ensures stopRequested && processGeneration == old(processGeneration) + 1
    {
      stopRequested, processGeneration := true, processGeneration + 1;
      heartbeatOn, beating, gamePids, allowEmptyGamePids := false, false, {}, false;
      if !Blank(sessionId) && deletes {
        file := None;
      }
      sessionId := "";
    }
  }
}
