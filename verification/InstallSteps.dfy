/** The transactional component installer: its per-file steps. */
module InstallSteps {
  import opened Common
  import opened FileSystem
  import opened Text
  import opened Slots

  datatype Error = InvalidData | FileNotFound | HashMismatch | Io
  datatype Outcome = Done | Threw(error: Error)

  function WantOf(d: Disk, f: FileInstall): Want { Want(d.sha, f.hash) }

  /** What ValidateInstall accepts when no read faults. */
  ghost predicate ValidInstall(sha: Bytes -> string, fs: Files, f: FileInstall) {
    && !Blank(f.source) && f.source in fs
    && !Blank(f.target)
    && IsSha256(f.hash)
    && Want(sha, f.hash).Accepts(Look(fs, f.source))
  }

  // ---- what the steps do when nothing faults ----

  ghost function QuietRecover(w: Want, fs: Files, f: FileInstall): Files {
    var a := fs - {f.Temporary()};
    if f.Backup() !in a then a
    else if w.Accepts(Look(a, f.target)) then a - {f.Backup()}
    else (a - {f.target, f.Backup()})[f.target := a[f.Backup()]]
  }

  ghost function QuietStage(w: Want, fs: Files, f: FileInstall): Option<Files> {
    var a := fs - {f.Temporary()};
    if f.source !in a || !w.Accepts(Look(a, f.source)) then None else Some(a[f.Temporary() := a[f.source]])
  }

  /** None when preparing throws; otherwise the new disk and what PrepareOne reports. */
  ghost function QuietPrepare(sha: Bytes -> string, fs: Files, f: FileInstall): Option<(Files, Option<bool>)> {
    if !ValidInstall(sha, fs, f) then None
    else
      var w, a := Want(sha, f.hash), QuietRecover(Want(sha, f.hash), fs, f);
      if w.Accepts(Look(a, f.target)) then Some((a, None))
      else
        var staged := QuietStage(w, a, f);
        if staged.None? then None else Some((staged.value, Some(f.target in staged.value)))
  }

  ghost function QuietCommit(w: Want, fs: Files, f: FileInstall, existed: bool): Option<Files> {
    var a := fs - {f.Backup()};
    if existed && f.target !in a then None
    else
      var b := if existed then (a - {f.target})[f.Backup() := a[f.target]] else a;
      if f.Temporary() in b && w.Accepts(Look(b, f.Temporary()))
      then Some((b - {f.Temporary()})[f.target := b[f.Temporary()]])
      else None
  }

  /** TryDelete of one of the paths of `f`, inside a phase that obeys `rule`. */
  method DeleteStep(d: Disk, f: FileInstall, p: Path, ghost rule: Rule, ghost from: seq<Files>, ghost start: Files)
    requires p in f.Artefacts()
    requires Since(WantOf(d, f), rule, from, d.history, start, f)
    requires AllowedState(WantOf(d, f), rule, start, d.files, f)
    requires Allows(WantOf(d, f), rule, SlotOf(d.files - {p}, f))
    modifies d
    ensures Since(WantOf(d, f), rule, from, d.history, start, f)
    ensures AllowedState(WantOf(d, f), rule, start, d.files, f)
    ensures d.swallowed >= old(d.swallowed)
    ensures SlotOf(d.files, f) == old(SlotOf(d.files - {p}, f))
         || (SlotOf(d.files, f) == old(SlotOf(d.files, f)) && d.swallowed > old(d.swallowed))
    ensures d.reliable ==> d.swallowed == old(d.swallowed) && d.files == old(d.files) - {p}
  {
    DeleteEffect(d.files, f, p);
    SameExceptTransitive(start, d.files, d.files - {p}, f.Artefacts());
    ghost var history := d.history;
    d.TryDelete(p);
    Record(WantOf(d, f), rule, from, history, start, f, d.files);
  }

  /** File.Move between two of the paths of `f`, inside a phase that obeys `rule`. */
  method MoveStep(d: Disk, f: FileInstall, source: Path, to: Path,
                  ghost rule: Rule, ghost from: seq<Files>, ghost start: Files) returns (ok: bool)
    requires source in f.Artefacts() && to in f.Artefacts()
    requires Since(WantOf(d, f), rule, from, d.history, start, f)
    requires AllowedState(WantOf(d, f), rule, start, d.files, f)
    requires source in d.files ==>
      Allows(WantOf(d, f), rule, SlotOf((d.files - {source})[to := d.files[source]], f))
    modifies d`files, d`history
    ensures Since(WantOf(d, f), rule, from, d.history, start, f)
    ensures AllowedState(WantOf(d, f), rule, start, d.files, f)
    ensures ok ==>
      source in old(d.files) && d.files == (old(d.files) - {source})[to := old(d.files)[source]]
    ensures !ok ==> d.files == old(d.files)
    ensures d.reliable && source in old(d.files) ==> ok
  {
    if source in d.files {
      MoveEffect(d.files, f, source, to);
      SameExceptTransitive(start, d.files, (d.files - {source})[to := d.files[source]], f.Artefacts());
    }
    ghost var history := d.history;
    ok := d.Move(source, to);
    Record(WantOf(d, f), rule, from, history, start, f, d.files);
  }

  /** File.Copy of the source to the temporary path, inside a phase that obeys `rule`. */
  method CopyStep(d: Disk, f: FileInstall, ghost rule: Rule, ghost from: seq<Files>, ghost start: Files)
    returns (ok: bool)
    requires Since(WantOf(d, f), rule, from, d.history, start, f)
    requires AllowedState(WantOf(d, f), rule, start, d.files, f)
    requires forall c :: Allows(WantOf(d, f), rule, SlotOf(d.files, f).(pending := c))
    modifies d`files, d`history
    ensures Since(WantOf(d, f), rule, from, d.history, start, f)
    ensures AllowedState(WantOf(d, f), rule, start, d.files, f)
    ensures SlotOf(d.files, f) == old(SlotOf(d.files, f)).(pending := Look(d.files, f.Temporary()))
    ensures f.source != f.Temporary() ==> Look(d.files, f.source) == old(Look(d.files, f.source))
    ensures ok ==> f.source in old(d.files) && d.files == old(d.files)[f.Temporary() := old(d.files)[f.source]]
    ensures d.reliable && f.source in old(d.files) ==> ok
  {
    ghost var before, history, paths := d.files, d.history, {f.Temporary()};
    ok := d.Copy(f.source, f.Temporary());
    ghost var middle := d.history[|history|];
    PendingEffect(before, middle, f);
    PendingEffect(before, d.files, f);
    SameExceptTransitive(start, before, middle, f.Artefacts());
    SameExceptTransitive(start, before, d.files, f.Artefacts());
    Record(WantOf(d, f), rule, from, history, start, f, middle);
    Record(WantOf(d, f), rule, from, history + [middle], start, f, d.files);
    assert d.history == history + [middle] + [d.files];
  }

  method VerifyHash(d: Disk, p: Path, hash: string) returns (r: Outcome)
    ensures r.Done? ==> Want(d.sha, hash).Accepts(Look(d.files, p))
    ensures r in {Done, Threw(Io), Threw(HashMismatch)}
    ensures d.reliable && Want(d.sha, hash).Accepts(Look(d.files, p)) ==> r.Done?
  {
    var actual := d.ReadHash(p);
    r := if actual.None? then Threw(Io)
         else if EqualIgnoringCase(actual.value, hash) then Done
         else Threw(HashMismatch);
  }

  method ValidateInstall(d: Disk, f: FileInstall) returns (r: Outcome)
    ensures r.Done? ==> ValidInstall(d.sha, d.files, f)
    ensures d.reliable && ValidInstall(d.sha, d.files, f) ==> r.Done?
    ensures r == Threw(FileNotFound) <==> Blank(f.source) || f.source !in d.files
    ensures r == Threw(InvalidData) <==>
      !Blank(f.source) && f.source in d.files && (Blank(f.target) || !IsSha256(f.hash))
  {
    if Blank(f.source) || f.source !in d.files { return Threw(FileNotFound); }
    if Blank(f.target) { return Threw(InvalidData); }
    if !IsSha256(f.hash) { return Threw(InvalidData); }
    r := VerifyHash(d, f.source, f.hash);
  }

  method RecoverTarget(d: Disk, f: FileInstall) returns (r: Outcome)
    modifies d
    ensures Since(WantOf(d, f), CarefulFrom(old(SlotOf(d.files, f))), old(d.history), d.history, old(d.files), f)
    ensures AllowedState(WantOf(d, f), CarefulFrom(old(SlotOf(d.files, f))), old(d.files), d.files, f)
    ensures d.swallowed >= old(d.swallowed)
    ensures d.swallowed == old(d.swallowed) ==>
      Logical(WantOf(d, f), SlotOf(d.files, f)) == Logical(WantOf(d, f), old(SlotOf(d.files, f)))
    ensures r.Done? && d.swallowed == old(d.swallowed) ==>
      SlotOf(d.files, f) == Recovered(WantOf(d, f), old(SlotOf(d.files, f)))
    ensures r.Done? ==>
      Look(d.files, f.Backup()).None? || WantOf(d, f).Accepts(Look(d.files, f.target))
    ensures d.reliable ==> r.Done? && d.swallowed == old(d.swallowed)
    ensures d.reliable ==> d.files == QuietRecover(WantOf(d, f), old(d.files), f)
  {
    ghost var w, start, rule := WantOf(d, f), d.files, CarefulFrom(SlotOf(d.files, f));
    DeleteStep(d, f, f.Temporary(), rule, d.history, start);
    if f.Backup() !in d.files { return Done; }
    if f.target in d.files {
      var hash := d.ReadHash(f.target);
      if hash.Some? && EqualIgnoringCase(hash.value, f.hash) {
        DeleteStep(d, f, f.Backup(), rule, old(d.history), start);
        return Done;
      }
      if hash.None? {
        d.swallowed := d.swallowed + 1;
      }
      DeleteStep(d, f, f.target, rule, old(d.history), start);
    }
    var ok := MoveStep(d, f, f.Backup(), f.target, rule, old(d.history), start);
    r := if ok then Done else Threw(Io);
  }

  /** Copies the source beside a target that differs, and verifies the copy. */
  method StageOne(d: Disk, f: FileInstall, ghost rule: Rule, ghost from: seq<Files>, ghost start: Files)
    returns (r: Outcome)
    requires rule.CarefulFrom? && Since(WantOf(d, f), rule, from, d.history, start, f)
    requires AllowedState(WantOf(d, f), rule, start, d.files, f)
    modifies d
    ensures Since(WantOf(d, f), rule, from, d.history, start, f)
    ensures AllowedState(WantOf(d, f), rule, start, d.files, f)
    ensures d.swallowed >= old(d.swallowed)
    ensures SlotOf(d.files, f) == old(SlotOf(d.files, f)).(pending := Look(d.files, f.Temporary()))
    ensures r.Done? ==> WantOf(d, f).Accepts(Look(d.files, f.Temporary()))
    ensures d.reliable ==> d.swallowed == old(d.swallowed)
    ensures var quiet := QuietStage(WantOf(d, f), old(d.files), f);
      d.reliable ==> (r.Done? <==> quiet.Some?) && (r.Done? ==> d.files == quiet.value)
  {
    DeleteStep(d, f, f.Temporary(), rule, from, start);
    var ok := CopyStep(d, f, rule, from, start);
    if !ok { return Threw(if f.source in d.files then Io else FileNotFound); }
    r := VerifyHash(d, f.Temporary(), f.hash);
  }

  /** The body of the preparing loop.  `staged` is None when the target is already installed;
      otherwise it says whether the target existed. */
  method PrepareOne(d: Disk, f: FileInstall) returns (r: Outcome, staged: Option<bool>)
    modifies d
    ensures Since(WantOf(d, f), CarefulFrom(old(SlotOf(d.files, f))), old(d.history), d.history, old(d.files), f)
    ensures AllowedState(WantOf(d, f), CarefulFrom(old(SlotOf(d.files, f))), old(d.files), d.files, f)
    ensures d.swallowed >= old(d.swallowed)
    ensures d.swallowed == old(d.swallowed) ==>
      Logical(WantOf(d, f), SlotOf(d.files, f)) == Logical(WantOf(d, f), old(SlotOf(d.files, f)))
    ensures r.Done? && staged.None? ==>
      WantOf(d, f).Accepts(Look(d.files, f.target))
    ensures r.Done? && staged.None? && d.swallowed == old(d.swallowed) ==>
      Look(d.files, f.Temporary()).None? && Look(d.files, f.Backup()).None?
    ensures r.Done? && staged.Some? ==>
      && Staged(WantOf(d, f), SlotOf(d.files, f), Look(d.files, f.target))
      && staged.value == (f.target in d.files)
    ensures d.reliable ==> d.swallowed == old(d.swallowed)
    ensures r.Done? ==> ValidInstall(d.sha, old(d.files), f)
    ensures d.reliable && ValidInstall(d.sha, old(d.files), f) && f.source !in {f.Temporary(), f.Backup()} ==> r.Done?
    ensures var quiet := QuietPrepare(d.sha, old(d.files), f);
      d.reliable ==> (r.Done? <==> quiet.Some?) && (r.Done? ==> (d.files, staged) == quiet.value)
  {
    ghost var w, start, rule := WantOf(d, f), d.files, CarefulFrom(SlotOf(d.files, f));
    staged := None;
    r := ValidateInstall(d, f);
    if r.Threw? { return; }
    var directoryFails: bool := *;
    if !d.reliable && directoryFails { return Threw(Io), None; }
    r := RecoverTarget(d, f);
    if r.Threw? { return; }
    if f.target in d.files {
      var hash := d.ReadHash(f.target);
      if hash.None? { return Threw(Io), None; }
      if EqualIgnoringCase(hash.value, f.hash) { return Done, None; }
    }
    r := StageOne(d, f, rule, old(d.history), start);
    if r.Threw? { return; }
    staged := Some(f.target in d.files);
  }

  /** The rule of a commit or a rollback that starts from a slot satisfying `ready`. */
  ghost function RuleFor(ready: bool, o: Option<Bytes>): Rule {
    if ready then UndoableTo(o) else AnySlot
  }

  /** One round of the committing loop; `hooked` is the optional test hook, which may throw. */
  method CommitOne(d: Disk, f: FileInstall, existed: bool, hooked: bool, ghost o: Option<Bytes>) returns (r: Outcome)
    requires existed == o.Some?
    modifies d
    ensures var w, ready := WantOf(d, f), old(Staged(WantOf(d, f), SlotOf(d.files, f), o));
      && Since(w, RuleFor(ready, o), old(d.history), d.history, old(d.files), f)
      && AllowedState(w, RuleFor(ready, o), old(d.files), d.files, f)
      && (ready && r.Done? ==> Committed(w, SlotOf(d.files, f), o))
      && (ready && d.reliable && !hooked ==> r.Done?)
    ensures d.swallowed >= old(d.swallowed)
    ensures d.reliable ==> d.swallowed == old(d.swallowed)
    ensures var quiet := QuietCommit(WantOf(d, f), old(d.files), f, existed);
      d.reliable && !hooked ==> (r.Done? <==> quiet.Some?) && (r.Done? ==> d.files == quiet.value)
  {
    ghost var start := d.files;
    ghost var rule := RuleFor(Staged(WantOf(d, f), SlotOf(d.files, f), o), o);
    var hookThrows: bool := *;
    if hooked && hookThrows { return Threw(Io); }
    DeleteStep(d, f, f.Backup(), rule, old(d.history), start);
    if existed {
      var moved := MoveStep(d, f, f.target, f.Backup(), rule, old(d.history), start);
      if !moved { return Threw(Io); }
    }
    var ok := MoveStep(d, f, f.Temporary(), f.target, rule, old(d.history), start);
    if !ok { return Threw(Io); }
    r := VerifyHash(d, f.target, f.hash);
  }

  /** One round of the rollback loop. */
  method RollbackOne(d: Disk, f: FileInstall, existed: bool, ghost o: Option<Bytes>)
    requires existed == o.Some?
    modifies d
    ensures var w, ready := WantOf(d, f), old(Undoable(WantOf(d, f), SlotOf(d.files, f), o));
      && Since(w, RuleFor(ready, o), old(d.history), d.history, old(d.files), f)
      && AllowedState(w, RuleFor(ready, o), old(d.files), d.files, f)
      && (ready && d.swallowed == old(d.swallowed) ==> SlotOf(d.files, f) == Slot(o, None, None))
    ensures d.swallowed >= old(d.swallowed)
  {
    ghost var start := d.files;
    ghost var rule := RuleFor(Undoable(WantOf(d, f), SlotOf(d.files, f), o), o);
    DeleteStep(d, f, f.Temporary(), rule, old(d.history), start);
    if f.Backup() in d.files {
      DeleteStep(d, f, f.target, rule, old(d.history), start);
      var ok := MoveStep(d, f, f.Backup(), f.target, rule, old(d.history), start);
      if !ok { d.swallowed := d.swallowed + 1; }
    } else if !existed {
      DeleteStep(d, f, f.target, rule, old(d.history), start);
    }
  }
}
