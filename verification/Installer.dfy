/** The installer as a transaction over a whole group of files. */
module Installer {
  import opened Common
  import opened FileSystem
  import opened Slots
  import opened InstallSteps

  datatype PreparedFile = PreparedFile(install: FileInstall, existed: bool)

  predicate DuplicateTargets(files: seq<FileInstall>) {
    exists i, j :: 0 <= i < j < |files| && files[i].target == files[j].target
  }

  /** No file's paths collide with another's, and no source is one of them, except that a file
      may be its own source. */
  ghost predicate NonInterfering(files: seq<FileInstall>) {
    && (forall i, j :: 0 <= i < |files| && 0 <= j < |files| && i != j ==>
          files[i].Artefacts() !! files[j].Artefacts() && files[i].source !in files[j].Artefacts())
    && (forall i :: 0 <= i < |files| ==> files[i].source !in {files[i].Temporary(), files[i].Backup()})
  }

  ghost function AllArtefacts(files: seq<FileInstall>): set<Path> {
    set i, p | 0 <= i < |files| && p in files[i].Artefacts() :: p
  }

  function At(fs: Files, files: seq<FileInstall>, i: nat): Slot
    requires i < |files|
  {
    SlotOf(fs, files[i])
  }

  function WantAt(sha: Bytes -> string, files: seq<FileInstall>, i: nat): Want
    requires i < |files|
  {
    Want(sha, files[i].hash)
  }

  ghost predicate NoBackups(fs: Files, files: seq<FileInstall>) {
    forall i :: 0 <= i < |files| ==> At(fs, files, i).backup.None?
  }

  /** Nothing is left beside any target. */
  ghost predicate NoArtefacts(fs: Files, files: seq<FileInstall>) {
    forall i :: 0 <= i < |files| ==> At(fs, files, i).pending.None? && At(fs, files, i).backup.None?
  }

  ghost predicate AllInstalled(sha: Bytes -> string, fs: Files, files: seq<FileInstall>) {
    forall i :: 0 <= i < |files| ==> WantAt(sha, files, i).Accepts(At(fs, files, i).target)
  }

  ghost predicate AllValid(sha: Bytes -> string, fs: Files, files: seq<FileInstall>) {
    forall i :: 0 <= i < |files| ==> ValidInstall(sha, fs, files[i])
  }

  /** Every target that existed at `start` still has its content, in place or in its backup. */
  ghost predicate OldKept(start: Files, fs: Files, files: seq<FileInstall>) {
    forall i :: 0 <= i < |files| && At(start, files, i).target.Some? ==>
      At(start, files, i).target in {At(fs, files, i).target, At(fs, files, i).backup}
  }

  /** What holds of the disk after any number of atomic steps of a run that began at `start`. */
  ghost predicate CrashSafe(sha: Bytes -> string, files: seq<FileInstall>, start: Files, fs: Files) {
    && SameExcept(start, fs, AllArtefacts(files))
    && (NonInterfering(files) ==>
          forall i :: 0 <= i < |files| ==> Safe(WantAt(sha, files, i), At(start, files, i), At(fs, files, i)))
    && (NonInterfering(files) && NoBackups(start, files) ==>
          AllInstalled(sha, fs, files) || OldKept(start, fs, files))
  }

  ghost predicate Trail(sha: Bytes -> string, files: seq<FileInstall>, start: Files,
                        from: seq<Files>, history: seq<Files>) {
    && from <= history
    && forall k :: |from| <= k < |history| ==> CrashSafe(sha, files, start, history[k])
  }

  /** Every file's content, as recovery would settle it, is what it was at `start`. */
  ghost predicate SameContents(sha: Bytes -> string, files: seq<FileInstall>, start: Files, fs: Files) {
    forall i :: 0 <= i < |files| ==>
      Logical(WantAt(sha, files, i), At(fs, files, i)) == Logical(WantAt(sha, files, i), At(start, files, i))
  }

  /** Every file handled before the one at which the run stopped is exactly as recovery leaves it,
      and those after that one have not been touched. The file itself still has its target if
      there was no backup to recover; a temporary of it may be left. */
  ghost predicate RolledBack(sha: Bytes -> string, files: seq<FileInstall>, start: Files, fs: Files, stopped: nat) {
    && (forall i :: 0 <= i < |files| && i < stopped ==>
          At(fs, files, i) == Recovered(WantAt(sha, files, i), At(start, files, i)))
    && (forall i :: stopped < i < |files| ==> At(fs, files, i) == At(start, files, i))
    && (stopped < |files| && At(start, files, stopped).backup.None? ==>
          At(fs, files, stopped).target == At(start, files, stopped).target && At(fs, files, stopped).backup.None?)
  }

  // ---- what a whole run does when nothing faults ----

  ghost function QuietPrepareAll(sha: Bytes -> string, fs: Files, files: seq<FileInstall>, before: seq<PreparedFile>)
    : Option<(Files, seq<PreparedFile>)>
    decreases |files|
  {
    if files == [] then Some((fs, before))
    else
      match QuietPrepare(sha, fs, files[0])
      case None => None
      case Some((next, staged)) =>
        QuietPrepareAll(sha, next, files[1..], Extended(before, files[0], staged))
  }

  ghost function QuietCommitAll(sha: Bytes -> string, fs: Files, prepared: seq<PreparedFile>): Option<Files>
    decreases |prepared|
  {
    if prepared == [] then Some(fs)
    else
      var f := prepared[0].install;
      match QuietCommit(Want(sha, f.hash), fs, f, prepared[0].existed)
      case None => None
      case Some(next) => QuietCommitAll(sha, next, prepared[1..])
  }

  function QuietCleanUp(fs: Files, prepared: seq<PreparedFile>): Files
    decreases |prepared|
  {
    if prepared == [] then fs else QuietCleanUp(fs - {prepared[0].install.Backup()}, prepared[1..])
  }

  /** The disk after an install during which nothing faults, None if it throws all the same. */
  ghost function QuietInstall(sha: Bytes -> string, fs: Files, files: seq<FileInstall>): Option<Files> {
    if DuplicateTargets(files) then None
    else
      match QuietPrepareAll(sha, fs, files, [])
      case None => None
      case Some((staged, prepared)) =>
        match QuietCommitAll(sha, staged, prepared)
        case None => None
        case Some(next) => Some(QuietCleanUp(next, prepared))
  }

  // ---- one run, as the proofs see it ----

  /** A run of the installer: its group, the disk it found and the history before it. */
  datatype Run = Run(sha: Bytes -> string, files: seq<FileInstall>, start: Files, from: seq<Files>) {
    ghost predicate Reaches(fs: Files, history: seq<Files>) {
      SameExcept(start, fs, AllArtefacts(files)) && Trail(sha, files, start, from, history)
    }
  }

  /** The first `n` files are dealt with and those from `untouched` on have not been touched.
      `at` lists the positions of the prepared ones and `originals` their targets' contents;
      `staged` is the disk at that point and `calm` says that no fault has been hidden so far. */
  datatype Prep = Prep(at: seq<nat>, originals: seq<Option<Bytes>>, staged: Files, n: nat, untouched: nat, calm: bool)

  ghost predicate ValidPrep(files: seq<FileInstall>, p: Prep) {
    && |p.at| == |p.originals| && p.n <= |files|
    && (forall k :: 0 <= k < |p.at| ==> p.at[k] < p.n)
    && (forall k, m :: 0 <= k < m < |p.at| ==> p.at[k] < p.at[m])
  }

  ghost predicate Lists(files: seq<FileInstall>, p: Prep, prepared: seq<PreparedFile>)
    requires ValidPrep(files, p)
  {
    && |prepared| == |p.at|
    && forall k :: 0 <= k < |p.at| ==>
         prepared[k].install == files[p.at[k]] && prepared[k].existed == p.originals[k].Some?
  }

  ghost predicate Prepares(run: Run, p: Prep) {
    && ValidPrep(run.files, p)
    && (NonInterfering(run.files) ==>
          && PreparedAreStaged(run, p) && AllCareful(run, p.staged) && OthersAreInstalled(run, p)
          && (p.calm ==> SameContents(run.sha, run.files, run.start, p.staged))
          && (forall i :: p.untouched <= i < |run.files| ==> At(p.staged, run.files, i) == At(run.start, run.files, i)))
  }

  ghost predicate PreparedAreStaged(run: Run, p: Prep)
    requires ValidPrep(run.files, p)
  {
    forall k :: 0 <= k < |p.at| ==>
      Staged(WantAt(run.sha, run.files, p.at[k]), At(p.staged, run.files, p.at[k]), p.originals[k])
  }

  ghost predicate AllCareful(run: Run, fs: Files) {
    forall i :: 0 <= i < |run.files| ==>
      Allows(WantAt(run.sha, run.files, i), CarefulFrom(At(run.start, run.files, i)), At(fs, run.files, i))
  }

  ghost predicate OthersAreInstalled(run: Run, p: Prep)
    requires ValidPrep(run.files, p)
  {
    forall i :: 0 <= i < p.n && i !in p.at ==>
      && WantAt(run.sha, run.files, i).Accepts(At(p.staged, run.files, i).target)
      && (p.calm ==> At(p.staged, run.files, i).pending.None? && At(p.staged, run.files, i).backup.None?)
  }

  lemma OtherSlot(files: seq<FileInstall>, i: nat, j: nat, a: Files, b: Files)
    requires NonInterfering(files) && i < |files| && j < |files| && i != j
    requires SameExcept(a, b, files[j].Artefacts())
    ensures At(a, files, i) == At(b, files, i)
  {
    assert files[i].Artefacts() !! files[j].Artefacts();
    assert {files[i].target, files[i].Temporary(), files[i].Backup()} == files[i].Artefacts();
  }

  lemma OtherSlots(files: seq<FileInstall>, j: nat, a: Files, b: Files)
    requires NonInterfering(files) && j < |files| && SameExcept(a, b, files[j].Artefacts())
    ensures forall i :: 0 <= i < |files| && i != j ==> At(b, files, i) == At(a, files, i)
  {
    forall i | 0 <= i < |files| && i != j
      ensures At(b, files, i) == At(a, files, i)
    {
      OtherSlot(files, i, j, a, b);
    }
  }

  lemma GroupFrame(files: seq<FileInstall>, j: nat, start: Files, a: Files, b: Files)
    requires j < |files|
    requires SameExcept(start, a, AllArtefacts(files)) && SameExcept(a, b, files[j].Artefacts())
    ensures SameExcept(start, b, AllArtefacts(files))
  {
    assert files[j].Artefacts() <= AllArtefacts(files);
    SameExceptTransitive(start, a, b, AllArtefacts(files));
  }

  // ---- preparing ----

  /** A state inside the preparation of the next file is crash-safe. */
  lemma PreparingState(run: Run, p: Prep, next: Files)
    requires Prepares(run, p) && p.n == p.untouched < |run.files|
    requires SameExcept(run.start, p.staged, AllArtefacts(run.files))
    requires AllowedState(WantAt(run.sha, run.files, p.n), CarefulFrom(At(p.staged, run.files, p.n)), p.staged, next,
                          run.files[p.n])
    ensures CrashSafe(run.sha, run.files, run.start, next)
  {
    GroupFrame(run.files, p.n, run.start, p.staged, next);
    if NonInterfering(run.files) {
      CarefulOneMore(run, p, next);
    }
  }

  lemma PreparingTrail(run: Run, p: Prep, before: seq<Files>, next: Files, after: seq<Files>)
    requires Prepares(run, p) && p.n == p.untouched < |run.files| && run.Reaches(p.staged, before)
    requires Since(WantAt(run.sha, run.files, p.n), CarefulFrom(At(p.staged, run.files, p.n)), before, after,
                   p.staged, run.files[p.n])
    requires AllowedState(WantAt(run.sha, run.files, p.n), CarefulFrom(At(p.staged, run.files, p.n)), p.staged, next,
                          run.files[p.n])
    ensures run.Reaches(next, after)
  {
    GroupFrame(run.files, p.n, run.start, p.staged, next);
    forall k | |before| <= k < |after|
      ensures CrashSafe(run.sha, run.files, run.start, after[k])
    {
      PreparingState(run, p, after[k]);
    }
  }

  /** What one more turn of the preparing loop makes of `p`. */
  ghost function NextPrep(files: seq<FileInstall>, p: Prep, next: Files, calm: bool, done: bool, staged: bool): Prep
    requires p.n < |files|
  {
    var q := p.(staged := next, calm := calm, untouched := p.n + 1);
    if !done then q
    else if !staged then q.(n := p.n + 1)
    else q.(n := p.n + 1, at := p.at + [p.n], originals := p.originals + [Look(next, files[p.n].target)])
  }

  lemma CarefulOneMore(run: Run, p: Prep, next: Files)
    requires Prepares(run, p) && p.n < |run.files| && NonInterfering(run.files)
    requires AllowedState(WantAt(run.sha, run.files, p.n), CarefulFrom(At(p.staged, run.files, p.n)), p.staged, next,
                          run.files[p.n])
    ensures AllCareful(run, next)
    ensures forall i :: 0 <= i < |run.files| && i != p.n ==> At(next, run.files, i) == At(p.staged, run.files, i)
  {
    OtherSlots(run.files, p.n, p.staged, next);
  }

  lemma PreparedOneMore(run: Run, p: Prep, next: Files, calm: bool, done: bool, staged: bool)
    requires Prepares(run, p) && p.n == p.untouched < |run.files|
    requires AllowedState(WantAt(run.sha, run.files, p.n), CarefulFrom(At(p.staged, run.files, p.n)), p.staged, next,
                          run.files[p.n])
    requires var w, a, b := WantAt(run.sha, run.files, p.n), At(p.staged, run.files, p.n), At(next, run.files, p.n);
      && (calm ==> p.calm && Logical(w, b) == Logical(w, a))
      && (done && staged ==> Staged(w, b, b.target))
      && (done && !staged ==> w.Accepts(b.target) && (calm ==> b.pending.None? && b.backup.None?))
    ensures Prepares(run, NextPrep(run.files, p, next, calm, done, staged))
  {
    if NonInterfering(run.files) {
      CarefulOneMore(run, p, next);
    }
  }

  /** A valid source is still valid later in the run, until its file has its turn. */
  lemma ValidStill(sha: Bytes -> string, files: seq<FileInstall>, start: Files, fs: Files, i: nat)
    requires NonInterfering(files) && i < |files|
    requires SameExcept(start, fs, AllArtefacts(files))
    requires files[i].source == files[i].target ==>
      var w := WantAt(sha, files, i);
      w.Accepts(At(start, files, i).target) ==> w.Accepts(At(fs, files, i).target)
    ensures ValidInstall(sha, start, files[i]) ==> ValidInstall(sha, fs, files[i])
    ensures At(start, files, i).target == At(fs, files, i).target ==>
      (ValidInstall(sha, start, files[i]) <==> ValidInstall(sha, fs, files[i]))
  {
    if files[i].source != files[i].target {
      assert files[i].source !in files[i].Artefacts();
      assert files[i].source !in AllArtefacts(files);
      assert Look(start, files[i].source) == Look(fs, files[i].source);
    }
  }

  function Extended(before: seq<PreparedFile>, f: FileInstall, staged: Option<bool>): seq<PreparedFile> {
    if staged.None? then before else before + [PreparedFile(f, staged.value)]
  }

  lemma QuietTurn(sha: Bytes -> string, fs: Files, files: seq<FileInstall>, i: nat, before: seq<PreparedFile>)
    requires i < |files|
    ensures var quiet := QuietPrepare(sha, fs, files[i]);
      QuietPrepareAll(sha, fs, files[i..], before) ==
        if quiet.None? then None
        else QuietPrepareAll(sha, quiet.value.0, files[i + 1..], Extended(before, files[i], quiet.value.1))
  {
    assert files[i..][0] == files[i] && files[i..][1..] == files[i + 1..];
  }

  lemma ValidInTurn(run: Run, p: Prep)
    requires Prepares(run, p) && p.n == p.untouched < |run.files|
    requires SameExcept(run.start, p.staged, AllArtefacts(run.files))
    ensures var f := run.files[p.n];
      NonInterfering(run.files) ==>
        && (ValidInstall(run.sha, run.start, f) <==> ValidInstall(run.sha, p.staged, f))
        && f.source !in {f.Temporary(), f.Backup()}
  {
    if NonInterfering(run.files) { ValidStill(run.sha, run.files, run.start, p.staged, p.n); }
  }

  /** One turn of the preparing loop. */
  method PrepareNext(d: Disk, files: seq<FileInstall>, i: nat, before: seq<PreparedFile>,
                     ghost run: Run, ghost q: Prep)
    returns (r: Outcome, prepared: seq<PreparedFile>, ghost p: Prep)
    requires run.sha == d.sha && run.files == files && q.staged == d.files && q.n == q.untouched == i < |files|
    requires run.Reaches(d.files, d.history) && Prepares(run, q) && Lists(files, q, before)
    modifies d
    ensures d.swallowed >= old(d.swallowed)
    ensures run.Reaches(d.files, d.history) && Prepares(run, p) && Lists(files, p, prepared)
    ensures p.staged == d.files && p.calm == (q.calm && d.swallowed == old(d.swallowed)) && p.untouched == i + 1
    ensures p.n == if r.Done? then i + 1 else i
    ensures d.reliable ==> d.swallowed == old(d.swallowed)
    ensures d.reliable && NonInterfering(files) && ValidInstall(d.sha, run.start, files[i]) ==> r.Done?
    ensures NonInterfering(files) && r.Done? ==> ValidInstall(d.sha, run.start, files[i])
    ensures var quiet := QuietPrepare(d.sha, old(d.files), files[i]);
      d.reliable ==> (r.Done? <==> quiet.Some?) && (r.Done? ==>
        d.files == quiet.value.0 && prepared == Extended(before, files[i], quiet.value.1))
  {
    ghost var history := d.history;
    ValidInTurn(run, q);
    var staged;
    r, staged := PrepareOne(d, files[i]);
    ghost var calm := q.calm && d.swallowed == old(d.swallowed);
    PreparingTrail(run, q, history, d.files, d.history);
    PreparedOneMore(run, q, d.files, calm, r.Done?, staged.Some?);
    p := NextPrep(files, q, d.files, calm, r.Done?, staged.Some?);
    prepared := if r.Done? then Extended(before, files[i], staged) else before;
  }

  method PrepareAll(d: Disk, files: seq<FileInstall>, ghost run: Run)
    returns (r: Outcome, prepared: seq<PreparedFile>, ghost p: Prep)
    requires run == Run(d.sha, files, d.files, d.history)
    modifies d
    ensures d.swallowed >= old(d.swallowed)
    ensures run.Reaches(d.files, d.history)
    ensures Prepares(run, p) && Lists(files, p, prepared)
    ensures p.staged == d.files && p.calm == (d.swallowed == old(d.swallowed)) && p.untouched <= p.n + 1
    ensures if r.Done? then p.n == p.untouched == |files| else p.n < |files|
    ensures d.reliable ==> d.swallowed == old(d.swallowed)
    ensures d.reliable && NonInterfering(files) && AllValid(d.sha, old(d.files), files) ==> r.Done?
    ensures NonInterfering(files) && r.Done? ==> AllValid(d.sha, old(d.files), files)
    ensures var quiet := QuietPrepareAll(d.sha, old(d.files), files, []);
      d.reliable ==> (r.Done? <==> quiet.Some?) && (r.Done? ==> (d.files, prepared) == quiet.value)
  {
    ghost var quiet := QuietPrepareAll(d.sha, d.files, files, []);
    assert files[0..] == files;
    r, prepared, p := Done, [], Prep([], [], d.files, 0, 0, true);
    var i := 0;
    while i < |files|
      invariant p.n == p.untouched == i <= |files| && r.Done?
      invariant d.swallowed >= old(d.swallowed)
      invariant run.Reaches(d.files, d.history)
      invariant Prepares(run, p) && Lists(files, p, prepared)
      invariant p.staged == d.files && p.calm == (d.swallowed == old(d.swallowed))
      invariant d.reliable ==> d.swallowed == old(d.swallowed)
      invariant NonInterfering(files) ==> forall j :: 0 <= j < i ==> ValidInstall(d.sha, run.start, files[j])
      invariant d.reliable ==> QuietPrepareAll(d.sha, d.files, files[i..], prepared) == quiet
    {
      QuietTurn(d.sha, d.files, files, i, prepared);
      r, prepared, p := PrepareNext(d, files, i, prepared, run, p);
      if r.Threw? { return; }
      i := i + 1;
    }
  }

  // ---- committing and rolling back ----

  /** Since preparation only prepared slots have moved, and each can still be undone. */
  ghost predicate Committing(run: Run, p: Prep, fs: Files)
    requires ValidPrep(run.files, p)
  {
    NonInterfering(run.files) ==>
      && (forall k :: 0 <= k < |p.at| ==>
            Undoable(WantAt(run.sha, run.files, p.at[k]), At(fs, run.files, p.at[k]), p.originals[k]))
      && (forall i :: 0 <= i < |run.files| && i !in p.at ==> At(fs, run.files, i) == At(p.staged, run.files, i))
  }

  ghost predicate CommittedUpTo(run: Run, p: Prep, fs: Files, c: nat)
    requires ValidPrep(run.files, p)
  {
    NonInterfering(run.files) ==>
      forall k :: 0 <= k < |p.at| ==>
        var w, s := WantAt(run.sha, run.files, p.at[k]), At(fs, run.files, p.at[k]);
        if k < c then Committed(w, s, p.originals[k]) else Staged(w, s, p.originals[k])
  }

  /** Every state of the committing and rollback loops is crash-safe. */
  lemma UndoableState(run: Run, p: Prep, fs: Files)
    requires Prepares(run, p) && Committing(run, p, fs) && SameExcept(run.start, fs, AllArtefacts(run.files))
    ensures CrashSafe(run.sha, run.files, run.start, fs)
  {
    if NonInterfering(run.files) {
      forall i | 0 <= i < |run.files|
        ensures Safe(WantAt(run.sha, run.files, i), At(run.start, run.files, i), At(fs, run.files, i))
      {
        if i in p.at {
          var k :| 0 <= k < |p.at| && p.at[k] == i;
          StagedIsSafe(WantAt(run.sha, run.files, i), At(run.start, run.files, i), At(p.staged, run.files, i),
                       At(fs, run.files, i), p.originals[k]);
        }
      }
    }
  }

  /** One atomic step on a prepared file keeps `Committing`. */
  lemma CommittingStep(run: Run, p: Prep, fs: Files, k: nat, next: Files)
    requires ValidPrep(run.files, p) && k < |p.at| && Committing(run, p, fs)
    requires AllowedState(WantAt(run.sha, run.files, p.at[k]), RuleFor(NonInterfering(run.files), p.originals[k]),
                          fs, next, run.files[p.at[k]])
    ensures Committing(run, p, next)
    ensures NonInterfering(run.files) ==>
      forall m :: 0 <= m < |p.at| && m != k ==> At(next, run.files, p.at[m]) == At(fs, run.files, p.at[m])
  {
    if NonInterfering(run.files) {
      OtherSlots(run.files, p.at[k], fs, next);
      assert forall m :: 0 <= m < |p.at| && m != k ==> p.at[m] != p.at[k];
    }
  }

  /** The states one prepared file goes through leave the group crash-safe. */
  lemma PreparedFileSteps(run: Run, p: Prep, fs: Files, before: seq<Files>, k: nat, next: Files, after: seq<Files>)
    requires Prepares(run, p) && k < |p.at| && Committing(run, p, fs) && run.Reaches(fs, before)
    requires var w, rule := WantAt(run.sha, run.files, p.at[k]), RuleFor(NonInterfering(run.files), p.originals[k]);
      Since(w, rule, before, after, fs, run.files[p.at[k]]) && AllowedState(w, rule, fs, next, run.files[p.at[k]])
    ensures run.Reaches(next, after) && Committing(run, p, next)
  {
    GroupFrame(run.files, p.at[k], run.start, fs, next);
    CommittingStep(run, p, fs, k, next);
    forall m | |before| <= m < |after|
      ensures CrashSafe(run.sha, run.files, run.start, after[m])
    {
      GroupFrame(run.files, p.at[k], run.start, fs, after[m]);
      CommittingStep(run, p, fs, k, after[m]);
      UndoableState(run, p, after[m]);
    }
  }

  /** A rule that promises more than is needed will do. */
  lemma WeakerRule(w: Want, strong: bool, weak: bool, o: Option<Bytes>, before: seq<Files>, after: seq<Files>,
                   fs: Files, next: Files, f: FileInstall)
    requires weak ==> strong
    requires Since(w, RuleFor(strong, o), before, after, fs, f) && AllowedState(w, RuleFor(strong, o), fs, next, f)
    ensures Since(w, RuleFor(weak, o), before, after, fs, f) && AllowedState(w, RuleFor(weak, o), fs, next, f)
  {
  }

  lemma QuietCommitTurn(sha: Bytes -> string, fs: Files, prepared: seq<PreparedFile>, c: nat)
    requires c < |prepared|
    ensures var f := prepared[c].install;
      var quiet := QuietCommit(Want(sha, f.hash), fs, f, prepared[c].existed);
      QuietCommitAll(sha, fs, prepared[c..]) ==
        if quiet.None? then None else QuietCommitAll(sha, quiet.value, prepared[c + 1..])
  {
    assert prepared[c..][0] == prepared[c] && prepared[c..][1..] == prepared[c + 1..];
  }

  method CommitAll(d: Disk, files: seq<FileInstall>, prepared: seq<PreparedFile>, hooked: bool,
                   ghost run: Run, ghost p: Prep) returns (r: Outcome)
    requires run.sha == d.sha && run.files == files && p.staged == d.files
    requires Prepares(run, p) && Lists(files, p, prepared) && run.Reaches(d.files, d.history)
    modifies d
    ensures d.swallowed >= old(d.swallowed)
    ensures run.Reaches(d.files, d.history) && Committing(run, p, d.files)
    ensures r.Done? ==> CommittedUpTo(run, p, d.files, |p.at|)
    ensures d.reliable ==> d.swallowed == old(d.swallowed)
    ensures d.reliable && !hooked && NonInterfering(files) ==> r.Done?
    ensures var quiet := QuietCommitAll(d.sha, old(d.files), prepared);
      d.reliable && !hooked ==> (r.Done? <==> quiet.Some?) && (r.Done? ==> d.files == quiet.value)
  {
    ghost var quiet := QuietCommitAll(d.sha, d.files, prepared);
    assert prepared[0..] == prepared;
    r := Done;
    var c := 0;
    while c < |prepared|
      invariant 0 <= c <= |prepared| && r.Done?
      invariant d.swallowed >= old(d.swallowed)
      invariant run.Reaches(d.files, d.history)
      invariant Committing(run, p, d.files) && CommittedUpTo(run, p, d.files, c)
      invariant d.reliable ==> d.swallowed == old(d.swallowed)
      invariant d.reliable && !hooked ==> QuietCommitAll(d.sha, d.files, prepared[c..]) == quiet
    {
      ghost var fs, history := d.files, d.history;
      QuietCommitTurn(d.sha, d.files, prepared, c);
      r := CommitOne(d, prepared[c].install, prepared[c].existed, hooked, p.originals[c]);
      CommittedOneMore(run, p, fs, history, c, d.files, d.history, r.Done?);
      if r.Threw? { return; }
      c := c + 1;
    }
  }

  lemma CommittedOneMore(run: Run, p: Prep, fs: Files, before: seq<Files>, c: nat, next: Files, after: seq<Files>,
                         done: bool)
    requires Prepares(run, p) && c < |p.at| && run.Reaches(fs, before)
    requires Committing(run, p, fs) && CommittedUpTo(run, p, fs, c)
    requires var w, f, o := WantAt(run.sha, run.files, p.at[c]), run.files[p.at[c]], p.originals[c];
      var ready := Staged(w, SlotOf(fs, f), o);
      && Since(w, RuleFor(ready, o), before, after, fs, f) && AllowedState(w, RuleFor(ready, o), fs, next, f)
      && (ready && done ==> Committed(w, SlotOf(next, f), o))
    ensures run.Reaches(next, after) && Committing(run, p, next)
    ensures done ==> CommittedUpTo(run, p, next, c + 1)
  {
    var w, f, o := WantAt(run.sha, run.files, p.at[c]), run.files[p.at[c]], p.originals[c];
    WeakerRule(w, Staged(w, SlotOf(fs, f), o), NonInterfering(run.files), o, before, after, fs, next, f);
    PreparedFileSteps(run, p, fs, before, c, next, after);
    CommittingStep(run, p, fs, c, next);
  }

  /** The prepared files from `c` on are exactly as they were before the commit. */
  ghost predicate RolledBackFrom(run: Run, p: Prep, fs: Files, c: nat)
    requires ValidPrep(run.files, p)
  {
    forall k :: c <= k < |p.at| ==> At(fs, run.files, p.at[k]) == Slot(p.originals[k], None, None)
  }

  method Rollback(d: Disk, files: seq<FileInstall>, prepared: seq<PreparedFile>, ghost run: Run, ghost p: Prep)
    requires run.sha == d.sha && run.files == files
    requires Prepares(run, p) && Lists(files, p, prepared)
    requires run.Reaches(d.files, d.history) && Committing(run, p, d.files)
    modifies d
    ensures d.swallowed >= old(d.swallowed)
    ensures run.Reaches(d.files, d.history) && Committing(run, p, d.files)
    ensures NonInterfering(files) && d.swallowed == old(d.swallowed) ==> RolledBackFrom(run, p, d.files, 0)
  {
    var c := |prepared|;
    while c > 0
      invariant 0 <= c <= |prepared|
      invariant d.swallowed >= old(d.swallowed)
      invariant run.Reaches(d.files, d.history) && Committing(run, p, d.files)
      invariant NonInterfering(files) && d.swallowed == old(d.swallowed) ==> RolledBackFrom(run, p, d.files, c)
    {
      c := c - 1;
      ghost var fs, history, swallowed := d.files, d.history, d.swallowed;
      RollbackOne(d, prepared[c].install, prepared[c].existed, p.originals[c]);
      RolledBackOneMore(run, p, fs, history, c, d.files, d.history, d.swallowed == swallowed);
    }
  }

  lemma RolledBackOneMore(run: Run, p: Prep, fs: Files, before: seq<Files>, c: nat, next: Files, after: seq<Files>,
                          calm: bool)
    requires Prepares(run, p) && c < |p.at| && run.Reaches(fs, before) && Committing(run, p, fs)
    requires var w, f, o := WantAt(run.sha, run.files, p.at[c]), run.files[p.at[c]], p.originals[c];
      var ready := Undoable(w, SlotOf(fs, f), o);
      && Since(w, RuleFor(ready, o), before, after, fs, f) && AllowedState(w, RuleFor(ready, o), fs, next, f)
      && (ready && calm ==> SlotOf(next, f) == Slot(o, None, None))
    ensures run.Reaches(next, after) && Committing(run, p, next)
    ensures NonInterfering(run.files) && calm && RolledBackFrom(run, p, fs, c + 1) ==> RolledBackFrom(run, p, next, c)
  {
    var w, f, o := WantAt(run.sha, run.files, p.at[c]), run.files[p.at[c]], p.originals[c];
    WeakerRule(w, Undoable(w, SlotOf(fs, f), o), NonInterfering(run.files), o, before, after, fs, next, f);
    PreparedFileSteps(run, p, fs, before, c, next, after);
    CommittingStep(run, p, fs, c, next);
  }

  lemma RolledBackGroup(run: Run, p: Prep, fs: Files)
    requires Prepares(run, p) && p.calm && p.untouched <= p.n + 1 && NonInterfering(run.files)
    requires Committing(run, p, fs) && RolledBackFrom(run, p, fs, 0)
    ensures SameContents(run.sha, run.files, run.start, fs)
    ensures RolledBack(run.sha, run.files, run.start, fs, p.n)
  {
    forall i | 0 <= i < |run.files|
      ensures var w, a, b := WantAt(run.sha, run.files, i), At(run.start, run.files, i), At(fs, run.files, i);
        && Logical(w, b) == Logical(w, a)
        && (i < p.n ==> b == Recovered(w, a))
        && (i > p.n ==> b == a)
        && (i == p.n && a.backup.None? ==> b.target == a.target && b.backup.None?)
    {
      if i in p.at {
        var k :| 0 <= k < |p.at| && p.at[k] == i;
        assert Staged(WantAt(run.sha, run.files, i), At(p.staged, run.files, i), p.originals[k]);
      }
    }
  }

  // ---- cleaning up ----

  /** Once the whole group is committed only backups of prepared files may still change;
      those of the first `c` are gone unless a deletion failed. */
  ghost predicate Finishing(run: Run, p: Prep, fs: Files, c: nat, calm: bool)
    requires ValidPrep(run.files, p)
  {
    NonInterfering(run.files) ==>
      && (forall k :: 0 <= k < |p.at| ==>
            Installed(WantAt(run.sha, run.files, p.at[k]), At(fs, run.files, p.at[k]), p.originals[k]))
      && (forall i :: 0 <= i < |run.files| && i !in p.at ==> At(fs, run.files, i) == At(p.staged, run.files, i))
      && (calm ==> forall k :: 0 <= k < c && k < |p.at| ==> At(fs, run.files, p.at[k]).backup.None?)
  }

  lemma FinishingState(run: Run, p: Prep, fs: Files, c: nat, calm: bool)
    requires Prepares(run, p) && p.n == |run.files| && Finishing(run, p, fs, c, calm)
    requires SameExcept(run.start, fs, AllArtefacts(run.files))
    ensures CrashSafe(run.sha, run.files, run.start, fs)
    ensures NonInterfering(run.files) ==> AllInstalled(run.sha, fs, run.files)
    ensures NonInterfering(run.files) && p.calm && calm && c >= |p.at| ==> NoArtefacts(fs, run.files)
  {
    if NonInterfering(run.files) {
      forall i | 0 <= i < |run.files|
        ensures Safe(WantAt(run.sha, run.files, i), At(run.start, run.files, i), At(fs, run.files, i))
        ensures WantAt(run.sha, run.files, i).Accepts(At(fs, run.files, i).target)
        ensures p.calm && calm && c >= |p.at| ==>
          At(fs, run.files, i).pending.None? && At(fs, run.files, i).backup.None?
      {
        if i in p.at {
          var k :| 0 <= k < |p.at| && p.at[k] == i;
          StagedIsSafe(WantAt(run.sha, run.files, i), At(run.start, run.files, i), At(p.staged, run.files, i),
                       At(fs, run.files, i), p.originals[k]);
        }
      }
    }
  }

  lemma FinishedOneMore(run: Run, p: Prep, fs: Files, before: seq<Files>, c: nat, calm: bool, next: Files, calm': bool)
    requires Prepares(run, p) && p.n == |run.files| && c < |p.at|
    requires run.Reaches(fs, before) && Finishing(run, p, fs, c, calm)
    requires calm' ==> calm && next == fs - {run.files[p.at[c]].Backup()}
    requires next == fs || next == fs - {run.files[p.at[c]].Backup()}
    ensures run.Reaches(next, before + [next]) && Finishing(run, p, next, c + 1, calm')
  {
    var f := run.files[p.at[c]];
    DeleteEffect(fs, f, f.Backup());
    GroupFrame(run.files, p.at[c], run.start, fs, next);
    if NonInterfering(run.files) {
      OtherSlots(run.files, p.at[c], fs, next);
      assert forall m :: 0 <= m < |p.at| && m != c ==> p.at[m] != p.at[c];
    }
    FinishingState(run, p, next, c + 1, calm');
  }

  method CleanUp(d: Disk, files: seq<FileInstall>, prepared: seq<PreparedFile>, ghost run: Run, ghost p: Prep)
    requires run.sha == d.sha && run.files == files && p.n == |files|
    requires Prepares(run, p) && Lists(files, p, prepared) && run.Reaches(d.files, d.history)
    requires Finishing(run, p, d.files, 0, true)
    modifies d
    ensures d.reliable ==> d.files == QuietCleanUp(old(d.files), prepared)
    ensures d.swallowed >= old(d.swallowed)
    ensures run.Reaches(d.files, d.history) && Finishing(run, p, d.files, |p.at|, d.swallowed == old(d.swallowed))
    ensures d.reliable ==> d.swallowed == old(d.swallowed)
  {
    var c := 0;
    assert prepared[0..] == prepared;
    while c < |prepared|
      invariant 0 <= c <= |prepared|
      invariant d.reliable ==> QuietCleanUp(d.files, prepared[c..]) == QuietCleanUp(old(d.files), prepared)
      invariant d.swallowed >= old(d.swallowed)
      invariant run.Reaches(d.files, d.history) && Finishing(run, p, d.files, c, d.swallowed == old(d.swallowed))
      invariant d.reliable ==> d.swallowed == old(d.swallowed)
    {
      ghost var fs, history, calm := d.files, d.history, d.swallowed == old(d.swallowed);
      assert prepared[c..][1..] == prepared[c + 1..];
      d.TryDelete(prepared[c].install.Backup());
      FinishedOneMore(run, p, fs, history, c, calm, d.files, d.swallowed == old(d.swallowed));
      c := c + 1;
    }
  }

  // ---- the whole transaction ----

  lemma SameTargetInterferes(files: seq<FileInstall>)
    requires DuplicateTargets(files)
    ensures !NonInterfering(files)
  {
    var i, j :| 0 <= i < j < |files| && files[i].target == files[j].target;
    assert files[i].target in files[i].Artefacts() * files[j].Artefacts();
  }

  /** TransactionalComponentInstaller.Install.  `hooked` says whether the test hook is present. */
  method Install(d: Disk, files: seq<FileInstall>, hooked: bool) returns (r: Outcome, ghost stopped: nat)
    modifies d
    // Duplicate targets are refused before anything is touched.
    ensures DuplicateTargets(files) ==> r == Threw(InvalidData) && d.files == old(d.files)
    // Crash safety: every state the disk has been through, rollback and cleanup included.
    ensures Trail(d.sha, files, old(d.files), old(d.history), d.history)
    ensures SameExcept(old(d.files), d.files, AllArtefacts(files))
    ensures d.swallowed >= old(d.swallowed)
    // All: every source was valid, every target holds its expected content and nothing is left beside it.
    ensures NonInterfering(files) && r.Done? ==>
      && AllValid(d.sha, old(d.files), files)
      && AllInstalled(d.sha, d.files, files)
      && (d.swallowed == old(d.swallowed) ==> NoArtefacts(d.files, files))
    // Nothing: no content has changed, and every file handled is as recovery leaves it.
    ensures NonInterfering(files) && r.Threw? && d.swallowed == old(d.swallowed) ==>
      && SameContents(d.sha, files, old(d.files), d.files)
      && RolledBack(d.sha, files, old(d.files), d.files, stopped)
    // Without faults a valid group is always installed, whatever an earlier attempt left behind.
    ensures d.reliable && !hooked && NonInterfering(files) && AllValid(d.sha, old(d.files), files) ==>
      r.Done? && d.swallowed == old(d.swallowed)
    // Without faults, and for any group at all, it returns exactly when QuietInstall has a result,
    // and with exactly that disk.
    ensures var quiet := QuietInstall(d.sha, old(d.files), files);
      d.reliable && !hooked ==> (r.Done? <==> quiet.Some?) && (r.Done? ==> d.files == quiet.value)
  {
    stopped := |files|;
    if |files| == 0 { return Done, stopped; }
    if DuplicateTargets(files) {
      SameTargetInterferes(files);
      return Threw(InvalidData), stopped;
    }
    ghost var run := Run(d.sha, files, d.files, d.history);
    var prepared;
    ghost var p;
    r, prepared, p := PrepareAll(d, files, run);
    stopped := p.n;
    if r.Done? {
      r := CommitAll(d, files, prepared, hooked, run, p);
      if r.Done? {
        CleanUp(d, files, prepared, run, p);
        ghost var calm := d.swallowed == old(d.swallowed);
        FinishingState(run, p, d.files, |p.at|, calm);
        return;
      }
    }
    Rollback(d, files, prepared, run, p);
    if NonInterfering(files) && d.swallowed == old(d.swallowed) {
      RolledBackGroup(run, p, d.files);
    }
  }
}
