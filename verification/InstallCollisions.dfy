/** When the paths of a group collide: what an install without faults then deletes, and when it
    installs the whole group. */
module InstallCollisions {
  import opened Common
  import opened FileSystem
  import opened Slots
  import opened InstallSteps
  import opened Installer

  // ---- paths ----

  lemma SiblingsDiffer(f: FileInstall, g: FileInstall)
    ensures f.Temporary() != g.Backup()
    ensures f.Temporary() == g.Temporary() || f.Backup() == g.Backup() ==> f.target == g.target
  {
    assert f.Temporary()[|f.Temporary()| - 1] == 'w' && g.Backup()[|g.Backup()| - 1] == 'p';
    assert f.Temporary()[..|f.Temporary()| - 14] == f.target && g.Temporary()[..|g.Temporary()| - 14] == g.target;
    assert f.Backup()[..|f.Backup()| - 17] == f.target && g.Backup()[..|g.Backup()| - 17] == g.target;
  }

  /** No file is to be installed where another one's new or old content is kept meanwhile. */
  predicate NoCollision(files: seq<FileInstall>) {
    forall i, j :: 0 <= i < |files| && 0 <= j < |files| && i != j ==>
      files[j].target != files[i].Temporary() && files[j].target != files[i].Backup()
  }

  ghost predicate SourcesApart(files: seq<FileInstall>) {
    forall i, j :: 0 <= i < |files| && 0 <= j < |files| ==> files[i].source !in files[j].Artefacts()
  }

  /** Different targets collide in no other way. */
  lemma InterferesIffCollides(files: seq<FileInstall>)
    requires !DuplicateTargets(files) && SourcesApart(files)
    ensures NonInterfering(files) <==> NoCollision(files)
  {
    if NoCollision(files) {
      forall i, j | 0 <= i < |files| && 0 <= j < |files| && i != j
        ensures files[i].Artefacts() !! files[j].Artefacts()
      {
        SiblingsDiffer(files[i], files[j]);
        SiblingsDiffer(files[j], files[i]);
        assert files[i].target != files[j].target;
      }
    } else {
      var i, j :| 0 <= i < |files| && 0 <= j < |files| && i != j &&
                  (files[j].target == files[i].Temporary() || files[j].target == files[i].Backup());
      assert files[j].target in files[i].Artefacts() * files[j].Artefacts();
    }
  }

  // ---- what a whole run leaves of the siblings ----

  lemma {:induction false} CleanUpRemoves(fs: Files, prepared: seq<PreparedFile>, p: Path)
    ensures p in QuietCleanUp(fs, prepared) <==>
      p in fs && forall m :: 0 <= m < |prepared| ==> prepared[m].install.Backup() != p
    ensures p in QuietCleanUp(fs, prepared) ==> QuietCleanUp(fs, prepared)[p] == fs[p]
    decreases |prepared|
  {
    if prepared != [] {
      CleanUpRemoves(fs - {prepared[0].install.Backup()}, prepared[1..], p);
      assert prepared == [prepared[0]] + prepared[1..];
      assert forall m :: 0 <= m < |prepared| - 1 ==> prepared[1..][m] == prepared[m + 1];
    }
  }

  /** A file prepared after another one whose temporary is its target found that temporary there. */
  ghost predicate SawTemporaries(prepared: seq<PreparedFile>) {
    forall m, n :: 0 <= m < n < |prepared| && prepared[n].install.target == prepared[m].install.Temporary() ==>
      prepared[n].existed
  }

  /** A temporary that is gone when the commits `rest` begin does not come back. */
  lemma {:induction false} StaysGone(sha: Bytes -> string, fs: Files, rest: seq<PreparedFile>, f: FileInstall)
    requires f.Temporary() !in fs && QuietCommitAll(sha, fs, rest).Some?
    requires forall n :: 0 <= n < |rest| && rest[n].install.target == f.Temporary() ==> rest[n].existed
    ensures f.Temporary() !in QuietCommitAll(sha, fs, rest).value
    decreases |rest|
  {
    if rest != [] {
      var g := rest[0].install;
      SiblingsDiffer(f, g);
      var next := QuietCommit(Want(sha, g.hash), fs, g, rest[0].existed).value;
      assert f.Temporary() !in next;
      assert forall n :: 0 <= n < |rest| - 1 ==> rest[1..][n] == rest[n + 1];
      StaysGone(sha, next, rest[1..], f);
    }
  }

  lemma {:induction false} TemporaryIsGone(sha: Bytes -> string, fs: Files, prepared: seq<PreparedFile>, m: nat)
    requires m < |prepared| && SawTemporaries(prepared) && QuietCommitAll(sha, fs, prepared).Some?
    ensures prepared[m].install.Temporary() !in QuietCommitAll(sha, fs, prepared).value
    decreases |prepared|
  {
    var f, rest := prepared[0].install, prepared[1..];
    var next := QuietCommit(Want(sha, f.hash), fs, f, prepared[0].existed).value;
    assert forall n :: 0 <= n < |rest| ==> rest[n] == prepared[n + 1];
    if m == 0 {
      PathsDiffer(f);
      assert f.Temporary() !in next;
      StaysGone(sha, next, rest, f);
    } else {
      assert SawTemporaries(rest);
      TemporaryIsGone(sha, next, rest, m - 1);
    }
  }

  // ---- preparing ----

  ghost function Temporaries(prepared: seq<PreparedFile>): set<Path> {
    set m | 0 <= m < |prepared| :: prepared[m].install.Temporary()
  }

  /** While nothing has been committed, new content is found only in temporaries. */
  ghost predicate OnlyStagedIsNew(sha: Bytes -> string, all: seq<FileInstall>, fs: Files, before: seq<PreparedFile>) {
    forall p, i :: p in AllArtefacts(all) && p !in Temporaries(before) && 0 <= i < |all| ==>
      !WantAt(sha, all, i).Accepts(Look(fs, p))
  }

  /** What the preparing loop keeps, for the group `all` of which `n` files have had their turn. */
  ghost predicate Preparing(all: seq<FileInstall>, n: nat, fs: Files, before: seq<PreparedFile>) {
    && n <= |all| && SawTemporaries(before) && Temporaries(before) <= fs.Keys
    && (forall m :: 0 <= m < |before| ==> exists i :: 0 <= i < n && all[i] == before[m].install)
  }

  /** Every file that had its turn was prepared, or its target is the temporary of one that was. */
  ghost predicate AccountedFor(all: seq<FileInstall>, n: nat, before: seq<PreparedFile>) {
    forall i :: 0 <= i < n && i < |all| ==> Prepared(all[i], before) || all[i].target in Temporaries(before)
  }

  ghost predicate Prepared(f: FileInstall, prepared: seq<PreparedFile>) {
    exists m :: 0 <= m < |prepared| && prepared[m].install == f
  }

  lemma TurnKeepsTemporaries(sha: Bytes -> string, all: seq<FileInstall>, n: nat, fs: Files, before: seq<PreparedFile>)
    requires !DuplicateTargets(all) && n < |all| && Preparing(all, n, fs, before)
    requires QuietPrepare(sha, fs, all[n]).Some?
    ensures var (next, staged) := QuietPrepare(sha, fs, all[n]).value;
      Preparing(all, n + 1, next, Extended(before, all[n], staged))
  {
    var g := all[n];
    var (next, staged) := QuietPrepare(sha, fs, g).value;
    PathsDiffer(g);
    forall m | 0 <= m < |before|
      ensures before[m].install.Temporary() in next
      ensures staged.Some? && g.target == before[m].install.Temporary() ==> staged.value
    {
      var t := before[m].install.Temporary();
      assert t in Temporaries(before);
      SiblingsDiffer(before[m].install, g);
      var i :| 0 <= i < n && all[i] == before[m].install;
      assert all[i].target != g.target;
    }
  }

  /** On a disk where only temporaries hold new content, a file is skipped only because its target
      is one of them. */
  lemma TurnStagesOrSkips(sha: Bytes -> string, all: seq<FileInstall>, n: nat, fs: Files, before: seq<PreparedFile>)
    requires n < |all| && OnlyStagedIsNew(sha, all, fs, before)
    requires QuietPrepare(sha, fs, all[n]).Some?
    ensures var (next, staged) := QuietPrepare(sha, fs, all[n]).value;
      && OnlyStagedIsNew(sha, all, next, Extended(before, all[n], staged))
      && (staged.Some? || all[n].target in Temporaries(before))
  {
    var g := all[n];
    var (next, staged) := QuietPrepare(sha, fs, g).value;
    PathsDiffer(g);
    BackupIsOld(sha, all, n, fs, before);
    assert g.target in g.Artefacts() && WantAt(sha, all, n) == Want(sha, g.hash);
    forall p, i | p in AllArtefacts(all) && p !in Temporaries(Extended(before, g, staged)) && 0 <= i < |all|
      ensures !WantAt(sha, all, i).Accepts(Look(next, p))
    {
      TemporariesGrow(before, g, staged);
      assert !WantAt(sha, all, i).Accepts(Look(fs, p));
      assert !WantAt(sha, all, i).Accepts(Look(fs, g.Backup()));
    }
  }

  lemma BackupIsOld(sha: Bytes -> string, all: seq<FileInstall>, n: nat, fs: Files, before: seq<PreparedFile>)
    requires n < |all| && OnlyStagedIsNew(sha, all, fs, before)
    ensures forall i :: 0 <= i < |all| ==> !WantAt(sha, all, i).Accepts(Look(fs, all[n].Backup()))
  {
    assert all[n].Backup() in all[n].Artefacts();
    forall m | 0 <= m < |before|
      ensures before[m].install.Temporary() != all[n].Backup()
    {
      SiblingsDiffer(before[m].install, all[n]);
    }
  }

  lemma TemporariesGrow(before: seq<PreparedFile>, g: FileInstall, staged: Option<bool>)
    ensures Temporaries(Extended(before, g, staged)) ==
      Temporaries(before) + if staged.Some? then {g.Temporary()} else {}
  {
    var more := Extended(before, g, staged);
    assert forall m :: 0 <= m < |before| ==> more[m] == before[m];
    if staged.Some? {
      assert more[|before|].install.Temporary() == g.Temporary();
    }
  }

  /** The end of the preparing loop, from the turn of file `n` on. */
  lemma {:induction false} PreparingEnds(sha: Bytes -> string, all: seq<FileInstall>, n: nat, fs: Files,
                                         before: seq<PreparedFile>, allNew: bool)
    requires !DuplicateTargets(all) && Preparing(all, n, fs, before)
    requires allNew ==> OnlyStagedIsNew(sha, all, fs, before) && AccountedFor(all, n, before)
    requires QuietPrepareAll(sha, fs, all[n..], before).Some?
    ensures var prepared := QuietPrepareAll(sha, fs, all[n..], before).value.1;
      SawTemporaries(prepared) && (allNew ==> AccountedFor(all, |all|, prepared))
    decreases |all| - n
  {
    if n < |all| {
      QuietTurn(sha, fs, all, n, before);
      var (next, staged) := QuietPrepare(sha, fs, all[n]).value;
      TurnKeepsTemporaries(sha, all, n, fs, before);
      if allNew {
        TurnStagesOrSkips(sha, all, n, fs, before);
        AccountedOneMore(all, n, before, staged);
      }
      PreparingEnds(sha, all, n + 1, next, Extended(before, all[n], staged), allNew);
    }
  }

  lemma AccountedOneMore(all: seq<FileInstall>, n: nat, before: seq<PreparedFile>, staged: Option<bool>)
    requires n < |all| && AccountedFor(all, n, before) && (staged.Some? || all[n].target in Temporaries(before))
    ensures AccountedFor(all, n + 1, Extended(before, all[n], staged))
  {
    var more := Extended(before, all[n], staged);
    TemporariesGrow(before, all[n], staged);
    forall i | 0 <= i < n + 1
      ensures Prepared(all[i], more) || all[i].target in Temporaries(more)
    {
      if i < n && Prepared(all[i], before) {
        var m :| 0 <= m < |before| && before[m].install == all[i];
        assert more[m] == before[m];
      } else if i == n && staged.Some? {
        assert more[|before|].install == all[i];
      }
    }
  }

  // ---- when everything is installed ----

  /** The prepared files of a run without faults that returns. */
  ghost function QuietlyPrepared(sha: Bytes -> string, fs: Files, files: seq<FileInstall>): seq<PreparedFile>
    requires QuietInstall(sha, fs, files).Some?
  {
    QuietPrepareAll(sha, fs, files, []).value.1
  }

  /** In any group, on any disk: when a run without faults returns, nothing is left at the sibling
      paths of a prepared file, not even another file of the group. */
  lemma SiblingsAreGone(sha: Bytes -> string, fs: Files, files: seq<FileInstall>, f: FileInstall)
    requires QuietInstall(sha, fs, files).Some? && Prepared(f, QuietlyPrepared(sha, fs, files))
    ensures f.Temporary() !in QuietInstall(sha, fs, files).value && f.Backup() !in QuietInstall(sha, fs, files).value
  {
    var (staged, prepared) := QuietPrepareAll(sha, fs, files, []).value;
    var committed := QuietCommitAll(sha, staged, prepared).value;
    var m :| 0 <= m < |prepared| && prepared[m].install == f;
    assert files[0..] == files;
    PreparingEnds(sha, files, 0, fs, [], false);
    TemporaryIsGone(sha, staged, prepared, m);
    CleanUpRemoves(committed, prepared, f.Temporary());
    CleanUpRemoves(committed, prepared, f.Backup());
  }

  /** No path of the group holds what some file of it would take for its new content. */
  ghost predicate NothingNew(sha: Bytes -> string, fs: Files, files: seq<FileInstall>) {
    forall p, i :: p in AllArtefacts(files) && 0 <= i < |files| ==> !WantAt(sha, files, i).Accepts(Look(fs, p))
  }

  /** A collision in a group that is all new costs a file, if it does not make the run fail. */
  lemma CollisionCostsAFile(sha: Bytes -> string, fs: Files, files: seq<FileInstall>)
    requires QuietInstall(sha, fs, files).Some? && NothingNew(sha, fs, files) && !NoCollision(files)
    ensures !AllInstalled(sha, QuietInstall(sha, fs, files).value, files)
  {
    var i, j :| 0 <= i < |files| && 0 <= j < |files| && i != j &&
                (files[j].target == files[i].Temporary() || files[j].target == files[i].Backup());
    var prepared := QuietlyPrepared(sha, fs, files);
    assert files[0..] == files;
    PreparingEnds(sha, files, 0, fs, [], true);
    var lost := j;
    if Prepared(files[i], prepared) {
      SiblingsAreGone(sha, fs, files, files[i]);
    } else {
      var m :| 0 <= m < |prepared| && prepared[m].install.Temporary() == files[i].target;
      SiblingsAreGone(sha, fs, files, prepared[m].install);
      lost := i;
    }
    assert At(QuietInstall(sha, fs, files).value, files, lost).target == None;
  }

  /** An install without faults of a group that is all new: it returns with every file installed
      exactly when no paths collide. */
  method InstallWithoutFaults(start: Files, sha: Bytes -> string, files: seq<FileInstall>)
    returns (r: Outcome, after: Files)
    requires !DuplicateTargets(files) && SourcesApart(files)
    requires AllValid(sha, start, files) && NothingNew(sha, start, files)
    ensures r.Done? && AllInstalled(sha, after, files) <==> NoCollision(files)
    ensures r.Done? <==> QuietInstall(sha, start, files).Some?
    ensures r.Done? ==> after == QuietInstall(sha, start, files).value
  {
    var d := new Disk(start, sha, true);
    ghost var stopped;
    r, stopped := Install(d, files, false);
    after := d.files;
    InterferesIffCollides(files);
    if r.Done? && !NoCollision(files) {
      CollisionCostsAFile(sha, start, files);
    }
  }

  // ---- two files ----

  ghost predicate Untouched(fs: Files, f: FileInstall) {
    f.target !in fs && f.Temporary() !in fs && f.Backup() !in fs
  }

  lemma QuietPrepareNew(sha: Bytes -> string, fs: Files, f: FileInstall)
    requires ValidInstall(sha, fs, f) && Untouched(fs, f)
    ensures QuietPrepare(sha, fs, f) == Some((fs[f.Temporary() := fs[f.source]], Some(false)))
  {
    PathsDiffer(f);
    assert fs - {f.Temporary()} == fs;
  }

  lemma QuietCommitNew(w: Want, fs: Files, f: FileInstall)
    requires f.Temporary() in fs && w.Accepts(Look(fs, f.Temporary())) && f.Backup() !in fs
    ensures QuietCommit(w, fs, f, false) == Some((fs - {f.Temporary()})[f.target := fs[f.Temporary()]])
  {
    assert fs - {f.Backup()} == fs;
  }

  lemma PathsOfBothDiffer(f: FileInstall, g: FileInstall)
    requires g.target == f.Backup()
    ensures f.Temporary() !in {f.target, g.target, g.Temporary(), g.Backup()}
    ensures g.Temporary() !in {f.target, f.Backup()} && g.Backup() !in {f.target, f.Backup(), g.Temporary()}
    ensures f.target != g.target
  {
    assert |f.Temporary()| == |f.target| + 14 && |g.target| == |f.target| + 17;
    assert |g.Temporary()| == |f.target| + 31 && |g.Backup()| == |f.target| + 34;
  }

  lemma PrepareFirst(sha: Bytes -> string, fs: Files, f: FileInstall, rest: seq<FileInstall>, before: seq<PreparedFile>)
    requires QuietPrepare(sha, fs, f).Some?
    ensures var (next, staged) := QuietPrepare(sha, fs, f).value;
      QuietPrepareAll(sha, fs, [f] + rest, before) == QuietPrepareAll(sha, next, rest, Extended(before, f, staged))
  {
    assert ([f] + rest)[0] == f && ([f] + rest)[1..] == rest;
  }

  lemma CommitFirst(sha: Bytes -> string, fs: Files, p: PreparedFile, rest: seq<PreparedFile>)
    requires QuietCommit(Want(sha, p.install.hash), fs, p.install, p.existed).Some?
    ensures QuietCommitAll(sha, fs, [p] + rest) ==
      QuietCommitAll(sha, QuietCommit(Want(sha, p.install.hash), fs, p.install, p.existed).value, rest)
  {
    assert ([p] + rest)[0] == p && ([p] + rest)[1..] == rest;
  }

  /** `g` is to be installed where the installer keeps the old content of `f`; nothing is there yet. */
  ghost predicate Collide(sha: Bytes -> string, fs: Files, f: FileInstall, g: FileInstall) {
    && g.target == f.Backup()
    && ValidInstall(sha, fs, f) && ValidInstall(sha, fs, g) && Untouched(fs, f) && Untouched(fs, g)
  }

  function BothStaged(fs: Files, f: FileInstall, g: FileInstall): Files
    requires f.source in fs && g.source in fs
  {
    fs[f.Temporary() := fs[f.source]][g.Temporary() := fs[g.source]]
  }

  lemma BothArePrepared(sha: Bytes -> string, fs: Files, f: FileInstall, g: FileInstall)
    requires Collide(sha, fs, f, g)
    ensures QuietPrepareAll(sha, fs, [f, g], []) ==
      Some((BothStaged(fs, f, g), [PreparedFile(f, false), PreparedFile(g, false)]))
  {
    var next := fs[f.Temporary() := fs[f.source]];
    PathsOfBothDiffer(f, g);
    QuietPrepareNew(sha, fs, f);
    QuietPrepareNew(sha, next, g);
    assert [f] + [g] == [f, g] && [g] + [] == [g] && [] + [PreparedFile(f, false)] == [PreparedFile(f, false)];
    PrepareFirst(sha, fs, f, [g], []);
    PrepareFirst(sha, next, g, [], [PreparedFile(f, false)]);
    assert [PreparedFile(f, false)] + [PreparedFile(g, false)] == [PreparedFile(f, false), PreparedFile(g, false)];
  }

  lemma BothAreCommitted(sha: Bytes -> string, fs: Files, f: FileInstall, g: FileInstall, staged: Files)
    returns (next: Files)
    requires Collide(sha, fs, f, g) && staged == BothStaged(fs, f, g)
    ensures QuietCommitAll(sha, staged, [PreparedFile(f, false), PreparedFile(g, false)]) == Some(next)
    ensures Look(next, f.target) == Look(fs, f.source)
  {
    PathsOfBothDiffer(f, g);
    var first := (staged - {f.Temporary()})[f.target := fs[f.source]];
    next := (first - {g.Temporary()})[g.target := fs[g.source]];
    QuietCommitNew(Want(sha, f.hash), staged, f);
    QuietCommitNew(Want(sha, g.hash), first, g);
    var p, q := PreparedFile(f, false), PreparedFile(g, false);
    assert [p] + [q] == [p, q] && [q] + [] == [q];
    CommitFirst(sha, staged, p, [q]);
    CommitFirst(sha, first, q, []);
  }

  /** A group that passes every check, is installed without complaint, and lacks its second file. */
  lemma SecondFileIsLost(sha: Bytes -> string, fs: Files, f: FileInstall, g: FileInstall)
    requires Collide(sha, fs, f, g)
    ensures var after := QuietInstall(sha, fs, [f, g]);
      after.Some? && Look(after.value, f.target) == Look(fs, f.source) && g.target !in after.value
  {
    PathsOfBothDiffer(f, g);
    BothArePrepared(sha, fs, f, g);
    var next := BothAreCommitted(sha, fs, f, g, BothStaged(fs, f, g));
    assert QuietlyPrepared(sha, fs, [f, g])[0].install == f;
    SiblingsAreGone(sha, fs, [f, g], f);
    PathsDiffer(f);
    CleanUpRemoves(next, [PreparedFile(f, false), PreparedFile(g, false)], f.target);
  }

  /** The installer itself: no fault, no complaint, and the second file is not there. */
  method InstallCollidingPair(start: Files, sha: Bytes -> string, f: FileInstall, g: FileInstall)
    returns (r: Outcome, after: Files)
    requires Collide(sha, start, f, g)
    ensures r.Done? && Look(after, f.target) == Look(start, f.source) && g.target !in after
  {
    SecondFileIsLost(sha, start, f, g);
    var d := new Disk(start, sha, true);
    ghost var stopped;
    r, stopped := Install(d, [f, g], false);
    after := d.files;
  }

  /** The same two paths, but the second target already holds what the first file wants. */
  ghost predicate CollideOnNew(sha: Bytes -> string, fs: Files, f: FileInstall, g: FileInstall) {
    && g.target == f.Backup() && ValidInstall(sha, fs, f) && ValidInstall(sha, fs, g)
    && Want(sha, f.hash).Accepts(Look(fs, g.target)) && g.source !in f.Artefacts() + g.Artefacts()
    && f.target !in fs && f.Temporary() !in fs && g.Temporary() !in fs && g.Backup() !in fs
  }

  /** Content that is new already can hide a collision: recovery takes the second target for the
      first file's backup, so that file is not prepared, and both end up installed. */
  lemma NewContentHidesCollision(sha: Bytes -> string, fs: Files, f: FileInstall, g: FileInstall)
    requires CollideOnNew(sha, fs, f, g)
    ensures !NoCollision([f, g]) && QuietInstall(sha, fs, [f, g]).Some?
    ensures AllInstalled(sha, QuietInstall(sha, fs, [f, g]).value, [f, g])
  {
    PathsOfBothDiffer(f, g);
    assert [f, g][1].target == [f, g][0].Backup();
    var recovered := (fs - {f.target, f.Backup()})[f.target := fs[g.target]];
    assert fs - {f.Temporary()} == fs;
    assert QuietPrepare(sha, fs, f) == Some((recovered, None));
    QuietPrepareNew(sha, recovered, g);
    var staged := recovered[g.Temporary() := fs[g.source]];
    assert [f] + [g] == [f, g] && [g] + [] == [g] && [] + [PreparedFile(g, false)] == [PreparedFile(g, false)];
    PrepareFirst(sha, fs, f, [g], []);
    PrepareFirst(sha, recovered, g, [], []);
    QuietCommitNew(Want(sha, g.hash), staged, g);
    var committed, q := (staged - {g.Temporary()})[g.target := fs[g.source]], PreparedFile(g, false);
    assert [q] + [] == [q];
    CommitFirst(sha, staged, q, []);
    CleanUpRemoves(committed, [q], f.target);
    CleanUpRemoves(committed, [q], g.target);
  }
}
