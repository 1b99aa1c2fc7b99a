/** What the crash invariant of the installer buys: recovery and retries after any crashes. */
module CrashRecovery {
  import opened Common
  import opened FileSystem
  import opened Slots
  import opened InstallSteps
  import opened Installer

  /** Each state is one that an install attempt begun at the state before it may crash in. */
  ghost predicate CrashedAttempts(sha: Bytes -> string, files: seq<FileInstall>, states: seq<Files>) {
    states != [] && forall k :: 0 < k < |states| ==> CrashSafe(sha, files, states[k - 1], states[k])
  }

  /** However many attempts crash, whatever a slot kept at the start it still keeps. */
  lemma {:induction false} CrashesLoseNothing(sha: Bytes -> string, files: seq<FileInstall>, states: seq<Files>)
    requires NonInterfering(files) && CrashedAttempts(sha, files, states)
    ensures var start, crashed := states[0], states[|states| - 1];
      && SameExcept(start, crashed, AllArtefacts(files))
      && forall i :: 0 <= i < |files| ==>
           Safe(WantAt(sha, files, i), At(start, files, i), At(crashed, files, i))
  {
    if |states| > 1 {
      var before := states[..|states| - 1];
      CrashesLoseNothing(sha, files, before);
      SameExceptTransitive(states[0], before[|before| - 1], states[|states| - 1], AllArtefacts(files));
    }
  }

  /** From a clean start recovery after any crashes finds exactly the old or the new content. */
  lemma RecoveryAfterCrashes(sha: Bytes -> string, files: seq<FileInstall>, states: seq<Files>, i: nat)
    requires NonInterfering(files) && CrashedAttempts(sha, files, states)
    requires i < |files| && At(states[0], files, i).backup.None?
    ensures var w := WantAt(sha, files, i);
      var old0, r := At(states[0], files, i).target, Recovered(w, At(states[|states| - 1], files, i));
      r.target == old0 || w.Accepts(r.target)
  {
    var w, start, crashed := WantAt(sha, files, i), At(states[0], files, i), At(states[|states| - 1], files, i);
    CrashesLoseNothing(sha, files, states);
    assert Keeps(w, start, start.target);
    RecoveryLeavesOldOrNew(w, crashed, start.target);
  }

  /** Where an attempt that went through `history` stands when it crashes after step `cut`;
      an attempt with fewer steps runs to its end. */
  function CrashAt(history: seq<Files>, cut: nat): Files
    requires history != []
  {
    if cut < |history| then history[cut] else history[|history| - 1]
  }

  /** One faulty install, cut short by a crash after step `cut`. */
  method CrashedInstall(start: Files, sha: Bytes -> string, files: seq<FileInstall>, cut: nat)
    returns (history: seq<Files>)
    ensures history != [] && history[0] == start
    ensures CrashSafe(sha, files, start, CrashAt(history, cut))
  {
    var d := new Disk(start, sha, false);
    var hooked: bool := *;
    var _, _ := Install(d, files, hooked);
    history := d.history;
  }

  /** A file that is its own source has no older content to give way to. */
  ghost predicate SourcesSurvive(fs: Files, files: seq<FileInstall>) {
    forall i :: 0 <= i < |files| && files[i].source == files[i].target ==> At(fs, files, i).backup.None?
  }

  /** What was installed, with no backup beside it, stays installed. */
  lemma InstalledStays(w: Want, a: Slot, b: Slot)
    requires Safe(w, a, b) && a.backup.None? && w.Accepts(a.target)
    ensures w.Accepts(b.target)
  {
    assert Keeps(w, a, None) && Keeps(w, a, Some([]));
  }

  lemma ValidAfterCrashes(sha: Bytes -> string, files: seq<FileInstall>, states: seq<Files>)
    requires NonInterfering(files) && CrashedAttempts(sha, files, states)
    requires SourcesSurvive(states[0], files) && AllValid(sha, states[0], files)
    ensures AllValid(sha, states[|states| - 1], files)
  {
    var start, crashed := states[0], states[|states| - 1];
    CrashesLoseNothing(sha, files, states);
    forall i | 0 <= i < |files|
      ensures ValidInstall(sha, crashed, files[i])
    {
      assert ValidInstall(sha, start, files[i]);
      if files[i].source == files[i].target {
        InstalledStays(WantAt(sha, files, i), At(start, files, i), At(crashed, files, i));
      }
      ValidStill(sha, files, start, crashed, i);
    }
  }

  /** An install without faults, whatever was left behind. */
  method QuietRetry(start: Files, sha: Bytes -> string, files: seq<FileInstall>) returns (after: Files)
    requires NonInterfering(files) && AllValid(sha, start, files)
    ensures AllInstalled(sha, after, files) && NoArtefacts(after, files)
    ensures SameExcept(start, after, AllArtefacts(files))
  {
    var d := new Disk(start, sha, true);
    var _, _ := Install(d, files, false);
    after := d.files;
  }

  /** One faulty install after another, each crashing where `cuts` says, and then one without faults. */
  method InstallDespiteCrashes(start: Files, sha: Bytes -> string, files: seq<FileInstall>, cuts: seq<nat>)
    returns (histories: seq<seq<Files>>, states: seq<Files>, after: Files)
    requires NonInterfering(files) && SourcesSurvive(start, files) && AllValid(sha, start, files)
    ensures |states| == |histories| + 1 == |cuts| + 1 && states[0] == start
    ensures forall k :: 0 <= k < |cuts| ==>
      && histories[k] != [] && histories[k][0] == states[k] && states[k + 1] == CrashAt(histories[k], cuts[k])
      && (cuts[k] < |histories[k]| ==> states[k + 1] == histories[k][cuts[k]])
    ensures CrashedAttempts(sha, files, states)
    // The retry completes, and touches nothing but the group.
    ensures AllInstalled(sha, after, files) && NoArtefacts(after, files)
    ensures SameExcept(start, after, AllArtefacts(files))
  {
    histories, states := [], [start];
    for n := 0 to |cuts|
      invariant |states| == |histories| + 1 == n + 1 && states[0] == start
      invariant forall k :: 0 <= k < n ==>
        histories[k] != [] && histories[k][0] == states[k] && states[k + 1] == CrashAt(histories[k], cuts[k])
      invariant CrashedAttempts(sha, files, states)
    {
      var history := CrashedInstall(states[n], sha, files, cuts[n]);
      histories := histories + [history];
      states := states + [CrashAt(history, cuts[n])];
    }
    var crashed := states[|cuts|];
    CrashesLoseNothing(sha, files, states);
    ValidAfterCrashes(sha, files, states);
    after := QuietRetry(crashed, sha, files);
    SameExceptTransitive(start, crashed, after, AllArtefacts(files));
  }

  ghost predicate KeepsAll(ws: seq<Want>, slots: seq<Slot>, originals: seq<Option<Bytes>>) {
    && |ws| == |slots| == |originals|
    && forall i :: 0 <= i < |ws| ==> Keeps(ws[i], slots[i], originals[i]) && !ws[i].Accepts(originals[i])
  }

  ghost predicate RecoversTo(ws: seq<Want>, slots: seq<Slot>, contents: seq<Option<Bytes>>)
    requires |ws| == |slots| == |contents|
  {
    forall i :: 0 <= i < |ws| ==> Recovered(ws[i], slots[i]) == Slot(contents[i], None, None)
  }

  /** Recovery settles each file by itself.  It undoes a crashed attempt as a group exactly when
      no target already held its new content. */
  lemma RecoveryUndoesGroupIff(ws: seq<Want>, slots: seq<Slot>, originals: seq<Option<Bytes>>)
    requires KeepsAll(ws, slots, originals)
    ensures RecoversTo(ws, slots, originals) <==> forall i :: 0 <= i < |ws| ==> !ws[i].Accepts(slots[i].target)
  {
    if RecoversTo(ws, slots, originals) {
      forall i | 0 <= i < |ws|
        ensures !ws[i].Accepts(slots[i].target)
      {
        RecoveryLeavesOldOrNew(ws[i], slots[i], originals[i]);
        assert Recovered(ws[i], slots[i]).target == originals[i];
      }
    }
  }

  /** The two moves that commit `f`. */
  function Committed(fs: Files, f: FileInstall): Files
    requires f.target in fs && f.Temporary() in fs
  {
    var aside := (fs - {f.target})[f.Backup() := fs[f.target]];
    (aside - {f.Temporary()})[f.target := fs[f.Temporary()]]
  }

  /** They are what the committing step of a staged file does. */
  lemma CommittedByStep(w: Want, fs: Files, f: FileInstall, o: Bytes)
    requires Staged(w, SlotOf(fs, f), Some(o))
    ensures f.target in fs && f.Temporary() in fs
    ensures QuietCommit(w, fs, f, true) == Some(Committed(fs, f))
  {
    PathsDiffer(f);
    assert fs - {f.Backup()} == fs;
  }

  /** A crash after the first of two staged files is committed, followed by recovery alone, leaves
      a mixed group: the first file new, its old content gone, and the second file old. */
  lemma RecoveryCanLeaveMixedGroup(fs: Files, w: Want, f: FileInstall, old0: Bytes, w': Want, g: FileInstall,
                                   old1: Bytes)
    requires NonInterfering([f, g])
    requires Staged(w, SlotOf(fs, f), Some(old0)) && Staged(w', SlotOf(fs, g), Some(old1))
    ensures f.target in fs && f.Temporary() in fs && QuietCommit(w, fs, f, true) == Some(Committed(fs, f))
    ensures var crashed := [SlotOf(Committed(fs, f), f), SlotOf(Committed(fs, f), g)];
      && KeepsAll([w, w'], crashed, [Some(old0), Some(old1)])
      && RecoversTo([w, w'], crashed, [SlotOf(fs, f).pending, Some(old1)])
      && !RecoversTo([w, w'], crashed, [Some(old0), Some(old1)])
  {
    var aside := (fs - {f.target})[f.Backup() := fs[f.target]];
    PathsDiffer(f);
    CommittedByStep(w, fs, f, old0);
    MoveEffect(fs, f, f.target, f.Backup());
    MoveEffect(aside, f, f.Temporary(), f.target);
    assert aside[f.Temporary()] == fs[f.Temporary()];
    var s := SlotOf(Committed(fs, f), f);
    assert s == Slot(SlotOf(fs, f).pending, None, Some(old0));
    SameExceptTransitive(fs, aside, Committed(fs, f), f.Artefacts());
    assert [f, g][1].Artefacts() !! [f, g][0].Artefacts();
    assert SlotOf(Committed(fs, f), g) == SlotOf(fs, g) by {
      OtherSlot([f, g], 1, 0, fs, Committed(fs, f));
    }
    var crashed := [s, SlotOf(fs, g)];
    assert Recovered(w, s) == Slot(SlotOf(fs, f).pending, None, None);
    assert Recovered([w, w'][0], crashed[0]) != Slot([Some(old0), Some(old1)][0], None, None);
  }
}
