/** One file of a component and its two siblings, seen as a value.
    The installer touches nothing else, so its safety is a matter of how slots evolve. */
module Slots {
  import opened Common
  import opened FileSystem
  import opened Text

  datatype FileInstall = FileInstall(source: Path, target: Path, hash: string) {
    function Temporary(): Path { target + ".component-new" }
    function Backup(): Path { target + ".component-backup" }
    function Artefacts(): set<Path> { {target, Temporary(), Backup()} }
  }

  datatype Slot = Slot(target: Option<Bytes>, pending: Option<Bytes>, backup: Option<Bytes>)

  function SlotOf(fs: Files, f: FileInstall): Slot {
    Slot(Look(fs, f.target), Look(fs, f.Temporary()), Look(fs, f.Backup()))
  }

  /** How an install recognises the new content: by its hash alone. */
  datatype Want = Want(sha: Bytes -> string, hash: string) {
    predicate Accepts(c: Option<Bytes>) { c.Some? && EqualIgnoringCase(sha(c.value), hash) }
  }

  /** The content that a fault-free recovery leaves in the target. */
  function Logical(w: Want, s: Slot): Option<Bytes> {
    if s.backup.None? || w.Accepts(s.target) then s.target else s.backup
  }

  function Recovered(w: Want, s: Slot): Slot {
    Slot(Logical(w, s), None, None)
  }

  /** The crash invariant: the original content `o` is the target, or it is the backup,
      or the install of this file has already finished. */
  ghost predicate Keeps(w: Want, s: Slot, o: Option<Bytes>) {
    || (s.backup.None? && (s.target == o || w.Accepts(s.target)))
    || (o.Some? && s.backup == o)
  }

  /** Whatever original `a` keeps, `b` keeps too. */
  ghost predicate Safe(w: Want, a: Slot, b: Slot) {
    forall o :: Keeps(w, a, o) ==> Keeps(w, b, o)
  }

  /** Ready to commit: the new content is verified beside a target that differs. */
  ghost predicate Staged(w: Want, s: Slot, o: Option<Bytes>) {
    s.target == o && s.backup.None? && w.Accepts(s.pending) && !w.Accepts(s.target)
  }

  /** What every state of a commit and of its rollback satisfies. */
  ghost predicate Undoable(w: Want, s: Slot, o: Option<Bytes>) {
    if o.Some? then s.backup == o || (s.backup.None? && s.target == o)
    else s.backup.None? && (s.target.None? || w.Accepts(s.target))
  }

  ghost predicate Committed(w: Want, s: Slot, o: Option<Bytes>) {
    w.Accepts(s.target) && s.pending.None? && s.backup == o
  }

  /** The target is installed, whatever has become of its backup. */
  ghost predicate Installed(w: Want, s: Slot, o: Option<Bytes>) {
    w.Accepts(s.target) && s.pending.None? && (s.backup == o || s.backup.None?)
  }

  lemma StagedIsSafe(w: Want, a: Slot, b: Slot, c: Slot, o: Option<Bytes>)
    requires Safe(w, a, b) && Staged(w, b, o)
    requires Undoable(w, c, o) || Installed(w, c, o)
    ensures Safe(w, a, c)
  {
    forall o' | Keeps(w, a, o')
      ensures Keeps(w, c, o')
    {
      assert Keeps(w, b, o');
      assert o' == o;
    }
  }

  /** Recovery from any state that keeps `o` leaves exactly the old or an accepted new content. */
  lemma RecoveryLeavesOldOrNew(w: Want, s: Slot, o: Option<Bytes>)
    requires Keeps(w, s, o)
    ensures var r := Recovered(w, s);
      && r.pending.None? && r.backup.None?
      && (r.target == o || w.Accepts(r.target))
      && Keeps(w, r, o)
      && (!w.Accepts(o) ==> (r.target == o <==> !w.Accepts(s.target)))
  {
  }

  lemma PathsDiffer(f: FileInstall)
    ensures f.target != f.Temporary() && f.target != f.Backup() && f.Temporary() != f.Backup()
  {
    assert |f.Temporary()| == |f.target| + 14;
    assert |f.Backup()| == |f.target| + 17;
  }

  /** What one phase of the installer promises about every state of the slot it works on. */
  datatype Rule =
    | AnySlot
    | CarefulFrom(start: Slot)
    | UndoableTo(original: Option<Bytes>)

  ghost predicate Allows(w: Want, rule: Rule, s: Slot) {
    match rule
    case AnySlot => true
    case CarefulFrom(a) =>
      // Safe, and harmless when there was no backup to recover.
      Safe(w, a, s) && (a.backup.None? ==> s.backup.None? && s.target == a.target)
    case UndoableTo(o) => Undoable(w, s, o)
  }

  ghost predicate AllowedState(w: Want, rule: Rule, start: Files, fs: Files, f: FileInstall) {
    SameExcept(start, fs, f.Artefacts()) && Allows(w, rule, SlotOf(fs, f))
  }

  /** The states recorded after the first `from` touch `f` alone and obey `rule`. */
  ghost predicate Since(w: Want, rule: Rule, from: seq<Files>, history: seq<Files>, start: Files, f: FileInstall) {
    && from <= history
    && forall k :: |from| <= k < |history| ==> AllowedState(w, rule, start, history[k], f)
  }

  /** One more atomic step, seen as its effect on the slot. */
  lemma Record(w: Want, rule: Rule, from: seq<Files>, history: seq<Files>, start: Files, f: FileInstall, next: Files)
    requires Since(w, rule, from, history, start, f)
    requires AllowedState(w, rule, start, next, f)
    ensures Since(w, rule, from, history + [next], start, f)
  {
  }

  lemma DeleteEffect(fs: Files, f: FileInstall, p: Path)
    requires p in f.Artefacts()
    ensures SameExcept(fs, fs - {p}, f.Artefacts())
    ensures p == f.target ==> SlotOf(fs - {p}, f) == SlotOf(fs, f).(target := None)
    ensures p == f.Temporary() ==> SlotOf(fs - {p}, f) == SlotOf(fs, f).(pending := None)
    ensures p == f.Backup() ==> SlotOf(fs - {p}, f) == SlotOf(fs, f).(backup := None)
  {
    PathsDiffer(f);
  }

  lemma MoveEffect(fs: Files, f: FileInstall, from: Path, to: Path)
    requires from in fs && from in f.Artefacts() && to in f.Artefacts()
    ensures SameExcept(fs, (fs - {from})[to := fs[from]], f.Artefacts())
    ensures var s, s' := SlotOf(fs, f), SlotOf((fs - {from})[to := fs[from]], f);
      && (from == f.target && to == f.Backup() ==> s' == Slot(None, s.pending, s.target))
      && (from == f.Backup() && to == f.target ==> s' == Slot(s.backup, s.pending, None))
      && (from == f.Temporary() && to == f.target ==> s' == Slot(s.pending, None, s.backup))
  {
    PathsDiffer(f);
  }

  lemma PendingEffect(a: Files, b: Files, f: FileInstall)
    requires SameExcept(a, b, {f.Temporary()})
    ensures SameExcept(a, b, f.Artefacts())
    ensures SlotOf(b, f) == SlotOf(a, f).(pending := Look(b, f.Temporary()))
  {
    PathsDiffer(f);
  }

  lemma SameExceptTransitive(a: Files, b: Files, c: Files, paths: set<Path>)
    requires SameExcept(a, b, paths) && SameExcept(b, c, paths)
    ensures SameExcept(a, c, paths)
  {
    forall p | p !in paths
      ensures Look(a, p) == Look(c, p)
    {
      assert Look(a, p) == Look(b, p);
    }
  }
}
