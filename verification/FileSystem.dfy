/** The part of the file system that the component installer changes.
    Every operation is a short series of atomic steps.  `history` records each state the
    disk has been in, so a crash is a cut of `history` at any point.  */
module FileSystem {
  import opened Common

  /** Paths are taken in one normal form: full and case-folded. */
  type Path = string
  type Bytes = seq<byte>
  type Files = map<Path, Bytes>

  function Look(fs: Files, p: Path): Option<Bytes> {
    if p in fs then Some(fs[p]) else None
  }

  ghost predicate SameExcept(a: Files, b: Files, paths: set<Path>) {
    forall p :: p !in paths ==> Look(a, p) == Look(b, p)
  }

  class Disk {
    /** When true no step faults; otherwise any step may. */
    const reliable: bool
    /** SHA-256 in hexadecimal; nothing is assumed about it. */
    const sha: Bytes -> string
    var files: Files
    var history: seq<Files>
    /** How many faults a `catch` without a rethrow has hidden so far. */
    ghost var swallowed: nat

    constructor (files: Files, sha: Bytes -> string, reliable: bool)
      ensures this.files == files && this.sha == sha && this.reliable == reliable
      ensures history == [files] && swallowed == 0
    {
      this.files, this.sha, this.reliable := files, sha, reliable;
      history, swallowed := [files], 0;
    }

    /** Deletes a file if it is there; a fault is silently ignored. */
    method TryDelete(p: Path)
      modifies this
      ensures history == old(history) + [files]
      ensures swallowed >= old(swallowed)
      ensures files == old(files) - {p} || (files == old(files) && swallowed > old(swallowed))
      ensures reliable ==> swallowed == old(swallowed)
    {
      var works: bool := *;
      if p in files {
        if reliable || works {
          files := files - {p};
        } else {
          swallowed := swallowed + 1;
        }
      }
      history := history + [files];
    }

    /** A rename that overwrites: it happens completely or not at all. */
    method Move(from: Path, to: Path) returns (ok: bool)
      modifies this`files, this`history
      ensures history == old(history) + [files]
      ensures ok ==> from in old(files) && files == (old(files) - {from})[to := old(files)[from]]
      ensures !ok ==> files == old(files)
      ensures reliable && from in old(files) ==> ok
    {
      var works: bool := *;
      ok := from in files && (reliable || works);
      if ok {
        files := (files - {from})[to := files[from]];
      }
      history := history + [files];
    }

    /** A copy writes its destination piecemeal: a crash or a fault may leave anything there. */
    method Copy(from: Path, to: Path) returns (ok: bool)
      modifies this`files, this`history
      ensures |history| == |old(history)| + 2 && old(history) <= history
      ensures history[|old(history)| + 1] == files
      ensures SameExcept(old(files), history[|old(history)|], {to})
      ensures SameExcept(old(files), files, {to})
      ensures ok ==> from in old(files) && files == old(files)[to := old(files)[from]]
      ensures reliable && from in old(files) ==> ok
    {
      var works: bool := *;
      ok := from in files && (reliable || works);
      if from in files {
        var before := files;
        var partial: Bytes := *;
        files := files[to := partial];
        history := history + [files];
        if ok {
          files := before[to := before[from]];
        }
      } else {
        history := history + [files];
      }
      history := history + [files];
    }

    /** The hash of a file, or None when opening or reading it throws. */
    method ReadHash(p: Path) returns (hash: Option<string>)
      ensures hash.Some? ==> p in files && hash.value == sha(files[p])
      ensures reliable && p in files ==> hash.Some?
    {
      var works: bool := *;
      if p in files && (reliable || works) {
        hash := Some(sha(files[p]));
      } else {
        hash := None;
      }
    }
  }
}
