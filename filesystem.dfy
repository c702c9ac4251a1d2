/**
 * The part of java.nio.file.Files that the pipeline uses, over an abstract
 * file system: a map from paths to entries, each a regular file holding
 * bytes or a directory.  Symbolic links, permissions and other file
 * systems are not modelled; an operating-system error is a parameter.
 */
module FileSystems {
  import opened Results
  import opened Paths
  import opened Hex

  datatype Entry = File(bytes: seq<byte>) | Directory

  /** The contents of the file system at one moment. */
  type Snapshot = map<Path, Entry>

  /** Why a call failed with an IOException. */
  datatype IoFault =
    | Refused            // the operating system reports an error of its own (permissions, a full disk, ...)
    | NoSuchFile         // the source, or the parent of the target, does not exist
    | NotADirectory      // a name that has to be a directory is a regular file
    | IsADirectory       // a regular file was expected
    | DirectoryNotEmpty  // the target is a directory that still holds entries

  predicate IsFile(fs: Snapshot, p: Path)
  {
    p in fs && fs[p].File?
  }

  predicate IsDirectory(fs: Snapshot, p: Path)
  {
    p in fs && fs[p].Directory?
  }

  /** Some entry lies below the directory d. */
  predicate HasEntriesUnder(fs: Snapshot, d: Path)
  {
    exists p | p in fs :: IsUnder(p, d)
  }

  /** Files.createDirectories(dir): makes dir and its missing ancestors
      directories; fails, changing nothing, when one of them is a file. */
  function CreateDirectoriesIn(fs: Snapshot, dir: Path, refused: bool): (Outcome<IoFault>, Snapshot)
  {
    if refused then (Fail(Refused), fs)
    else if exists p | p in Prefixes(dir) :: IsFile(fs, p) then (Fail(NotADirectory), fs)
    else (Pass, fs + map p | p in Prefixes(dir) :: Directory)
  }

  /** Files.move(src, dst, REPLACE_EXISTING) for a regular file: dst takes
      src's bytes, replacing a file or an empty directory there. */
  function MoveIn(fs: Snapshot, src: Path, dst: Path, refused: bool): (Outcome<IoFault>, Snapshot)
  {
    if refused then (Fail(Refused), fs)
    else if src !in fs then (Fail(NoSuchFile), fs)
    else if fs[src].Directory? then (Fail(IsADirectory), fs)
    else if dst.names == [] || !IsDirectory(fs, Parent(dst)) then (Fail(NoSuchFile), fs)
    else if IsDirectory(fs, dst) && HasEntriesUnder(fs, dst) then (Fail(DirectoryNotEmpty), fs)
    else (Pass, (fs - {src})[dst := fs[src]])
  }

  /** The file system every step of the pipeline works on. */
  class FileSystem {
    var entries: Snapshot

    constructor (initial: Snapshot)
      ensures entries == initial
    {
      entries := initial;
    }

    method CreateDirectories(dir: Path, refused: bool) returns (r: Outcome<IoFault>)
      modifies this
      ensures (r, entries) == CreateDirectoriesIn(old(entries), dir, refused)
    {
      if refused {
        return Fail(Refused);
      }
      if exists p | p in Prefixes(dir) :: IsFile(entries, p) {
        return Fail(NotADirectory);
      }
      entries := entries + map p | p in Prefixes(dir) :: Directory;
      r := Pass;
    }

    method Move(src: Path, dst: Path, refused: bool) returns (r: Outcome<IoFault>)
      modifies this
      ensures (r, entries) == MoveIn(old(entries), src, dst, refused)
    {
      if refused {
        return Fail(Refused);
      }
      if src !in entries {
        return Fail(NoSuchFile);
      }
      if entries[src].Directory? {
        return Fail(IsADirectory);
      }
      if dst.names == [] || !IsDirectory(entries, Parent(dst)) {
        return Fail(NoSuchFile);
      }
      if IsDirectory(entries, dst) && HasEntriesUnder(entries, dst) {
        return Fail(DirectoryNotEmpty);
      }
      var moved := entries[src];
      entries := entries - {src};
      entries := entries[dst := moved];
      r := Pass;
    }
  }

  /** createDirectories succeeds exactly when the OS does not refuse and no
      ancestor of dir is a file; then dir and all its ancestors are
      directories and every other entry is untouched; on failure nothing
      changes. */
  lemma CreateDirectoriesEffect(fs: Snapshot, dir: Path, refused: bool)
    ensures var (r, after) := CreateDirectoriesIn(fs, dir, refused);
      && (r.Pass? <==> !refused && forall p :: p in Prefixes(dir) ==> !IsFile(fs, p))
      && (r.Fail? ==> after == fs)
      && (r.Pass? ==> forall p :: IsPrefixOf(p, dir) ==> IsDirectory(after, p))
      && (r.Pass? ==> forall p :: !IsPrefixOf(p, dir) ==> (p in after <==> p in fs) && (p in fs ==> after[p] == fs[p]))
      && (forall p :: IsFile(fs, p) ==> IsFile(after, p) && after[p] == fs[p])
  {
  }

  /** createDirectories is idempotent: a second call changes nothing. */
  lemma CreateDirectoriesIdempotent(fs: Snapshot, dir: Path)
    requires CreateDirectoriesIn(fs, dir, false).0.Pass?
    ensures var after := CreateDirectoriesIn(fs, dir, false).1;
      CreateDirectoriesIn(after, dir, false) == (Pass, after)
  {
    var after := CreateDirectoriesIn(fs, dir, false).1;
    CreateDirectoriesOfExisting(after, dir);
  }

  /** When dir and all its ancestors already are directories,
      createDirectories is a no-op. */
  lemma CreateDirectoriesOfExisting(fs: Snapshot, dir: Path)
    requires forall p :: IsPrefixOf(p, dir) ==> IsDirectory(fs, p)
    ensures CreateDirectoriesIn(fs, dir, false) == (Pass, fs)
  {
    assert forall p | p in Prefixes(dir) :: !IsFile(fs, p);
    var after := fs + map p | p in Prefixes(dir) :: Directory;
    assert forall p :: p in after <==> p in fs;
    assert forall p :: p in fs ==> after[p] == fs[p];
    assert after == fs;
  }

  /** A move succeeds exactly when the source is a regular file, the
      target's parent is a directory and the target is not a non-empty
      directory; then the target holds the source's bytes, the source is
      gone and every other entry is untouched; on failure nothing changes. */
  lemma MoveEffect(fs: Snapshot, src: Path, dst: Path, refused: bool)
    requires src != dst
    ensures var (r, after) := MoveIn(fs, src, dst, refused);
      && (r.Pass? <==> !refused && IsFile(fs, src) && dst.names != [] && IsDirectory(fs, Parent(dst))
                       && !(IsDirectory(fs, dst) && HasEntriesUnder(fs, dst)))
      && (r.Fail? ==> after == fs)
      && (r.Pass? ==> src !in after && after[dst] == fs[src])
      && (r.Pass? ==> forall p :: p != src && p != dst ==> (p in after <==> p in fs) && (p in fs ==> after[p] == fs[p]))
  {
  }

  /** Every entry other than a root hangs below a directory: the file
      system is a tree. */
  predicate IsTree(fs: Snapshot)
  {
    forall p | p in fs && p.names != [] :: IsDirectory(fs, Parent(p))
  }

  /** createDirectories keeps the file system a tree. */
  lemma CreateDirectoriesKeepsTree(fs: Snapshot, dir: Path, refused: bool)
    requires IsTree(fs)
    ensures IsTree(CreateDirectoriesIn(fs, dir, refused).1)
  {
    var (r, after) := CreateDirectoriesIn(fs, dir, refused);
    if r.Pass? {
      forall p | p in after && p.names != []
        ensures IsDirectory(after, Parent(p))
      {
        var q := Parent(p);
        if p in Prefixes(dir) {
          assert IsPrefixOf(q, dir);
        } else {
          assert IsDirectory(fs, q);
        }
      }
    }
  }

  /** A path whose parent is d lies below d. */
  lemma ChildIsUnder(p: Path, d: Path)
    requires p.names != [] && Parent(p) == d
    ensures IsUnder(p, d)
  {
    assert p.names[..|d.names|] == d.names;
  }

  /** move keeps the file system a tree: the destination's parent is a
      directory, and only a file, which has nothing below it, leaves. */
  lemma MoveKeepsTree(fs: Snapshot, src: Path, dst: Path, refused: bool)
    requires IsTree(fs)
    ensures IsTree(MoveIn(fs, src, dst, refused).1)
  {
    var (r, after) := MoveIn(fs, src, dst, refused);
    if r.Pass? {
      forall p | p in after && p.names != []
        ensures IsDirectory(after, Parent(p))
      {
        var q := Parent(p);
        if p == dst {
          assert IsDirectory(fs, q) && q != src;
          assert |q.names| < |dst.names|;
        } else {
          assert p in fs && IsDirectory(fs, q);
          if q == dst {
            ChildIsUnder(p, dst);
            assert HasEntriesUnder(fs, dst);
          }
        }
      }
    }
  }
}
