/**
 * moveFileToTarget, identical in FileActivityImpl (both packages),
 * FileProcessingService and StarterWorkflowWfTasksImpl: check that the
 * source exists, stamp its name with the clock, create the target
 * directory and move the file there, replacing whatever has that name.
 */
module FileActivity {
  import opened Results
  import opened Paths
  import opened Naming
  import opened FileSystems
  import opened Errors

  /** targetDir resolved with the stamped last name of source. */
  function Destination(source: Path, targetDir: Path, clock: Timestamp): (d: Path)
    requires source.names != []
    ensures d.names != [] && Parent(d) == targetDir && d != source
    ensures FileName(d) == AddTimestampToFileName(FileName(source), clock)
  {
    var fileName := FileName(source);
    AddTimestampNoSeparator(fileName, clock);
    var newFileName: Name := AddTimestampToFileName(fileName, clock);
    Resolve(targetDir, newFileName)
  }

  /** The try block of moveFileToTarget: createDirectories(targetDir), then
      move(source, destination, REPLACE_EXISTING); an IOException from
      either becomes "Failed to move file". */
  function CreateAndMove(fs: Snapshot, source: Path, targetDir: Path, destination: Path, faults: Faults)
    : (Result<string, Error>, Snapshot)
  {
    var (created, fs1) := CreateDirectoriesIn(fs, targetDir, faults.createDirectories);
    if created.Fail? then (Failure(MoveFailed(created.error)), fs1)
    else
      var (moved, fs2) := MoveIn(fs1, source, destination, faults.move);
      if moved.Fail? then (Failure(MoveFailed(moved.error)), fs2)
      else (Success(Render(destination)), fs2)
  }

  /** The outcome of moveFileToTarget(filePath, targetPath) and the file
      system it leaves behind. */
  function MoveToTarget(fs: Snapshot, clock: Timestamp, faults: Faults, filePath: string, targetPath: string)
    : (Result<string, Error>, Snapshot)
  {
    var source := Parse(filePath);
    if source !in fs then (Failure(SourceMissing(filePath)), fs)
    else if source.names == [] then (Failure(NoFileName), fs)
    else
      var targetDir := Parse(targetPath);
      CreateAndMove(fs, source, targetDir, Destination(source, targetDir, clock), faults)
  }

  /** FileActivityImpl.moveFileToTarget, step by step on the file system. */
  method MoveFileToTarget(fs: FileSystem, clock: Timestamp, faults: Faults, filePath: string, targetPath: string)
    returns (r: Result<string, Error>)
    modifies fs
    ensures (r, fs.entries) == MoveToTarget(old(fs.entries), clock, faults, filePath, targetPath)
  {
    var source := Parse(filePath);
    if source !in fs.entries {
      return Failure(SourceMissing(filePath));
    }
    if source.names == [] {
      return Failure(NoFileName);
    }
    var targetDir := Parse(targetPath);
    var destination := Destination(source, targetDir, clock);
    var created := fs.CreateDirectories(targetDir, faults.createDirectories);
    if created.Fail? {
      return Failure(MoveFailed(created.error));
    }
    var moved := fs.Move(source, destination, faults.move);
    if moved.Fail? {
      return Failure(MoveFailed(moved.error));
    }
    r := Success(Render(destination));
  }

  /** A missing source fails with "Source file does not exist" before any
      directory is created: the file system is unchanged. */
  lemma MoveMissingSource(fs: Snapshot, clock: Timestamp, faults: Faults, filePath: string, targetPath: string)
    requires Parse(filePath) !in fs
    ensures MoveToTarget(fs, clock, faults, filePath, targetPath) == (Failure(SourceMissing(filePath)), fs)
  {
  }

  /** No ancestor of a directory lies at or below one of its children. */
  lemma PrefixesNotUnderChild(targetDir: Path, dst: Path)
    requires dst.names != [] && Parent(dst) == targetDir
    ensures forall p :: p in Prefixes(targetDir) ==> !IsUnder(p, dst) && p != dst
  {
  }

  /** createDirectories then move succeed exactly when the OS refuses
      neither, no ancestor of the target directory is a file, the source is
      a regular file and the destination is not a non-empty directory. */
  lemma CreateAndMoveSucceedsIff(fs: Snapshot, source: Path, targetDir: Path, dst: Path, faults: Faults)
    requires dst.names != [] && Parent(dst) == targetDir && dst != source
    ensures CreateAndMove(fs, source, targetDir, dst, faults).0.Success? <==>
      && !faults.createDirectories && !faults.move
      && (forall p :: p in Prefixes(targetDir) ==> !IsFile(fs, p))
      && IsFile(fs, source)
      && !(IsDirectory(fs, dst) && HasEntriesUnder(fs, dst))
  {
    var (created, fs1) := CreateDirectoriesIn(fs, targetDir, faults.createDirectories);
    CreateDirectoriesEffect(fs, targetDir, faults.createDirectories);
    if created.Pass? {
      PrefixesNotUnderChild(targetDir, dst);
      assert IsDirectory(fs1, targetDir);
      assert IsFile(fs1, source) <==> IsFile(fs, source);
      assert IsDirectory(fs1, dst) <==> IsDirectory(fs, dst);
      assert HasEntriesUnder(fs1, dst) ==> HasEntriesUnder(fs, dst);
      assert HasEntriesUnder(fs, dst) ==> HasEntriesUnder(fs1, dst);
      MoveEffect(fs1, source, dst, faults.move);
    }
  }

  /** A successful createDirectories-then-move: the destination holds the
      source's bytes, the source is gone, the target directory and its
      ancestors exist, no other entry changed, and the only new entries are
      the destination and those directories. */
  lemma CreateAndMoveEffects(fs: Snapshot, source: Path, targetDir: Path, dst: Path, faults: Faults)
    requires dst.names != [] && Parent(dst) == targetDir && dst != source
    requires CreateAndMove(fs, source, targetDir, dst, faults).0.Success?
    ensures var (r, after) := CreateAndMove(fs, source, targetDir, dst, faults);
      && r.value == Render(dst)
      && IsFile(fs, source) && source !in after
      && dst in after && after[dst] == fs[source]
      && (forall p :: IsPrefixOf(p, targetDir) ==> IsDirectory(after, p))
      && (forall p :: p != source && p != dst && p in fs ==> p in after && after[p] == fs[p])
      && (forall p :: p in after && p !in fs ==> p == dst || IsPrefixOf(p, targetDir))
  {
    var fs1 := CreateDirectoriesIn(fs, targetDir, faults.createDirectories).1;
    CreateDirectoriesEffect(fs, targetDir, faults.createDirectories);
    MoveEffect(fs1, source, dst, faults.move);
    PrefixesNotUnderChild(targetDir, dst);
  }

  /** A failed createDirectories-then-move loses nothing: every entry keeps
      its contents, and at most the target directory and its ancestors were
      added (they stay: there is no rollback). */
  lemma CreateAndMoveFailureKeepsEntries(fs: Snapshot, source: Path, targetDir: Path, dst: Path, faults: Faults)
    requires dst != source
    requires CreateAndMove(fs, source, targetDir, dst, faults).0.Failure?
    ensures var after := CreateAndMove(fs, source, targetDir, dst, faults).1;
      && (forall p :: p in fs ==> p in after && after[p] == fs[p])
      && (forall p :: p in after && p !in fs ==> IsPrefixOf(p, targetDir) && after[p] == Directory)
  {
    var fs1 := CreateDirectoriesIn(fs, targetDir, faults.createDirectories).1;
    CreateDirectoriesEffect(fs, targetDir, faults.createDirectories);
    MoveEffect(fs1, source, dst, faults.move);
  }

  /** moveFileToTarget succeeds exactly when the source is a regular file
      with a name, the OS refuses neither call, no ancestor of the target
      directory is a file and the destination is not a non-empty directory. */
  lemma MoveSucceedsIff(fs: Snapshot, clock: Timestamp, faults: Faults, filePath: string, targetPath: string)
    ensures var source, targetDir := Parse(filePath), Parse(targetPath);
      MoveToTarget(fs, clock, faults, filePath, targetPath).0.Success? <==>
        && IsFile(fs, source) && source.names != []
        && !faults.createDirectories && !faults.move
        && (forall p :: p in Prefixes(targetDir) ==> !IsFile(fs, p))
        && var dst := Destination(source, targetDir, clock);
           !(IsDirectory(fs, dst) && HasEntriesUnder(fs, dst))
  {
    var source, targetDir := Parse(filePath), Parse(targetPath);
    if source in fs && source.names != [] {
      CreateAndMoveSucceedsIff(fs, source, targetDir, Destination(source, targetDir, clock), faults);
    }
  }

  /** After a successful moveFileToTarget: the returned string is targetPath
      resolved with the stamped name; the source is gone; the destination
      holds the source's former bytes, replacing what was there; the target
      directory exists; every other entry is untouched and the only new
      entries are the destination and the created directories. */
  lemma MoveSuccessEffects(fs: Snapshot, clock: Timestamp, faults: Faults, filePath: string, targetPath: string)
    requires MoveToTarget(fs, clock, faults, filePath, targetPath).0.Success?
    ensures var (r, after) := MoveToTarget(fs, clock, faults, filePath, targetPath);
      var source, targetDir := Parse(filePath), Parse(targetPath);
      && source.names != [] && IsFile(fs, source)
      && var dst := Destination(source, targetDir, clock);
      && r.value == Render(dst)
      && source !in after
      && dst in after && after[dst] == fs[source]
      && (forall p :: IsPrefixOf(p, targetDir) ==> IsDirectory(after, p))
      && (forall p :: p != source && p != dst && p in fs ==> p in after && after[p] == fs[p])
      && (forall p :: p in after && p !in fs ==> p == dst || IsPrefixOf(p, targetDir))
  {
    var source, targetDir := Parse(filePath), Parse(targetPath);
    var dst := Destination(source, targetDir, clock);
    assert MoveToTarget(fs, clock, faults, filePath, targetPath) == CreateAndMove(fs, source, targetDir, dst, faults);
    CreateAndMoveEffects(fs, source, targetDir, dst, faults);
  }

  /** A failed moveFileToTarget raises "Source file does not exist" for a
      missing source and otherwise "Failed to move file" with the cause
      (a nameless source aside), a refused createDirectories among them.
      It loses nothing: every entry is still there with the same contents,
      the source included; at most the target directory and its ancestors
      were created, and they stay. */
  lemma MoveFailureKeepsEntries(fs: Snapshot, clock: Timestamp, faults: Faults, filePath: string, targetPath: string)
    requires MoveToTarget(fs, clock, faults, filePath, targetPath).0.Failure?
    ensures var r := MoveToTarget(fs, clock, faults, filePath, targetPath).0;
      var source := Parse(filePath);
      && (source !in fs ==> r.error == SourceMissing(filePath))
      && (source in fs && source.names == [] ==> r.error == NoFileName)
      && (source in fs && source.names != [] ==> r.error.MoveFailed?)
      && (source in fs && source.names != [] && faults.createDirectories ==> r.error == MoveFailed(Refused))
    ensures var after := MoveToTarget(fs, clock, faults, filePath, targetPath).1;
      && (forall p :: p in fs ==> p in after && after[p] == fs[p])
      && (forall p :: p in after && p !in fs ==> IsPrefixOf(p, Parse(targetPath)) && after[p] == Directory)
  {
    var source, targetDir := Parse(filePath), Parse(targetPath);
    if source in fs && source.names != [] {
      var dst := Destination(source, targetDir, clock);
      CreateAndMoveFailureKeepsEntries(fs, source, targetDir, dst, faults);
    }
  }

  /** moveFileToTarget, failed or not, leaves a tree a tree. */
  lemma MoveKeepsTreeShape(fs: Snapshot, clock: Timestamp, faults: Faults, filePath: string, targetPath: string)
    requires IsTree(fs)
    ensures IsTree(MoveToTarget(fs, clock, faults, filePath, targetPath).1)
  {
    var source, targetDir := Parse(filePath), Parse(targetPath);
    if source in fs && source.names != [] {
      var dst := Destination(source, targetDir, clock);
      CreateDirectoriesKeepsTree(fs, targetDir, faults.createDirectories);
      var fs1 := CreateDirectoriesIn(fs, targetDir, faults.createDirectories).1;
      MoveKeepsTree(fs1, source, dst, faults.move);
    }
  }

  /** Running the move again after it succeeded (a retry whose first success
      went unrecorded) fails with "Source file does not exist", whatever the
      new clock reading, and leaves the moved file where it is. */
  lemma MoveRetryAfterSuccess(fs: Snapshot, clock: Timestamp, faults: Faults, filePath: string, targetPath: string,
                              clock2: Timestamp, faults2: Faults)
    requires MoveToTarget(fs, clock, faults, filePath, targetPath).0.Success?
    ensures var after := MoveToTarget(fs, clock, faults, filePath, targetPath).1;
      MoveToTarget(after, clock2, faults2, filePath, targetPath) == (Failure(SourceMissing(filePath)), after)
  {
    MoveSuccessEffects(fs, clock, faults, filePath, targetPath);
  }

  /** Deleting the clock reading from the destination's name gives back the
      source's name. */
  lemma DestinationRecoversName(source: Path, targetDir: Path, clock: Timestamp)
    requires source.names != []
    ensures StripTimestamp(FileName(Destination(source, targetDir, clock)), |clock|) == FileName(source)
  {
    StripAddTimestamp(FileName(source), clock);
  }

  /** For one source and target, distinct clock readings give distinct
      destinations. */
  lemma DestinationInjective(source: Path, targetDir: Path, clock1: Timestamp, clock2: Timestamp)
    requires source.names != []
    requires Destination(source, targetDir, clock1) == Destination(source, targetDir, clock2)
    ensures clock1 == clock2
  {
    AddTimestampInjective(FileName(source), clock1, clock2);
  }
}
