/**
 * moveFile of the workflows StarterWorkflowImpl (remote activities),
 * StarterWorkflowLocalImpl and Starter2WorkflowImpl (local activities) and
 * StarterWorkflowWfTasksImpl (inline code): move the file, checksum the
 * moved path, and report "<moved path> [SHA-256: <checksum>]".  The
 * activities' timeouts and retries are carried out by the Temporal SDK;
 * only their configured values are recorded here.
 */
module Workflows {
  import opened Results
  import opened Paths
  import opened Naming
  import opened Hex
  import opened FileSystems
  import opened Errors
  import opened FileActivity
  import opened ChecksumActivity

  /** The options an activity stub is built with. */
  datatype ActivityOptions = ActivityOptions(startToCloseMinutes: nat, maximumAttempts: Option<nat>)

  /** StarterWorkflowImpl: both remote activities, 2 minutes, at most 3 attempts. */
  const RemoteMoveOptions := ActivityOptions(2, Some(3))
  const RemoteChecksumOptions := ActivityOptions(2, Some(3))

  /** StarterWorkflowLocalImpl and Starter2WorkflowImpl: local activities
      with no retry options of their own. */
  const LocalMoveOptions := ActivityOptions(1, None)
  const LocalChecksumOptions := ActivityOptions(2, None)

  const ChecksumTag := " [SHA-256: "

  /** movedFilePath + " [SHA-256: " + checksum + "]". */
  function ResultString(movedFilePath: string, checksum: string): string
  {
    movedFilePath + ChecksumTag + checksum + "]"
  }

  /** Splits a result string into the moved path and the 64-digit checksum. */
  function SplitResult(r: string): Option<(string, string)>
  {
    if |r| < 76 then None
    else
      var k := |r| - 76;
      if r[k..k + 11] == ChecksumTag && r[|r| - 1] == ']' then Some((r[..k], r[k + 11..|r| - 1]))
      else None
  }

  /** The result string comes apart again: its last 76 characters are the
      tag, the 64 digits and "]", and what precedes them is the moved path. */
  lemma SplitResultString(movedFilePath: string, checksum: string)
    requires |checksum| == 64
    ensures var r := ResultString(movedFilePath, checksum);
      && |r| == |movedFilePath| + 76
      && r[|movedFilePath|..] == ChecksumTag + checksum + "]"
      && SplitResult(r) == Some((movedFilePath, checksum))
  {
    var r := ResultString(movedFilePath, checksum);
    var k := |movedFilePath|;
    assert r[..k] == movedFilePath;
    assert r[k..k + 11] == ChecksumTag;
    assert r[k + 11..|r| - 1] == checksum;
  }

  /** The workflow's moveFile: the move activity with the arguments as
      given, then the checksum activity on the path the move returned. */
  function MoveFile(fs: Snapshot, sha256: Sha256, clock: Timestamp, faults: Faults, filePath: string, targetPath: string)
    : (Result<string, Error>, Snapshot)
  {
    var (moved, fs1) := MoveToTarget(fs, clock, faults, filePath, targetPath);
    if moved.Failure? then (Failure(moved.error), fs1)
    else
      var checksum := CalculateSha256(fs1, sha256, faults.read, moved.value);
      if checksum.Failure? then (Failure(checksum.error), fs1)
      else (Success(ResultString(moved.value, checksum.value)), fs1)
  }

  /** After a successful move the checksum step reads the moved file: the
      path string the move returned parses back to the destination, which
      holds the source's former bytes. */
  lemma ChecksumOfMovedFile(fs: Snapshot, sha256: Sha256, clock: Timestamp, faults: Faults, filePath: string, targetPath: string)
    requires MoveToTarget(fs, clock, faults, filePath, targetPath).0.Success?
    ensures var (moved, after) := MoveToTarget(fs, clock, faults, filePath, targetPath);
      var source := Parse(filePath);
      && IsFile(fs, source)
      && CalculateSha256(after, sha256, faults.read, moved.value)
         == if faults.read then Failure(ReadFailed(Refused)) else Success(FormatHex(sha256(fs[source].bytes)))
  {
    MoveSuccessEffects(fs, clock, faults, filePath, targetPath);
    var source := Parse(filePath);
    ParseRender(Destination(source, Parse(targetPath), clock));
  }

  /** moveFile succeeds exactly when the move succeeds and the moved file
      can be read; the result is the destination followed by the hex digest
      of the source's original bytes. */
  lemma MoveFileSuccess(fs: Snapshot, sha256: Sha256, clock: Timestamp, faults: Faults, filePath: string, targetPath: string)
    ensures var (r, after) := MoveFile(fs, sha256, clock, faults, filePath, targetPath);
      var (moved, movedFs) := MoveToTarget(fs, clock, faults, filePath, targetPath);
      && (r.Success? <==> moved.Success? && !faults.read)
      && after == movedFs
      && (r.Success? ==>
            var source := Parse(filePath);
            && IsFile(fs, source) && source.names != []
            && r.value == ResultString(Render(Destination(source, Parse(targetPath), clock)),
                                       FormatHex(sha256(fs[source].bytes))))
  {
    if MoveToTarget(fs, clock, faults, filePath, targetPath).0.Success? {
      ChecksumOfMovedFile(fs, sha256, clock, faults, filePath, targetPath);
      MoveSuccessEffects(fs, clock, faults, filePath, targetPath);
    }
  }

  /** A failed move is the workflow's failure, with the move's error and the
      file system the move left; the checksum activity is never consulted:
      neither the digest function nor a read fault changes the outcome. */
  lemma MoveFileMoveFailure(fs: Snapshot, sha256: Sha256, sha256': Sha256, clock: Timestamp, faults: Faults, readRefused: bool,
                            filePath: string, targetPath: string)
    requires MoveToTarget(fs, clock, faults, filePath, targetPath).0.Failure?
    ensures var (moved, movedFs) := MoveToTarget(fs, clock, faults, filePath, targetPath);
      && MoveFile(fs, sha256, clock, faults, filePath, targetPath) == (Failure(moved.error), movedFs)
      && MoveFile(fs, sha256', clock, faults.(read := readRefused), filePath, targetPath) == (Failure(moved.error), movedFs)
  {
    assert MoveToTarget(fs, clock, faults.(read := readRefused), filePath, targetPath)
        == MoveToTarget(fs, clock, faults, filePath, targetPath);
  }

  /** A checksum failure after a successful move fails the workflow but
      leaves the file moved: there is no rollback. */
  lemma MoveFileNoRollback(fs: Snapshot, sha256: Sha256, clock: Timestamp, faults: Faults, filePath: string, targetPath: string)
    requires MoveToTarget(fs, clock, faults, filePath, targetPath).0.Success? && faults.read
    ensures var (r, after) := MoveFile(fs, sha256, clock, faults, filePath, targetPath);
      var source := Parse(filePath);
      var dst := Destination(source, Parse(targetPath), clock);
      && r == Failure(ReadFailed(Refused))
      && source !in after && dst in after && after[dst] == fs[source]
  {
    ChecksumOfMovedFile(fs, sha256, clock, faults, filePath, targetPath);
    MoveSuccessEffects(fs, clock, faults, filePath, targetPath);
  }

  /** A successful result splits back into the moved path, which parses to
      the destination, and a 64-digit lower-case checksum. */
  lemma MoveFileResultSplits(fs: Snapshot, sha256: Sha256, clock: Timestamp, faults: Faults, filePath: string, targetPath: string)
    requires MoveFile(fs, sha256, clock, faults, filePath, targetPath).0.Success?
    ensures var r := MoveFile(fs, sha256, clock, faults, filePath, targetPath).0;
      var source := Parse(filePath);
      && source.names != []
      && var dst := Destination(source, Parse(targetPath), clock);
      && SplitResult(r.value).Some?
      && Parse(SplitResult(r.value).value.0) == dst
      && IsChecksumText(SplitResult(r.value).value.1)
  {
    MoveFileSuccess(fs, sha256, clock, faults, filePath, targetPath);
    var source := Parse(filePath);
    var dst := Destination(source, Parse(targetPath), clock);
    var checksum := FormatHex(sha256(fs[source].bytes));
    SplitResultString(Render(dst), checksum);
    ParseRender(dst);
  }
}
