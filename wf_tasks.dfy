/** StarterWorkflowWfTasksImpl: the same pipeline with the move and the
    checksum run inline rather than as activities. */
module WfTasks {
  import opened Results
  import opened Naming
  import opened FileSystems
  import opened Errors
  import opened FileActivity
  import opened ChecksumActivity
  import Workflows

  /** StarterWorkflowWfTasksImpl.moveFile on the file system fs. */
  method MoveFile(fs: FileSystem, sha256: Sha256, clock: Timestamp, faults: Faults, filePath: string, targetPath: string)
    returns (r: Result<string, Error>)
    modifies fs
    ensures (r, fs.entries) == Workflows.MoveFile(old(fs.entries), sha256, clock, faults, filePath, targetPath)
  {
    var movedFilePath := MoveFileToTarget(fs, clock, faults, filePath, targetPath);
    if movedFilePath.Failure? {
      return Failure(movedFilePath.error);
    }
    var checksum := CalculateSha256(fs.entries, sha256, faults.read, movedFilePath.value);
    if checksum.Failure? {
      return Failure(checksum.error);
    }
    r := Success(Workflows.ResultString(movedFilePath.value, checksum.value));
  }
}
