/**
 * FileProcessingService.processFile: the same move and checksum as the
 * workflows, run directly, with an audit record saved before the move,
 * after the move and after the checksum.  The repository is a list of
 * saved records; nothing rolls a record back when a later step fails.
 */
module FileProcessing {
  import opened Results
  import opened Paths
  import opened Naming
  import opened FileSystems
  import opened Errors
  import opened FileActivity
  import opened ChecksumActivity
  import Workflows
  import Hex

  /** The operation column: "FILE_RECEIVED", "FILE_MOVED", "CHECKSUM_CALCULATED". */
  datatype Operation = FileReceived | FileMoved | ChecksumCalculated

  /** A row of file_processing_records; a Java null is None. */
  datatype FileProcessingRecord = FileProcessingRecord(
    originalPath: string, newPath: Option<string>, checksum: Option<string>, operation: Operation)

  /** The order in which processFile saves its records. */
  const Stages := [FileReceived, FileMoved, ChecksumCalculated]

  /** The rows saved so far, in the order they were saved. */
  class FileProcessingRepository {
    var records: seq<FileProcessingRecord>

    constructor ()
      ensures records == []
    {
      records := [];
    }

    /** save: the record is added after every earlier one. */
    method Save(record: FileProcessingRecord)
      modifies this
      ensures records == old(records) + [record]
    {
      records := records + [record];
    }
  }

  /** processFile on values: its result, the file system it leaves and the
      records it saves, in order. */
  function ProcessFileSpec(fs: Snapshot, sha256: Sha256, clock: Timestamp, faults: Faults, filePath: string, targetPath: string)
    : (Result<string, Error>, Snapshot, seq<FileProcessingRecord>)
  {
    var received := FileProcessingRecord(filePath, None, None, FileReceived);
    var (moved, fs1) := MoveToTarget(fs, clock, faults, filePath, targetPath);
    if moved.Failure? then (Failure(moved.error), fs1, [received])
    else
      var movedRecord := FileProcessingRecord(filePath, Some(moved.value), None, FileMoved);
      var checksum := CalculateSha256(fs1, sha256, faults.read, moved.value);
      if checksum.Failure? then (Failure(checksum.error), fs1, [received, movedRecord])
      else
        var calculated := FileProcessingRecord(filePath, Some(moved.value), Some(checksum.value), ChecksumCalculated);
        (Success(Workflows.ResultString(moved.value, checksum.value)), fs1, [received, movedRecord, calculated])
  }

  /** The trail processFile leaves for filePath: a non-empty prefix of
      RECEIVED, MOVED, CALCULATED, every record about filePath, the new path
      set from MOVED on and the same in both records that have it, the
      checksum set only on CALCULATED. */
  predicate IsAuditTrail(filePath: string, saved: seq<FileProcessingRecord>)
  {
    && 1 <= |saved| <= 3
    && (forall i | 0 <= i < |saved| ::
          && saved[i].originalPath == filePath
          && saved[i].operation == Stages[i]
          && (saved[i].newPath.None? <==> i == 0)
          && (saved[i].checksum.Some? <==> i == 2))
    && (|saved| == 3 ==> saved[1].newPath == saved[2].newPath)
  }

  class FileProcessingService {
    const repository: FileProcessingRepository

    constructor (repository: FileProcessingRepository)
      ensures this.repository == repository
    {
      this.repository := repository;
    }

    /** processFile on the file system fs; a thrown exception is a Failure. */
    method ProcessFile(fs: FileSystem, sha256: Sha256, clock: Timestamp, faults: Faults, filePath: string, targetPath: string)
      returns (r: Result<string, Error>)
      modifies fs, repository
      ensures var (result, after, saved) := ProcessFileSpec(old(fs.entries), sha256, clock, faults, filePath, targetPath);
        r == result && fs.entries == after && repository.records == old(repository.records) + saved
    {
      repository.Save(FileProcessingRecord(filePath, None, None, FileReceived));
      var movedFilePath := MoveFileToTarget(fs, clock, faults, filePath, targetPath);
      if movedFilePath.Failure? {
        return Failure(movedFilePath.error);
      }
      repository.Save(FileProcessingRecord(filePath, Some(movedFilePath.value), None, FileMoved));
      var checksum := CalculateSha256(fs.entries, sha256, faults.read, movedFilePath.value);
      if checksum.Failure? {
        return Failure(checksum.error);
      }
      repository.Save(FileProcessingRecord(filePath, Some(movedFilePath.value), Some(checksum.value), ChecksumCalculated));
      r := Success(Workflows.ResultString(movedFilePath.value, checksum.value));
    }
  }

  /** processFile computes what the workflows' moveFile computes; it differs
      only in the records it saves. */
  lemma ProcessFileAgreesWithMoveFile(fs: Snapshot, sha256: Sha256, clock: Timestamp, faults: Faults, filePath: string, targetPath: string)
    ensures var (r, after, _) := ProcessFileSpec(fs, sha256, clock, faults, filePath, targetPath);
      (r, after) == Workflows.MoveFile(fs, sha256, clock, faults, filePath, targetPath)
  {
  }

  /** Every run saves an audit trail, and how far it got tells the outcome:
      three records exactly on success, one exactly when the move failed;
      on success the result is the saved new path and checksum. */
  lemma ProcessFileTrail(fs: Snapshot, sha256: Sha256, clock: Timestamp, faults: Faults, filePath: string, targetPath: string)
    ensures var (r, _, saved) := ProcessFileSpec(fs, sha256, clock, faults, filePath, targetPath);
      && IsAuditTrail(filePath, saved)
      && (r.Success? <==> |saved| == 3)
      && (|saved| == 1 <==> MoveToTarget(fs, clock, faults, filePath, targetPath).0.Failure?)
      && (|saved| == 3 ==> r.value == Workflows.ResultString(saved[2].newPath.value, saved[2].checksum.value))
  {
  }

  /** A missing source saves only FILE_RECEIVED and touches no file. */
  lemma ProcessFileMissingSource(fs: Snapshot, sha256: Sha256, clock: Timestamp, faults: Faults, filePath: string, targetPath: string)
    requires Parse(filePath) !in fs
    ensures ProcessFileSpec(fs, sha256, clock, faults, filePath, targetPath)
         == (Failure(SourceMissing(filePath)), fs, [FileProcessingRecord(filePath, None, None, FileReceived)])
  {
  }

  /** The saved new path names where the file now is, holding the source's
      former bytes, and the saved checksum is its lower-case hex digest. */
  lemma ProcessFileRecordsDescribeFile(fs: Snapshot, sha256: Sha256, clock: Timestamp, faults: Faults, filePath: string, targetPath: string)
    ensures var (_, after, saved) := ProcessFileSpec(fs, sha256, clock, faults, filePath, targetPath);
      var source := Parse(filePath);
      |saved| >= 2 ==>
        && source in fs && source !in after
        && var dst := Parse(saved[1].newPath.value);
        && dst in after && after[dst] == fs[source]
        && (|saved| == 3 ==>
              && fs[source].File?
              && saved[2].checksum == Some(Hex.FormatHex(sha256(fs[source].bytes)))
              && IsChecksumText(saved[2].checksum.value))
  {
    if MoveToTarget(fs, clock, faults, filePath, targetPath).0.Success? {
      var source := Parse(filePath);
      MoveSuccessEffects(fs, clock, faults, filePath, targetPath);
      Workflows.ChecksumOfMovedFile(fs, sha256, clock, faults, filePath, targetPath);
      ParseRender(Destination(source, Parse(targetPath), clock));
    }
  }
}
