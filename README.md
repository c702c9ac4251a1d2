# temporal-demo file pipeline in Dafny

This project models the file-processing pipeline of the temporal-demo
repository. A file arriving in an inbox directory is moved into a target
directory under a name stamped with the clock. The moved file's contents are
digested with SHA-256, and the pipeline reports
`"<moved path> [SHA-256: <64 hex digits>]"`.

The same three steps appear in several places:

- the activities `FileActivityImpl.moveFileToTarget` (one copy in each of the two packages) and `ChecksumActivityImpl.calculateSha256`;
- the workflows `StarterWorkflowImpl` (remote activities), `StarterWorkflowLocalImpl` and `Starter2WorkflowImpl` (local activities), which call a move activity and then a checksum activity. `StarterWorkflowLocalImpl` calls the `garrich.demo.temporal.activity` interfaces that `FileActivityImpl` and `ChecksumActivityImpl` implement. The other two call the `garrcich.demo_temporal.activity` interfaces; that package's `FileActivityImpl` is modelled, but its checksum implementation is not part of this model (see "## Left out");
- `StarterWorkflowWfTasksImpl`, which runs the same code inline;
- `FileProcessingService.processFile`, which also saves three audit records.

The private helper copies are identical apart from local declarations (`var` or declared types) and logging. Each is modelled once:

- `moveFileToTarget` and `addTimestampToFileName` in the service and the workflow-tasks class match `FileActivityImpl`;
- their `calculateSha256` matches `ChecksumActivityImpl`.

The table cites one copy.

Modules:

- `Paths`:
  - a path is an absolute flag plus a list of non-empty names without `/`;
  - `Parse` plays `Paths.get`, `Render` plays `Path.toString`, `Resolve` plays `Path.resolve` and `FileName` plays `Path.getFileName`; `Parent` is the directory a path lies in and `Prefixes` the directories `createDirectories` makes exist;
  - the round trip `Parse(Render(p)) == p` matters because the moved path crosses from the move step to the checksum step as a string.
- `Naming`: `addTimestampToFileName` with `lastIndexOf`, and its inverse `StripTimestamp`.
- `Hex`: bytes and `HexFormat.formatHex` (lower-case, two digits per byte), with its inverse `ParseHex`.
- `FileSystems`:
  - the file system is a map from paths to files (their bytes) and directories;
  - `createDirectories` and `move(..., REPLACE_EXISTING)` are functions on it, with a `FileSystem` class whose methods update it in place and are proved against those functions;
  - the OS's refusal of a call (an `IOException` such as a permission error) is a boolean parameter.
- `Errors`: the exceptions the pipeline throws, as error values.
- `FileActivity`: `moveFileToTarget`; the clock reading is a parameter.
- `ChecksumActivity`: `calculateSha256`; the SHA-256 function is a parameter that returns 32 bytes.
- `Workflows`: the workflows' `moveFile` composition, the result string, and the activity options each workflow configures.
- `WfTasks`: `StarterWorkflowWfTasksImpl.moveFile` as a method on the file system.
- `FileProcessing`: `processFile` with its repository of audit records.

## Model

| member | source | states |
|---|---|---|
| Paths.Parse | src/main/java/garrich/demo/temporal/activity/FileActivityImpl.java:21 | `Paths.get`: no contract of its own; specified by its inverse through `ParseRender` and `SegmentsOfJoin` |
| Paths.Render | src/main/java/garrich/demo/temporal/activity/FileActivityImpl.java:38 | `Path.toString`: no contract of its own; specified by `ParseRender` and `RenderInjective` |
| Paths.FileName | src/main/java/garrich/demo/temporal/activity/FileActivityImpl.java:27 | `getFileName` of a path with a name: no contract of its own; specified by `Resolve` and `Destination` |
| Paths.Parent | src/main/java/garrich/demo/temporal/activity/FileActivityImpl.java:32 | the directory a path lies in: no contract of its own; specified by `Resolve`, `Prefixes` and `FileSystems.IsTree` |
| Paths.Resolve | src/main/java/garrich/demo/temporal/activity/FileActivityImpl.java:32 | `targetDir.resolve(newFileName)` keeps the directory's absoluteness, adds one name, and its file name and parent are the new name and the directory |
| Paths.Prefixes | src/main/java/garrich/demo/temporal/activity/FileActivityImpl.java:35 | the directories `createDirectories` must have are exactly the path's prefixes, itself included |
| Paths.SegmentsOfJoin | src/main/java/garrich/demo/temporal/activity/FileActivityImpl.java:38 | parsing a joined list of names, with or without a leading `/`, gives the list back |
| Paths.ParseRender | src/main/java/garrich/demo/temporal/activity/FileActivityImpl.java:38 | `Paths.get(destination.toString())` is `destination` again |
| Paths.RenderInjective | src/main/java/garrich/demo/temporal/activity/FileActivityImpl.java:38 | distinct paths have distinct string forms |
| Naming.LastIndexOf | src/main/java/garrich/demo/temporal/activity/FileActivityImpl.java:45 | `lastIndexOf` is -1 or an index holding the character, with no occurrence after it |
| Naming.LastIndexOfUnique | src/main/java/garrich/demo/temporal/activity/FileActivityImpl.java:45 | those three conditions fix the index: the contract is a full specification |
| Naming.Extension | src/main/java/garrich/demo/temporal/activity/FileActivityImpl.java:45-48 | the extension is empty exactly when no `.` occurs after position 0; otherwise it is the suffix from the last `.`, shorter than the name, with no other `.` |
| Naming.Stem | src/main/java/garrich/demo/temporal/activity/FileActivityImpl.java:47 | the stem followed by the extension is the file name |
| Naming.AddTimestampToFileName | src/main/java/garrich/demo/temporal/activity/FileActivityImpl.java:44-52 | the new name is stem, `_`, clock reading, extension, and is one character longer than the name plus the reading |
| Naming.AddTimestampNoExtension | src/main/java/garrich/demo/temporal/activity/FileActivityImpl.java:51 | a name with no `.` after position 0 (such as `.env` or `README`) gets `_` and the reading appended |
| Naming.AddTimestampWithExtension | src/main/java/garrich/demo/temporal/activity/FileActivityImpl.java:46-49 | with its last `.` at position `dot > 0`, the reading is inserted before `name[dot..]` |
| Naming.AddTimestampCharacters | src/main/java/garrich/demo/temporal/activity/FileActivityImpl.java:44-52 | the new name holds exactly the characters of the name, the reading and one `_` |
| Naming.AddTimestampNoSeparator | src/main/java/garrich/demo/temporal/activity/FileActivityImpl.java:29-32 | a name without `/` stays without `/`, so resolving it adds exactly one name |
| Naming.TimestampHasNoDot | src/main/java/garrich/demo/temporal/activity/FileActivityImpl.java:17 | a reading in the pattern `yyyyMMdd_HHmmssnnnnnnnn` holds no `.` and cannot move the extension |
| Naming.StripTimestamp | src/main/java/garrich/demo/temporal/activity/FileActivityImpl.java:44-52 | the inverse of `addTimestampToFileName` given the reading's width: no contract of its own; specified by `StripAddTimestamp` |
| Naming.StripAddTimestamp | src/main/java/garrich/demo/temporal/activity/FileActivityImpl.java:44-52 | deleting the reading (given its width) from the new name gives back the original name |
| Naming.StripWithExtension | src/main/java/garrich/demo/temporal/activity/FileActivityImpl.java:46-49 | the same round trip for a name with an extension |
| Naming.StripWithoutExtension | src/main/java/garrich/demo/temporal/activity/FileActivityImpl.java:51 | the same round trip for a name without an extension |
| Naming.AddTimestampInjective | src/main/java/garrich/demo/temporal/activity/FileActivityImpl.java:44-52 | for one name, distinct readings give distinct new names |
| Naming.AddTimestampJointlyInjective | src/main/java/garrich/demo/temporal/activity/FileActivityImpl.java:44-52 | with readings of one width, equal new names mean equal names and equal readings |
| Hex.HexDigit | src/main/java/garrich/demo/temporal/activity/ChecksumActivityImpl.java:29 | the digit for `0 <= n < 16` is a lower-case hex digit whose value is `n` |
| Hex.HexValue | src/main/java/garrich/demo/temporal/activity/ChecksumActivityImpl.java:29 | a lower-case hex digit's value lies in 0..15 |
| Hex.FormatHex | src/main/java/garrich/demo/temporal/activity/ChecksumActivityImpl.java:29 | `formatHex` yields two lower-case hex digits per byte |
| Hex.FormatHexAt | src/main/java/garrich/demo/temporal/activity/ChecksumActivityImpl.java:29 | byte i gives characters 2i (high nibble) and 2i+1 (low nibble) |
| Hex.ParseHex | src/main/java/garrich/demo/temporal/activity/ChecksumActivityImpl.java:29 | reading hex back yields one byte per two digits |
| Hex.ParseFormatHex | src/main/java/garrich/demo/temporal/activity/ChecksumActivityImpl.java:29 | reading the hex form back gives the bytes |
| Hex.FormatHexInjective | src/main/java/garrich/demo/temporal/activity/ChecksumActivityImpl.java:29 | distinct digests have distinct hex forms |
| FileSystems.CreateDirectoriesIn | src/main/java/garrich/demo/temporal/activity/FileActivityImpl.java:35 | `Files.createDirectories`: no contract of its own; specified by `CreateDirectoriesEffect`, `CreateDirectoriesIdempotent` and `CreateDirectoriesKeepsTree` |
| FileSystems.MoveIn | src/main/java/garrich/demo/temporal/activity/FileActivityImpl.java:36 | `Files.move(..., REPLACE_EXISTING)`: no contract of its own; specified by `MoveEffect` and `MoveKeepsTree` |
| FileSystems.FileSystem.CreateDirectories | src/main/java/garrich/demo/temporal/activity/FileActivityImpl.java:35 | updates the entries exactly as `CreateDirectoriesIn` says and returns its outcome |
| FileSystems.FileSystem.Move | src/main/java/garrich/demo/temporal/activity/FileActivityImpl.java:36 | updates the entries exactly as `MoveIn` says and returns its outcome |
| FileSystems.CreateDirectoriesEffect | src/main/java/garrich/demo/temporal/activity/FileActivityImpl.java:35 | `createDirectories` succeeds exactly when it is not refused and no prefix is a file; on success every prefix is a directory and nothing else changes; on failure nothing changes; files are never altered |
| FileSystems.CreateDirectoriesIdempotent | src/main/java/garrich/demo/temporal/activity/FileActivityImpl.java:35 | a second `createDirectories` of the same directory succeeds and changes nothing |
| FileSystems.CreateDirectoriesOfExisting | src/main/java/garrich/demo/temporal/activity/FileActivityImpl.java:35 | creating directories that all exist already is a successful no-op |
| FileSystems.MoveEffect | src/main/java/garrich/demo/temporal/activity/FileActivityImpl.java:36 | `move` with `REPLACE_EXISTING` succeeds exactly when it is not refused, the source is a file, the target's parent is a directory and the target is not a non-empty directory; then the target holds the source's bytes, the source is gone and nothing else changes; on failure nothing changes |
| FileSystems.CreateDirectoriesKeepsTree | src/main/java/garrich/demo/temporal/activity/FileActivityImpl.java:35 | creating directories keeps every entry's parent a directory |
| FileSystems.MoveKeepsTree | src/main/java/garrich/demo/temporal/activity/FileActivityImpl.java:36 | a move keeps every entry's parent a directory |
| FileActivity.Destination | src/main/java/garrich/demo/temporal/activity/FileActivityImpl.java:27-32 | the destination lies directly in the target directory, is never the source, and is named by `addTimestampToFileName` of the source's name |
| FileActivity.CreateAndMove | src/main/java/garrich/demo/temporal/activity/FileActivityImpl.java:34-41 | the try block: no contract of its own; specified by `CreateAndMoveSucceedsIff`, `CreateAndMoveEffects` and `CreateAndMoveFailureKeepsEntries` |
| FileActivity.MoveToTarget | src/main/java/garrich/demo/temporal/activity/FileActivityImpl.java:20-42 | `moveFileToTarget`: no contract of its own; specified by `MoveSucceedsIff`, `MoveSuccessEffects`, `MoveFailureKeepsEntries`, `MoveMissingSource` and `MoveKeepsTreeShape` |
| FileActivity.MoveFileToTarget | src/main/java/garrich/demo/temporal/activity/FileActivityImpl.java:20-42 | step by step on the file system, gives the result and the new entries `MoveToTarget` specifies |
| FileActivity.MoveMissingSource | src/main/java/garrich/demo/temporal/activity/FileActivityImpl.java:23-25 | a missing source fails with "Source file does not exist" and changes nothing |
| FileActivity.PrefixesNotUnderChild | src/main/java/garrich/demo/temporal/activity/FileActivityImpl.java:32-35 | no directory `createDirectories` creates lies at or under the destination |
| FileActivity.CreateAndMoveSucceedsIff | src/main/java/garrich/demo/temporal/activity/FileActivityImpl.java:34-41 | the try block succeeds exactly when neither call is refused, no prefix of the target is a file, the source is a file and the destination is not a non-empty directory |
| FileActivity.CreateAndMoveEffects | src/main/java/garrich/demo/temporal/activity/FileActivityImpl.java:34-41 | after the try block succeeds, the destination holds the source's bytes, the source is gone, the target exists, every other existing entry (file or directory) is untouched and nothing else is new |
| FileActivity.CreateAndMoveFailureKeepsEntries | src/main/java/garrich/demo/temporal/activity/FileActivityImpl.java:34-41 | when the try block fails, every entry survives unchanged and only directories of the target may have been added |
| FileActivity.MoveSucceedsIff | src/main/java/garrich/demo/temporal/activity/FileActivityImpl.java:20-42 | `moveFileToTarget` succeeds exactly when the source is a named regular file, neither call is refused, no prefix of the target is a file and the destination is not a non-empty directory |
| FileActivity.MoveSuccessEffects | src/main/java/garrich/demo/temporal/activity/FileActivityImpl.java:20-42 | on success the result is the rendered destination, the source is gone, the destination holds its former bytes (replacing what was there), the target exists, every other existing entry (file or directory) is untouched and the only new entries are the destination and created directories |
| FileActivity.MoveFailureKeepsEntries | src/main/java/garrich/demo/temporal/activity/FileActivityImpl.java:20-42 | a failed move raises "Source file does not exist" for a missing source, `NoFileName` for a nameless one, and otherwise "Failed to move file" with its cause (the refusal when `createDirectories` is refused); it loses no entry, the source included; created directories stay |
| FileActivity.MoveKeepsTreeShape | src/main/java/garrich/demo/temporal/activity/FileActivityImpl.java:34-41 | `moveFileToTarget`, failed or not, keeps every entry's parent a directory |
| FileActivity.MoveRetryAfterSuccess | src/main/java/garrich/demo/temporal/activity/FileActivityImpl.java:23-25 | repeating a move that already succeeded fails with "Source file does not exist" whatever the new clock reading, and leaves the moved file in place |
| FileActivity.DestinationRecoversName | src/main/java/garrich/demo/temporal/activity/FileActivityImpl.java:27-32 | the source's name can be recovered from the destination's name |
| FileActivity.DestinationInjective | src/main/java/garrich/demo/temporal/activity/FileActivityImpl.java:27-32 | distinct clock readings give distinct destinations for the same source and target |
| ChecksumActivity.CalculateSha256 | src/main/java/garrich/demo/temporal/activity/ChecksumActivityImpl.java:18-38 | succeeds exactly when the path is a readable regular file; a missing path fails with "File does not exist"; an unreadable one with "Failed to read file"; the result is 64 lower-case hex digits that read back to the SHA-256 of the file's bytes |
| ChecksumActivity.ChecksumDigits | src/main/java/garrich/demo/temporal/activity/ChecksumActivityImpl.java:26-29 | digest byte i gives checksum characters 2i and 2i+1 |
| ChecksumActivity.ChecksumDependsOnlyOnContents | src/main/java/garrich/demo/temporal/activity/ChecksumActivityImpl.java:26-29 | files with equal contents get equal checksums, whatever their paths |
| ChecksumActivity.ChecksumSeparatesDigests | src/main/java/garrich/demo/temporal/activity/ChecksumActivityImpl.java:26-29 | files whose digests differ get different checksums |
| Workflows.ResultString | src/main/java/garrcich/demo_temporal/workflow/StarterWorkflowImpl.java:37 | the result string: no contract of its own; specified by `SplitResultString` |
| Workflows.SplitResult | src/main/java/garrcich/demo_temporal/workflow/StarterWorkflowImpl.java:37 | the inverse of `ResultString` for a 64-digit checksum: no contract of its own; specified by `SplitResultString` |
| Workflows.MoveFile | src/main/java/garrcich/demo_temporal/workflow/StarterWorkflowImpl.java:34-38 | `moveFile` of all three workflows: no contract of its own; specified by `MoveFileSuccess`, `MoveFileMoveFailure`, `MoveFileNoRollback` and `MoveFileResultSplits` |
| Workflows.SplitResultString | src/main/java/garrcich/demo_temporal/workflow/StarterWorkflowImpl.java:37 | the result string is the moved path followed by 76 characters and splits back into the path and the checksum |
| Workflows.ChecksumOfMovedFile | src/main/java/garrcich/demo_temporal/workflow/StarterWorkflowImpl.java:35-36 | after a successful move, the checksum step reads the moved file and digests the source's original bytes |
| Workflows.MoveFileSuccess | src/main/java/garrcich/demo_temporal/workflow/StarterWorkflowImpl.java:34-38 | `moveFile` succeeds exactly when the move succeeds and the file can be read; it leaves the state the move left; its result is the destination and the hex digest of the source's bytes |
| Workflows.MoveFileMoveFailure | src/main/java/garrcich/demo_temporal/workflow/StarterWorkflowImpl.java:35-36 | a failed move is the workflow's failure, with the move's error and state, whatever the digest function or read outcome: the checksum step is never reached |
| Workflows.MoveFileNoRollback | src/main/java/garrcich/demo_temporal/workflow/StarterWorkflowImpl.java:35-37 | when the checksum step fails after a successful move, the workflow fails and the file stays at the destination |
| Workflows.MoveFileResultSplits | src/main/java/garrcich/demo_temporal/workflow/StarterWorkflowImpl.java:37 | a successful result splits into a path that parses to the destination and a 64-digit checksum |
| WfTasks.MoveFile | src/main/java/garrcich/demo_temporal/workflow/StarterWorkflowWfTasksImpl.java:19-23 | the inline pipeline, step by step on the file system, gives the result and entries of the workflows' `moveFile` |
| FileProcessing.ProcessFileSpec | src/main/java/garrich/demo/temporal/service/FileProcessingService.java:29-51 | `processFile` on values: no contract of its own; specified by `ProcessFileAgreesWithMoveFile`, `ProcessFileTrail`, `ProcessFileMissingSource` and `ProcessFileRecordsDescribeFile` |
| FileProcessing.IsAuditTrail | src/main/java/garrich/demo/temporal/service/FileProcessingService.java:32-47 | the records `processFile` saves, in order: no contract of its own; established by `ProcessFileTrail` |
| FileProcessing.FileProcessingRepository.Save | src/main/java/garrich/demo/temporal/service/FileProcessingService.java:33 | `save` appends the record after all earlier ones |
| FileProcessing.FileProcessingService.ProcessFile | src/main/java/garrich/demo/temporal/service/FileProcessingService.java:29-51 | gives the result, file system and appended records `ProcessFileSpec` specifies |
| FileProcessing.ProcessFileAgreesWithMoveFile | src/main/java/garrich/demo/temporal/service/FileProcessingService.java:36-50 | `processFile` returns and moves exactly what the workflows' `moveFile` does |
| FileProcessing.ProcessFileTrail | src/main/java/garrich/demo/temporal/service/FileProcessingService.java:32-50 | the saved records are a non-empty prefix of RECEIVED, MOVED, CHECKSUM_CALCULATED, all for the original path, with the new path from MOVED on and the checksum only on the last; three records exactly on success, one exactly when the move failed; the result is built from the last record |
| FileProcessing.ProcessFileMissingSource | src/main/java/garrich/demo/temporal/service/FileProcessingService.java:32-37 | a missing source saves only FILE_RECEIVED, fails with "Source file does not exist" and touches no file |
| FileProcessing.ProcessFileRecordsDescribeFile | src/main/java/garrich/demo/temporal/service/FileProcessingService.java:39-47 | the saved new path names where the source's bytes now are, and the saved checksum is the hex digest of those bytes |

## Left out

- Temporal's machinery is not modelled: workers, history replay, retries, timeouts, the local/remote distinction and workflow concurrency. The configured options are recorded as constants (`Workflows.RemoteMoveOptions` and the others: 2 minutes and 3 attempts remote; 1 and 2 minutes, no retry options, local). `FileActivity.MoveRetryAfterSuccess` states what a retry of a completed move would do.
- SHA-256 itself is a parameter returning 32 bytes; its internals are not modelled.
- The clock is a parameter. The pattern `yyyyMMdd_HHmmssnnnnnnnn` prints one `_` and at least 22 digits, because the nanosecond field has 8 or 9 digits, so its width is not fixed; the model accepts any string of digits and `_`. The clock's monotonicity is not modelled: `FileActivity.DestinationInjective` only says that distinct readings give distinct names.
- The record's `id` (generated by the database) and `timestamp` (the clock at construction) are not modelled. The JPA persistence itself is not modelled either.
- The Camel routes, Spring wiring, configuration, logging and the performance test are outside the pipeline and are not modelled.
- `NoSuchAlgorithmException` ("SHA-256 algorithm not available") cannot occur on a standard JVM and is not modelled.
- `InvalidPathException` from `Paths.get` and null arguments are not modelled: every string parses.
- Relative paths are not resolved against the working directory, and `.` and `..` are ordinary names. Two strings that differ only in repeated or trailing `/` parse to the same path, as in `Paths.get`.
- A source path with no name fails with `NoFileName` before any directory is created and before any move is attempted. For the root, Java's `getFileName()` returns null and the call throws a `NullPointerException`. For the empty string, `Paths.get("")` is the working directory, which exists, and its file name is empty; Java then builds the name `"_" + timestamp`, creates the target directories and tries to move the working directory. The model does neither of the last two.
- FileSystems.MoveEffect: a directory source fails with `IsADirectory`, where Java's `move` would rename the directory; moving directories is not modelled.
- FileSystems.MoveEffect: a refused move is treated as all-or-nothing, whereas Java's `move` with `REPLACE_EXISTING` may already have deleted an existing file or empty directory at the destination before the rename (or the copy across file systems) fails.
- FileActivity.MoveFailureKeepsEntries: inherits the all-or-nothing move, so a failed move is said to lose no entry.
- FileActivity.CreateAndMoveFailureKeepsEntries: inherits the all-or-nothing move, so a failed try block is said to lose no entry.
- FileActivity.MoveSucceedsIff: inherits the directory-source restriction, so a directory source fails the move.
- FileActivity.CreateAndMoveSucceedsIff: inherits the directory-source restriction, so a directory source fails the try block.
- Workflows.MoveFileSuccess: inherits the directory-source restriction. For a directory source the model fails at the move with `MoveFailed(IsADirectory)`, whereas Java moves the directory and then fails at the read with "Failed to read file".
- FileProcessing.ProcessFileTrail: inherits the directory-source restriction. For a directory source the model saves only FILE_RECEIVED, whereas Java saves FILE_RECEIVED and FILE_MOVED and then fails at the read.
- FileSystems.CreateDirectoriesEffect: `createDirectories` is treated as atomic. A refused call changes nothing, whereas the OS may have created some of the ancestors before failing.
- The checksum activity of the `garrcich.demo_temporal.activity` package is not part of this model. For `StarterWorkflowImpl` and `Starter2WorkflowImpl`, `Workflows.MoveFile` assumes it behaves as `ChecksumActivityImpl.calculateSha256`.
- OS failures are single flags: one per `createDirectories`, `move` and read. Exception message texts are kept only as error kinds and paths.
- Concurrent access to the shared target directory is not modelled.
- Symbolic links, permissions and file attributes are not modelled: an entry is a regular file or a directory. A snapshot need not be a tree. When it is one, `createDirectories`, `move` and `moveFileToTarget` keep it one (`FileSystems.CreateDirectoriesKeepsTree`, `FileSystems.MoveKeepsTree`, `FileActivity.MoveKeepsTreeShape`).
