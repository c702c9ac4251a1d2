/** The exceptions the pipeline steps throw, and the operating-system
    failures the model takes as parameters. */
module Errors {
  import opened FileSystems

  /** The RuntimeExceptions of moveFileToTarget and calculateSha256. */
  datatype Error =
    | SourceMissing(filePath: string)   // "Source file does not exist: " + filePath
    | NoFileName                        // getFileName() is null for a path without names
    | MoveFailed(cause: IoFault)        // "Failed to move file: " + the IOException's message
    | FileMissing(filePath: string)     // "File does not exist: " + filePath
    | ReadFailed(cause: IoFault)        // "Failed to read file: " + the IOException's message

  /** Which calls the operating system fails on its own account (permissions,
      a full disk, a concurrent change); every other failure follows from
      the file system's contents. */
  datatype Faults = Faults(createDirectories: bool, move: bool, read: bool)
}
