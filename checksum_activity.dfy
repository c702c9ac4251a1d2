/**
 * calculateSha256, identical in ChecksumActivityImpl,
 * FileProcessingService and StarterWorkflowWfTasksImpl: check that the
 * file exists, read all of its bytes, digest them with SHA-256 and format
 * the digest as lower-case hex.  SHA-256 itself is a parameter.
 */
module ChecksumActivity {
  import opened Results
  import opened Paths
  import opened Hex
  import opened FileSystems
  import opened Errors

  /** A SHA-256 digest: 32 bytes. */
  type Digest = d: seq<byte> | |d| == 32 witness seq(32, _ => 0)

  /** MessageDigest.getInstance("SHA-256").digest, left uninterpreted. */
  type Sha256 = seq<byte> -> Digest

  /** A string of 64 lower-case hex digits. */
  predicate IsChecksumText(s: string)
  {
    |s| == 64 && forall i :: 0 <= i < |s| ==> IsLowerHexDigit(s[i])
  }

  /** calculateSha256(filePath) against the file system fs; readRefused
      stands for an IOException from readAllBytes that the file system's
      contents do not explain.  A function of fs: the step only reads. */
  function CalculateSha256(fs: Snapshot, sha256: Sha256, readRefused: bool, filePath: string)
    : (r: Result<string, Error>)
    ensures r.Success? <==> IsFile(fs, Parse(filePath)) && !readRefused
    ensures Parse(filePath) !in fs ==> r == Failure(FileMissing(filePath))
    ensures r.Failure? && Parse(filePath) in fs ==> r.error.ReadFailed?
    ensures r.Success? ==> IsChecksumText(r.value)
    ensures r.Success? ==> ParseHex(r.value) == sha256(fs[Parse(filePath)].bytes)
  {
    var path := Parse(filePath);
    if path !in fs then Failure(FileMissing(filePath))
    else if readRefused then Failure(ReadFailed(Refused))
    else match fs[path]
      case Directory => Failure(ReadFailed(IsADirectory))
      case File(bytes) =>
        var digest := sha256(bytes);
        ParseFormatHex(digest);
        Success(FormatHex(digest))
  }

  /** The checksum is the hex form of the digest of the file's complete
      contents: byte i of the digest gives characters 2i and 2i + 1, high
      nibble first. */
  lemma ChecksumDigits(fs: Snapshot, sha256: Sha256, filePath: string, i: nat)
    requires IsFile(fs, Parse(filePath)) && i < 32
    ensures var digest := sha256(fs[Parse(filePath)].bytes);
      var r := CalculateSha256(fs, sha256, false, filePath);
      && r.value[2 * i] == HexDigit(digest[i] as int / 16)
      && r.value[2 * i + 1] == HexDigit(digest[i] as int % 16)
  {
    FormatHexAt(sha256(fs[Parse(filePath)].bytes), i);
  }

  /** The checksum depends only on the file's bytes: two files with equal
      contents, at any paths and in any file systems, get the same string. */
  lemma ChecksumDependsOnlyOnContents(fs1: Snapshot, path1: string, fs2: Snapshot, path2: string, sha256: Sha256)
    requires IsFile(fs1, Parse(path1)) && IsFile(fs2, Parse(path2))
    requires fs1[Parse(path1)].bytes == fs2[Parse(path2)].bytes
    ensures CalculateSha256(fs1, sha256, false, path1) == CalculateSha256(fs2, sha256, false, path2)
  {
  }

  /** Files whose digests differ get different checksums. */
  lemma ChecksumSeparatesDigests(fs1: Snapshot, path1: string, fs2: Snapshot, path2: string, sha256: Sha256)
    requires IsFile(fs1, Parse(path1)) && IsFile(fs2, Parse(path2))
    requires sha256(fs1[Parse(path1)].bytes) != sha256(fs2[Parse(path2)].bytes)
    ensures CalculateSha256(fs1, sha256, false, path1) != CalculateSha256(fs2, sha256, false, path2)
  {
    var r1 := CalculateSha256(fs1, sha256, false, path1);
    var r2 := CalculateSha256(fs2, sha256, false, path2);
    assert ParseHex(r1.value) != ParseHex(r2.value);
  }
}
