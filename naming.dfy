/**
 * addTimestampToFileName, identical in FileProcessingService,
 * StarterWorkflowWfTasksImpl and both FileActivityImpl classes: the clock
 * reading is inserted before the extension, or appended when there is none.
 */
module Naming {

  /** A character that the pattern "yyyyMMdd_HHmmssnnnnnnnn" can print. */
  predicate IsClockChar(c: char)
  {
    '0' <= c <= '9' || c == '_'
  }

  /** A formatted clock reading.  Only its alphabet is modelled: digits and
      underscores, so it never holds '.' or '/'. */
  type Timestamp = s: string | forall i :: 0 <= i < |s| ==> IsClockChar(s[i])

  /** String.lastIndexOf(c): the last index holding c, or -1. */
  function LastIndexOf(s: string, c: char): (r: int)
    ensures -1 <= r < |s|
    ensures 0 <= r ==> s[r] == c
    ensures forall j :: r < j < |s| ==> s[j] != c
  {
    if s == [] then -1
    else if s[|s| - 1] == c then |s| - 1
    else LastIndexOf(s[..|s| - 1], c)
  }

  /** The extension of a file name: from its last '.' to the end, unless
      that '.' is the first character (".env" has no extension). */
  function Extension(fileName: string): (e: string)
    ensures |e| <= |fileName| && fileName[|fileName| - |e|..] == e
    ensures e != [] ==> e[0] == '.' && |e| < |fileName| && forall i :: 1 <= i < |e| ==> e[i] != '.'
    ensures e == [] <==> forall i :: 1 <= i < |fileName| ==> fileName[i] != '.'
  {
    var dotIndex := LastIndexOf(fileName, '.');
    if dotIndex > 0 then fileName[dotIndex..] else ""
  }

  /** The file name without its extension. */
  function Stem(fileName: string): (s: string)
    ensures s + Extension(fileName) == fileName
  {
    fileName[..|fileName| - |Extension(fileName)|]
  }

  /** The new name: "_" + timestamp inserted between stem and extension. */
  function AddTimestampToFileName(fileName: string, timestamp: string): (r: string)
    ensures r == Stem(fileName) + "_" + timestamp + Extension(fileName)
    ensures |r| == |fileName| + 1 + |timestamp|
  {
    var dotIndex := LastIndexOf(fileName, '.');
    if dotIndex > 0 then
      var name := fileName[..dotIndex];
      var extension := fileName[dotIndex..];
      assert fileName == name + extension;
      name + "_" + timestamp + extension
    else
      fileName + "_" + timestamp
  }

  /** Removes the "_" + timestamp that AddTimestampToFileName inserted, given
      only the timestamp's length. */
  function StripTimestamp(newName: string, timestampLength: nat): string
    requires |newName| > timestampLength
  {
    var dotIndex := LastIndexOf(newName, '.');
    if dotIndex > timestampLength + 1 then
      newName[..dotIndex - timestampLength - 1] + newName[dotIndex..]
    else
      newName[..|newName| - timestampLength - 1]
  }

  /** LastIndexOf is determined by its contract. */
  lemma LastIndexOfUnique(s: string, c: char, k: int)
    requires -1 <= k < |s|
    requires 0 <= k ==> s[k] == c
    requires forall j :: k < j < |s| ==> s[j] != c
    ensures LastIndexOf(s, c) == k
  {
  }

  /** A clock reading holds no '.'. */
  lemma TimestampHasNoDot(timestamp: Timestamp)
    ensures forall i :: 0 <= i < |timestamp| ==> timestamp[i] != '.'
  {
    forall i | 0 <= i < |timestamp| ensures timestamp[i] != '.' {
      assert IsClockChar(timestamp[i]);
    }
  }

  /** Deleting the inserted "_" + timestamp recovers the original name. */
  lemma StripAddTimestamp(fileName: string, timestamp: Timestamp)
    ensures StripTimestamp(AddTimestampToFileName(fileName, timestamp), |timestamp|) == fileName
  {
    TimestampHasNoDot(timestamp);
    if Extension(fileName) != [] {
      StripWithExtension(Stem(fileName), timestamp, Extension(fileName));
    } else {
      StripWithoutExtension(fileName, timestamp);
    }
  }

  lemma StripWithExtension(stem: string, timestamp: string, ext: string)
    requires |stem| > 0 && ext != [] && ext[0] == '.'
    requires forall i :: 1 <= i < |ext| ==> ext[i] != '.'
    requires forall i :: 0 <= i < |timestamp| ==> timestamp[i] != '.'
    ensures StripTimestamp(stem + "_" + timestamp + ext, |timestamp|) == stem + ext
  {
    var prefix := stem + "_" + timestamp;
    var r := prefix + ext;
    var d := |prefix|;
    assert r[d..] == ext;
    assert r[..|stem|] == stem by {
      assert r[..|stem|] == prefix[..|stem|];
    }
    forall j | d < j < |r|
      ensures r[j] != '.'
    {
      assert r[j] == ext[j - d];
    }
    LastIndexOfUnique(r, '.', d);
  }

  lemma StripWithoutExtension(fileName: string, timestamp: string)
    requires forall i :: 1 <= i < |fileName| ==> fileName[i] != '.'
    requires forall i :: 0 <= i < |timestamp| ==> timestamp[i] != '.'
    ensures StripTimestamp(fileName + "_" + timestamp, |timestamp|) == fileName
  {
    var r := fileName + "_" + timestamp;
    var d := LastIndexOf(fileName, '.');
    assert forall j :: |fileName| < j < |r| ==> r[j] == timestamp[j - |fileName| - 1];
    assert forall j :: 0 <= j < |fileName| ==> r[j] == fileName[j];
    LastIndexOfUnique(r, '.', d);
    assert r[..|r| - |timestamp| - 1] == fileName;
  }

  /** For one file name, distinct clock readings give distinct new names. */
  lemma AddTimestampInjective(fileName: string, t1: string, t2: string)
    requires AddTimestampToFileName(fileName, t1) == AddTimestampToFileName(fileName, t2)
    ensures t1 == t2
  {
    var stem := Stem(fileName);
    var r := AddTimestampToFileName(fileName, t1);
    assert |t1| == |t2|;
    var k := |stem| + 1;
    assert r[k..k + |t1|] == t1;
    assert AddTimestampToFileName(fileName, t2)[k..k + |t2|] == t2;
  }

  /** Two names stamped with clock readings of one width coincide only when
      both the names and the readings do. */
  lemma AddTimestampJointlyInjective(n1: string, n2: string, t1: Timestamp, t2: Timestamp)
    requires |t1| == |t2|
    requires AddTimestampToFileName(n1, t1) == AddTimestampToFileName(n2, t2)
    ensures n1 == n2 && t1 == t2
  {
    StripAddTimestamp(n1, t1);
    StripAddTimestamp(n2, t2);
    AddTimestampInjective(n1, t1, t2);
  }

  /** A name whose only '.' leads it (".env") or that has none is treated as
      having no extension: the stamp is appended. */
  lemma AddTimestampNoExtension(fileName: string, timestamp: string)
    requires forall i :: 1 <= i < |fileName| ==> fileName[i] != '.'
    ensures AddTimestampToFileName(fileName, timestamp) == fileName + "_" + timestamp
  {
  }

  /** With a '.' after the first character the stamp goes before the last '.'. */
  lemma AddTimestampWithExtension(fileName: string, timestamp: string, dot: nat)
    requires 0 < dot < |fileName| && fileName[dot] == '.'
    requires forall i :: dot < i < |fileName| ==> fileName[i] != '.'
    ensures AddTimestampToFileName(fileName, timestamp) == fileName[..dot] + "_" + timestamp + fileName[dot..]
  {
    LastIndexOfUnique(fileName, '.', dot);
  }

  /** The new name holds exactly the characters of the old name, one '_'
      and the timestamp's characters. */
  lemma AddTimestampCharacters(fileName: string, timestamp: string)
    ensures multiset(AddTimestampToFileName(fileName, timestamp))
         == multiset(fileName) + multiset{'_'} + multiset(timestamp)
  {
    var e := Extension(fileName);
    var stem := Stem(fileName);
    assert fileName == stem + e;
    assert AddTimestampToFileName(fileName, timestamp) == stem + "_" + timestamp + e;
  }

  /** A stamped name keeps no '/' when neither input has one, so it is still
      a single path name. */
  lemma AddTimestampNoSeparator(fileName: string, timestamp: Timestamp)
    requires '/' !in fileName
    ensures '/' !in AddTimestampToFileName(fileName, timestamp)
  {
    AddTimestampCharacters(fileName, timestamp);
    var r := AddTimestampToFileName(fileName, timestamp);
    assert multiset(r)['/'] == 0;
  }
}
