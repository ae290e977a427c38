/** When the worker accepts to resume a job. */
module ResumeGate {
  import opened Wrappers
  import opened Utf
  import opened Sha256
  import opened Manifest
  import opened ImportProtocol

  const HEX: string := "0123456789abcdef"

  datatype JobInfo = JobInfo(
    sourceRoot: seq<Unit>, outputPst: seq<Unit>, rootName: seq<Unit>, outlookBitness: string,
    folderLayout: seq<Byte>, manifestHash: string, schemaVersion: int)

  datatype Mismatch = NoJob | SourceRoot | OutputPst | RootName | OutlookBitness | FolderLayout | SchemaVersion | ManifestHash

  ghost function HexOf(bytes: seq<Byte>): string {
    if bytes == [] then [] else [HEX[bytes[0] / 16], HEX[bytes[0] % 16]] + HexOf(bytes[1..])
  }

  method ToHexLower(data: seq<Byte>) returns (out: string)
    ensures out == HexOf(data)
  {
    out := "";
    var i := 0;
    while i < |data|
      invariant 0 <= i <= |data| && out + HexOf(data[i..]) == HexOf(data)
    {
      ghost var was := out;
      out := out + [HEX[data[i] / 16], HEX[data[i] % 16]];
      assert was + ([HEX[data[i] / 16], HEX[data[i] % 16]] + HexOf(data[i + 1..])) == out + HexOf(data[i + 1..]);
      i := i + 1;
    }
  }

  function HexDigitOf(v: nat): char
    requires v < 16
  {
    if v < 10 then ('0' as int + v) as char else ('a' as int + (v - 10)) as char
  }

  lemma DigitShown(v: nat)
    requires v < 16
    ensures HEX[v] == HexDigitOf(v)
  {
  }

  /** Byte k is shown at 2k by its high half and at 2k + 1 by its low half, in lower case. */
  lemma {:induction false} HexAt(data: seq<Byte>, k: nat)
    requires k < |data|
    ensures |HexOf(data)| == 2 * |data|
    ensures HexOf(data)[2 * k] == HexDigitOf(data[k] / 16) && HexOf(data)[2 * k + 1] == HexDigitOf(data[k] % 16)
  {
    hide HexDigitOf;
    HexLength(data);
    DigitShown(data[0] / 16);
    DigitShown(data[0] % 16);
    if k > 0 {
      HexAt(data[1..], k - 1);
      assert HexOf(data)[2..] == HexOf(data[1..]);
    }
  }

  lemma {:induction false} HexLength(data: seq<Byte>)
    ensures |HexOf(data)| == 2 * |data|
  {
    if data != [] { HexLength(data[1..]); }
  }

  lemma {:induction false} HexInjective(a: seq<Byte>, b: seq<Byte>)
    requires HexOf(a) == HexOf(b)
    ensures a == b
  {
    if a != [] && b != [] {
      var x, y := HexOf(a), HexOf(b);
      assert x[0] == y[0] && x[1] == y[1];
      assert HexOf(a[1..]) == x[2..] && HexOf(b[1..]) == y[2..];
      DigitsDiffer(a[0] / 16, b[0] / 16);
      DigitsDiffer(a[0] % 16, b[0] % 16);
      HexInjective(a[1..], b[1..]);
      assert a == [a[0]] + a[1..] && b == [b[0]] + b[1..];
    }
  }

  lemma DigitsDiffer(i: nat, j: nat)
    requires i < 16 && j < 16
    ensures HEX[i] == HEX[j] <==> i == j
  {
  }

  /** Hashes a manifest as its lines are produced. */
  method HashManifest(entries: seq<WideEntry>) returns (hash: string)
    ensures hash == HexOf(MessageDigest(ManifestText(entries)))
  {
    hide *;
    var sink := SerializeManifest(entries);
    var digest := DigestOfChunks(sink);
    hash := ToHexLower(digest);
  }

  /** The stored job against the one asked for; the first difference decides. */
  function CheckResumeCompatible(stored: Option<JobInfo>, expected: JobInfo): Option<Mismatch> {
    if stored.None? then Some(NoJob)
    else if stored.value.sourceRoot != expected.sourceRoot then Some(SourceRoot)
    else if stored.value.outputPst != expected.outputPst then Some(OutputPst)
    else if stored.value.rootName != expected.rootName then Some(RootName)
    else if stored.value.outlookBitness != expected.outlookBitness then Some(OutlookBitness)
    else if stored.value.folderLayout != expected.folderLayout then Some(FolderLayout)
    else if stored.value.schemaVersion != expected.schemaVersion then Some(SchemaVersion)
    else if stored.value.manifestHash != expected.manifestHash then Some(ManifestHash)
    else None
  }

  function RejectionCode(m: Mismatch): ExitCode {
    if m.ManifestHash? then SourceChanged else StateDbIncompatible
  }

  /** Resuming is accepted exactly for the same job over the same manifest, and a changed source is
      reported exactly when nothing but the manifest differs. */
  lemma GateIsExact(stored: Option<JobInfo>, expected: JobInfo)
    ensures CheckResumeCompatible(stored, expected) == None <==> stored == Some(expected)
    ensures (CheckResumeCompatible(stored, expected).Some?
             && RejectionCode(CheckResumeCompatible(stored, expected).value) == SourceChanged)
      <==> stored.Some? && stored.value != expected && stored.value.(manifestHash := expected.manifestHash) == expected
  {
  }

  /** The two texts, if they differ, have different digests. */
  ghost predicate NoCollision(a: seq<Byte>, b: seq<Byte>) {
    MessageDigest(a) == MessageDigest(b) ==> a == b
  }

  /** A resumed job has the manifest it was created with, entry by entry, unless two manifest texts
      collide under SHA-256. */
  lemma {:induction false} ResumedManifestIsTheSame(created: seq<WideEntry>, scanned: seq<WideEntry>, stored: JobInfo,
                                                    expected: JobInfo)
    requires RecordFree(created) && RecordFree(scanned)
    requires NoCollision(ManifestText(created), ManifestText(scanned))
    requires stored.manifestHash == HexOf(MessageDigest(ManifestText(created)))
    requires expected.manifestHash == HexOf(MessageDigest(ManifestText(scanned)))
    ensures CheckResumeCompatible(Some(stored), expected) == None ==> created == scanned
    ensures CheckResumeCompatible(Some(stored), expected) == Some(ManifestHash) ==> created != scanned
  {
    hide HexOf, MessageDigest, ManifestText, RecordFree;
    if stored.manifestHash == expected.manifestHash {
      HexInjective(MessageDigest(ManifestText(created)), MessageDigest(ManifestText(scanned)));
      TextIsUnambiguous(created, scanned);
    }
  }
}
