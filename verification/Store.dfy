/** The PST, durable at every save, and the tables, durable at every commit. */
module Store {
  import opened Wrappers

  /** The folder that receives the fallback messages. */
  const CONVERSION_ERRORS: string := "_Conversion Errors"

  datatype Status = Pending | Imported | PreservedAsAttachment | FailedSourceRead | FailedMapi

  /** What validation and resume can read back of one message in the PST. */
  datatype TrackedMessage = TrackedMessage(
    entryId: nat, path: string, sha: string, runId: string, hasAttachments: bool)

  /** PST folders by path under the tool root. A folder's entry id is modelled by its path. */
  type Pst = map<string, seq<TrackedMessage>>

  /** One row of the `files` table; its id is its position. An empty `sha` is SQL NULL. */
  datatype FileRow = FileRow(
    path: string, size: nat, lastWrite: int, sha: string, target: string,
    entryId: Option<nat>, status: Status, attempts: nat, hresult: int)

  /** One row of the `folder_map` table. */
  datatype FolderRow = FolderRow(source: string, target: string, entryId: Option<string>)

  datatype Tables = Tables(files: seq<FileRow>, folders: seq<FolderRow>)

  function Contents(pst: Pst, folder: string): seq<TrackedMessage> {
    if folder in pst then pst[folder] else []
  }

  /** The messages carrying this run id and source path, in folder order. */
  function Hits(messages: seq<TrackedMessage>, runId: string, path: string): seq<TrackedMessage> {
    if messages == [] then []
    else if messages[0].runId == runId && messages[0].path == path
    then [messages[0]] + Hits(messages[1..], runId, path)
    else Hits(messages[1..], runId, path)
  }

  function HitsIn(pst: Pst, folder: string, runId: string, path: string): seq<TrackedMessage> {
    Hits(Contents(pst, folder), runId, path)
  }

  /** Opening a folder chain: the missing folders appear empty, nothing else changes. */
  function Ensured(pst: Pst, folders: set<string>): Pst {
    map f | f in pst.Keys + folders :: Contents(pst, f)
  }

  function Delivered(pst: Pst, folder: string, m: TrackedMessage): Pst {
    pst[folder := Contents(pst, folder) + [m]]
  }

  function WithFolderEntry(folders: seq<FolderRow>, target: string): seq<FolderRow> {
    seq(|folders|, i requires 0 <= i < |folders| =>
      if folders[i].target == target then folders[i].(entryId := Some(target)) else folders[i])
  }

  function CountStatus(files: seq<FileRow>, status: Status): nat {
    if files == [] then 0
    else (if files[0].status == status then 1 else 0) + CountStatus(files[1..], status)
  }

  /** A digest stored for the row and another one on the message. */
  predicate ShaDiffers(row: FileRow, m: TrackedMessage) {
    row.sha != "" && m.sha != "" && row.sha != m.sha
  }

  lemma {:induction false} HitsConcat(a: seq<TrackedMessage>, b: seq<TrackedMessage>, runId: string, path: string)
    ensures Hits(a + b, runId, path) == Hits(a, runId, path) + Hits(b, runId, path)
  {
    if a == [] {
      assert a + b == b;
    } else {
      assert (a + b)[1..] == a[1..] + b;
      HitsConcat(a[1..], b, runId, path);
    }
  }

  /** The matches are exactly the members of the folder with this run id and path. */
  lemma {:induction false} HitsAreTheMatches(messages: seq<TrackedMessage>, runId: string, path: string, m: TrackedMessage)
    ensures m in Hits(messages, runId, path) <==> m in messages && m.runId == runId && m.path == path
  {
    if messages != [] {
      HitsAreTheMatches(messages[1..], runId, path, m);
    }
  }

  lemma {:induction false} NoHitsOfAnotherPath(messages: seq<TrackedMessage>, runId: string, path: string)
    requires forall m :: m in messages ==> m.path != path
    ensures Hits(messages, runId, path) == []
  {
    if messages != [] {
      NoHitsOfAnotherPath(messages[1..], runId, path);
    }
  }
}
