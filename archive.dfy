/**
 * The values an archive export works on: the entries a recursive tree walk
 * reports, the commit being exported, the headers of zip and tar entries, and
 * the effects an export has on its output pipeline, recorded as events.
 * A reader that parses such an event log back into archive records stands for
 * a conformant extractor.
 */
module Archive {

  datatype Option<T> = None | Some(value: T)

  type byte = x: int | 0 <= x < 256

  /** The kinds of entry a tree walk reports (JGit's FileMode constants). */
  datatype FileMode = Tree | Symlink | RegularFile | ExecutableFile | Gitlink

  /** The type and permission bits of each mode, as FileMode.getBits() gives them. */
  function Bits(m: FileMode): nat
  {
    match m
    case Tree => 16384            // 040000 octal
    case Symlink => 40960         // 0120000 octal
    case RegularFile => 33188     // 0100644 octal
    case ExecutableFile => 33261  // 0100755 octal
    case Gitlink => 57344         // 0160000 octal
  }

  /**
   * One step of the tree walk: the walk path, the mode, and the blob the
   * entry's object id names in the object store (None when the store does
   * not have it, so that opening it fails).
   */
  datatype TreeEntry = TreeEntry(path: string, mode: FileMode, blob: Option<seq<byte>>)

  /** The resolved commit: its name (the object id as text) and its author time in milliseconds. */
  datatype Commit = Commit(name: string, authorTime: int)

  /** Directories and submodule links are structural and never become archive entries. */
  predicate Skipped(m: FileMode)
  {
    m == Tree || m == Gitlink
  }

  /** The entries of a walk that become archive entries, in walk order. */
  function Materialized(entries: seq<TreeEntry>): (r: seq<TreeEntry>)
    ensures forall e :: e in r <==> e in entries && !Skipped(e.mode)
    ensures |r| <= |entries|
  {
    if entries == [] then []
    else (if Skipped(entries[0].mode) then [] else [entries[0]]) + Materialized(entries[1..])
  }

  /** One entry of the walk is kept as it is, or dropped when it is a directory or submodule link. */
  lemma MaterializedOne(e: TreeEntry)
    ensures Materialized([e]) == if Skipped(e.mode) then [] else [e]
  {
    assert [e][1..] == [];
  }

  /**
   * Filtering keeps walk order: the entries of a walk split anywhere are the
   * kept entries of the first part followed by those of the second. With
   * `MaterializedOne` this fixes the result completely: one copy of each kept
   * entry, in walk order, and nothing else.
   */
  lemma {:induction false} MaterializedAppend(a: seq<TreeEntry>, b: seq<TreeEntry>)
    ensures Materialized(a + b) == Materialized(a) + Materialized(b)
    decreases |a|
  {
    if a == [] {
      assert a + b == b;
    } else {
      assert (a + b)[0] == a[0];
      assert (a + b)[1..] == a[1..] + b;
      MaterializedAppend(a[1..], b);
    }
  }

  /** Every entry that becomes an archive entry has its blob in the store. */
  predicate BlobsPresent(entries: seq<TreeEntry>)
  {
    forall i :: 0 <= i < |entries| && !Skipped(entries[i].mode) ==> entries[i].blob.Some?
  }

  /** The fields the exporter sets on a ZipArchiveEntry. */
  datatype ZipEntryMeta = ZipEntryMeta(name: string, size: nat, comment: string, unixMode: nat, time: int)

  /**
   * The fields the exporter sets on a TarArchiveEntry: a regular entry gets
   * mode, time and size; a symbolic link (type LF_SYMLINK) gets its link name
   * and time only.
   */
  datatype TarEntryMeta =
    | TarFile(name: string, mode: nat, modTime: int, size: nat)
    | TarSymlink(name: string, linkName: string, modTime: int)

  datatype Header = ZipHeader(zip: ZipEntryMeta) | TarHeader(tar: TarEntryMeta)

  datatype Algorithm = Gzip | Xz | Bzip2

  /** What the tar stream writes into: the caller's stream itself, or a compressor over it. */
  datatype Layer = Raw | Compressed(algorithm: Algorithm)

  /** The effects of one export, in the order they happen. */
  datatype Event =
    | OpenCompressor(algorithm: Algorithm)                     // a compressor stream is built over the output
    | OpenWalks                                                // the rev walk and tree walk are created
    | SetArchiveComment(text: string)                          // zip archive comment
    | SetTarOptions(paxForNonAscii: bool, posixLongNames: bool)
    | SetPathFilter(path: string)                              // the tree walk is restricted to a base path
    | PutEntry(header: Header)                                 // putArchiveEntry
    | Body(bytes: seq<byte>)                                   // copying a blob into the entry
    | CloseEntry                                               // closeArchiveEntry
    | Finish                                                   // finish: the container trailer
    | CloseArchive                                             // closing the tar stream
    | CloseOutput(layer: Layer)                                // closing the stream beneath the tar stream
    | CloseWalks                                               // the tree walk and rev walk are released

  /** An archive entry as an extractor sees it: its header and its body bytes. */
  datatype Record = Record(header: Header, body: seq<byte>)

  /**
   * A reader for the entry section of an event log: each entry is a header,
   * at most one body, and the close of the entry. Anything else is malformed.
   */
  function ReadEntries(ops: seq<Event>): (r: Option<seq<Record>>)
    ensures r.Some? ==> 2 * |r.value| <= |ops|
    decreases |ops|
  {
    if ops == [] then Some([])
    else if !ops[0].PutEntry? || |ops| < 2 then None
    else if ops[1] == CloseEntry then
      match ReadEntries(ops[2..])
      case None => None
      case Some(rest) => Some([Record(ops[0].header, [])] + rest)
    else if ops[1].Body? && |ops| >= 3 && ops[2] == CloseEntry then
      match ReadEntries(ops[3..])
      case None => None
      case Some(rest) => Some([Record(ops[0].header, ops[1].bytes)] + rest)
    else None
  }

  /** A whole zip archive as an extractor reads it: the entries, then the finish. */
  function ReadZip(ops: seq<Event>): (r: Option<seq<Record>>)
    ensures r.Some? ==> 2 * |r.value| < |ops|
  {
    if |ops| >= 1 && ops[|ops| - 1] == Finish then ReadEntries(ops[..|ops| - 1]) else None
  }

  /** A whole tar archive as an extractor reads it: the entries, then finish and the closing of both streams. */
  function ReadTar(ops: seq<Event>): (r: Option<seq<Record>>)
    ensures r.Some? ==> 2 * |r.value| + 3 <= |ops|
  {
    if |ops| >= 3 && ops[|ops| - 3] == Finish && ops[|ops| - 2] == CloseArchive && ops[|ops| - 1].CloseOutput?
    then ReadEntries(ops[..|ops| - 3])
    else None
  }
}
