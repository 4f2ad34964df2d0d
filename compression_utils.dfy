/**
 * The archive exporters of CompressionUtils: `Zip`, the private `Tar` that
 * takes an optional compression algorithm, and the `TarPlain`, `Gz`, `Xz` and
 * `Bzip2` dispatchers onto it.
 *
 * Each exporter is a method whose loop walks the tree entries in order and
 * writes to a `Trace`; its contract ties the new trace to a plan, a function
 * of the commit and the entries. The lemmas below say what the plans mean:
 * read back by an extractor they give one record per file, in walk order,
 * with the fields the source sets; they complete exactly when every blob is
 * present; and the export succeeds exactly when its last write took effect.
 */
module CompressionUtils {
  import opened Archive
  import opened Pipeline

  const ARCHIVE_COMMENT := "Generated by Gitblit"

  /** Which exporter a plan describes; tar needs the charset that turns a link target's bytes into text. */
  datatype Format = ZipFormat | TarFormat(charset: seq<byte> -> string)

  /** The writes an export makes, and whether every blob could be read. */
  datatype Plan = Plan(ops: seq<Event>, completes: bool)

  /** A base path that is absent or blank selects the entire tree. */
  predicate IsEmpty(s: Option<string>)
  {
    s.None? || forall i :: 0 <= i < |s.value| ==> s.value[i] <= ' '
  }

  /** Installing a path filter on the tree walk, unless the base path is empty. */
  function FilterSetup(basePath: Option<string>): seq<Event>
  {
    if IsEmpty(basePath) then [] else [SetPathFilter(basePath.value)]
  }

  /** The set-up effects of `Zip`, none of which writes output. */
  function ZipPrelude(basePath: Option<string>): seq<Event>
  {
    [OpenWalks, SetArchiveComment(ARCHIVE_COMMENT)] + FilterSetup(basePath)
  }

  /** The set-up effects of `Tar`: the compressor (built before the walkers) and the walkers. */
  function TarPrelude(layer: Layer, basePath: Option<string>): seq<Event>
  {
    (if layer.Compressed? then [OpenCompressor(layer.algorithm)] else [])
      + [OpenWalks, SetTarOptions(true, true)] + FilterSetup(basePath)
  }

  /**
   * The stream the tar stream writes into: a compressor when an algorithm is
   * named and the compressor could be built, otherwise the caller's stream.
   */
  function SelectLayer(algorithm: Option<Algorithm>, codecOk: bool): Layer
  {
    if algorithm.Some? && codecOk then Compressed(algorithm.value) else Raw
  }

  /** The header an entry gets in each format. */
  function EntryHeader(f: Format, c: Commit, e: TreeEntry, blob: seq<byte>): Header
  {
    match f
    case ZipFormat => ZipHeader(ZipEntryMeta(e.path, |blob|, c.name, Bits(e.mode), c.authorTime))
    case TarFormat(charset) =>
      if e.mode == Symlink then TarHeader(TarSymlink(e.path, charset(blob), c.authorTime))
      else TarHeader(TarFile(e.path, Bits(e.mode), c.authorTime, |blob|))
  }

  /** Zip writes a body for every entry; tar writes none for a symbolic link. */
  predicate HasBody(f: Format, e: TreeEntry)
  {
    f.ZipFormat? || e.mode != Symlink
  }

  function EntryOps(f: Format, c: Commit, e: TreeEntry, blob: seq<byte>): seq<Event>
  {
    if HasBody(f, e) then [PutEntry(EntryHeader(f, c, e, blob)), Body(blob), CloseEntry]
    else [PutEntry(EntryHeader(f, c, e, blob)), CloseEntry]
  }

  /**
   * What one iteration of the walk loop does with an entry: nothing for a
   * directory or submodule link, an exception for a blob that cannot be
   * opened, otherwise the entry's writes.
   */
  function StepPlan(f: Format, c: Commit, e: TreeEntry): Plan
  {
    if Skipped(e.mode) then Plan([], true)
    else if e.blob.None? then Plan([], false)
    else Plan(EntryOps(f, c, e, e.blob.value), true)
  }

  /** The writes of `second` follow those of `first` only when `first` completes. */
  function Then(first: Plan, second: Plan): Plan
  {
    if first.completes then Plan(first.ops + second.ops, second.completes) else first
  }

  /** The writes for the entries of a walk, stopping at the first blob that cannot be opened. */
  function EntriesPlan(f: Format, c: Commit, entries: seq<TreeEntry>): Plan
    decreases |entries|
  {
    if entries == [] then Plan([], true)
    else Then(StepPlan(f, c, entries[0]), EntriesPlan(f, c, entries[1..]))
  }

  /** The closing writes follow the entries only when every entry was read. */
  function Completed(body: Plan, tail: seq<Event>): Plan
  {
    Then(body, Plan(tail, true))
  }

  function ZipPlan(c: Commit, entries: seq<TreeEntry>): Plan
  {
    Completed(EntriesPlan(ZipFormat, c, entries), [Finish])
  }

  function TarPlan(c: Commit, entries: seq<TreeEntry>, charset: seq<byte> -> string, layer: Layer): Plan
  {
    Completed(EntriesPlan(TarFormat(charset), c, entries), [Finish, CloseArchive, CloseOutput(layer)])
  }

  /** The trace after an export of a resolved commit: set-up, the writes that took effect, release of the walkers. */
  ghost predicate Exported(log0: seq<Event>, b0: Option<nat>, log: seq<Event>, b: Option<nat>,
                           success: bool, prelude: seq<Event>, plan: Plan)
  {
    var done := Run(plan.ops, b0);
    && log == log0 + prelude + done + [CloseWalks]
    && b == Spend(b0, |done|)
    && (success <==> plan.completes && Survives(plan.ops, b0))
  }

  // ---------------------------------------------------------------------------
  // What the plans mean

  /** A plan completes exactly when every entry that becomes an archive entry has its blob. */
  lemma {:induction false} PlanCompletes(f: Format, c: Commit, entries: seq<TreeEntry>)
    ensures EntriesPlan(f, c, entries).completes <==> BlobsPresent(entries)
    decreases |entries|
  {
    if entries != [] {
      PlanCompletes(f, c, entries[1..]);
      assert forall i :: 1 <= i < |entries| ==> entries[1..][i - 1] == entries[i];
      if !Skipped(entries[0].mode) && entries[0].blob.None? {
        assert !BlobsPresent(entries);
      }
    }
  }

  /** Reading back one entry's writes followed by more entries. */
  lemma ReadEntryOps(f: Format, c: Commit, e: TreeEntry, blob: seq<byte>, rest: seq<Event>)
    requires ReadEntries(rest).Some?
    ensures ReadEntries(EntryOps(f, c, e, blob) + rest)
         == Some([Record(EntryHeader(f, c, e, blob), if HasBody(f, e) then blob else [])] + ReadEntries(rest).value)
  {
    var ops := EntryOps(f, c, e, blob) + rest;
    if HasBody(f, e) {
      assert ops[3..] == rest;
    } else {
      assert ops[2..] == rest;
    }
  }

  /** What an extractor reads back from a plan's entry writes: one record per materialized entry, in walk order. */
  lemma {:induction false} ReadBack(f: Format, c: Commit, entries: seq<TreeEntry>)
    requires BlobsPresent(entries)
    ensures var r := ReadEntries(EntriesPlan(f, c, entries).ops);
            var m := Materialized(entries);
            && r.Some? && |r.value| == |m|
            && forall k :: 0 <= k < |m| ==> m[k].blob.Some? && r.value[k] == RecordOf(f, c, m[k])
    decreases |entries|
  {
    if entries != [] {
      var e := entries[0];
      RestBlobsPresent(entries);
      ReadBack(f, c, entries[1..]);
      var rest := EntriesPlan(f, c, entries[1..]).ops;
      var tail := Materialized(entries[1..]);
      var r' := ReadEntries(rest).value;
      if Skipped(e.mode) {
        assert EntriesPlan(f, c, entries).ops == rest;
        assert Materialized(entries) == tail;
      } else {
        assert e.blob.Some?;
        assert EntriesPlan(f, c, entries).ops == EntryOps(f, c, e, e.blob.value) + rest;
        ReadEntryOps(f, c, e, e.blob.value, rest);
        var m := Materialized(entries);
        assert m == [e] + tail;
        var r := ReadEntries(EntriesPlan(f, c, entries).ops).value;
        assert r == [RecordOf(f, c, e)] + r';
        forall k | 0 <= k < |m| ensures m[k].blob.Some? && r[k] == RecordOf(f, c, m[k]) {
          if k > 0 {
            assert m[k] == tail[k - 1] && r[k] == r'[k - 1];
          }
        }
      }
    }
  }

  /** The record an extractor reads for an entry whose blob is present. */
  function RecordOf(f: Format, c: Commit, e: TreeEntry): Record
    requires e.blob.Some?
  {
    Record(EntryHeader(f, c, e, e.blob.value), if HasBody(f, e) then e.blob.value else [])
  }

  lemma RestBlobsPresent(entries: seq<TreeEntry>)
    requires entries != [] && BlobsPresent(entries)
    ensures BlobsPresent(entries[1..])
  {
    assert forall i :: 1 <= i < |entries| ==> entries[1..][i - 1] == entries[i];
  }

  /**
   * Every zip entry is named by its walk path, declares the blob's size, carries
   * the commit name as comment, the mode bits as unix mode and the commit's
   * author time, and its body is the blob; there is one per materialized entry.
   */
  lemma ZipReadBack(c: Commit, entries: seq<TreeEntry>)
    requires BlobsPresent(entries)
    ensures var r := ReadZip(ZipPlan(c, entries).ops);
            var m := Materialized(entries);
            && r.Some? && |r.value| == |m|
            && forall k :: 0 <= k < |m| ==>
                 && m[k].blob.Some?
                 && r.value[k].header.ZipHeader?
                 && r.value[k].header.zip.name == m[k].path
                 && r.value[k].header.zip.size == |m[k].blob.value|
                 && r.value[k].header.zip.comment == c.name
                 && r.value[k].header.zip.unixMode == Bits(m[k].mode)
                 && r.value[k].header.zip.time == c.authorTime
                 && r.value[k].body == m[k].blob.value
  {
    PlanCompletes(ZipFormat, c, entries);
    ReadBack(ZipFormat, c, entries);
    var body := EntriesPlan(ZipFormat, c, entries).ops;
    var ops := ZipPlan(c, entries).ops;
    assert ops == body + [Finish];
    assert ops[..|ops| - 1] == body;
  }

  /**
   * A tar symbolic link has the link type, its link name is the blob read as
   * text and it has no body; any other tar entry has the mode bits, the blob's
   * size and the blob as body. All share the commit's author time; there is
   * one per materialized entry, in walk order, and the archive ends by closing
   * the given layer.
   */
  lemma TarReadBack(c: Commit, entries: seq<TreeEntry>, charset: seq<byte> -> string, layer: Layer)
    requires BlobsPresent(entries)
    ensures var ops := TarPlan(c, entries, charset, layer).ops;
            var r := ReadTar(ops);
            var m := Materialized(entries);
            && r.Some? && |r.value| == |m|
            && ops[|ops| - 1] == CloseOutput(layer)
            && forall k :: 0 <= k < |m| ==>
                 && m[k].blob.Some?
                 && r.value[k].header.TarHeader?
                 && r.value[k].header.tar.name == m[k].path
                 && r.value[k].header.tar.modTime == c.authorTime
                 && (r.value[k].header.tar.TarSymlink? <==> m[k].mode == Symlink)
                 && (m[k].mode == Symlink ==>
                       r.value[k].header.tar.linkName == charset(m[k].blob.value) && r.value[k].body == [])
                 && (m[k].mode != Symlink ==>
                       && r.value[k].header.tar.mode == Bits(m[k].mode)
                       && r.value[k].header.tar.size == |m[k].blob.value|
                       && r.value[k].body == m[k].blob.value)
  {
    PlanCompletes(TarFormat(charset), c, entries);
    ReadBack(TarFormat(charset), c, entries);
    var body := EntriesPlan(TarFormat(charset), c, entries).ops;
    var ops := TarPlan(c, entries, charset, layer).ops;
    assert ops == body + [Finish, CloseArchive, CloseOutput(layer)];
    assert ops[..|ops| - 3] == body;
  }

  /** Entry writes never finish, close the archive or close an output stream. */
  lemma {:induction false} EntryWritesOnly(f: Format, c: Commit, entries: seq<TreeEntry>)
    ensures forall op :: op in EntriesPlan(f, c, entries).ops ==> op.PutEntry? || op.Body? || op == CloseEntry
    decreases |entries|
  {
    if entries != [] {
      EntryWritesOnly(f, c, entries[1..]);
    }
  }

  /** Zip finishes its archive at most once, as its last write, and never closes a stream. */
  lemma ZipNeverCloses(c: Commit, entries: seq<TreeEntry>)
    ensures forall op :: op in ZipPlan(c, entries).ops ==> !op.CloseArchive? && !op.CloseOutput?
    ensures forall i :: 0 <= i < |ZipPlan(c, entries).ops| && ZipPlan(c, entries).ops[i] == Finish ==>
              i == |ZipPlan(c, entries).ops| - 1
  {
    EntryWritesOnly(ZipFormat, c, entries);
    var body := EntriesPlan(ZipFormat, c, entries).ops;
    forall i | 0 <= i < |body| ensures body[i] != Finish {
      assert body[i] in body;
    }
  }

  /** The zip export succeeds exactly when its finish took effect. */
  lemma ZipSuccessIsFinish(c: Commit, entries: seq<TreeEntry>, b: Option<nat>)
    ensures Finish in Run(ZipPlan(c, entries).ops, b)
        <==> ZipPlan(c, entries).completes && Survives(ZipPlan(c, entries).ops, b)
  {
    EntryWritesOnly(ZipFormat, c, entries);
    var plan := ZipPlan(c, entries);
    var body := EntriesPlan(ZipFormat, c, entries).ops;
    var r := Run(plan.ops, b);
    if Finish in r {
      var i :| 0 <= i < |r| && r[i] == Finish;
      assert plan.ops[i] == Finish;
      assert plan.ops[i] !in body;
      assert plan.completes;
      assert plan.ops == body + [Finish];
    }
    if plan.completes && Survives(plan.ops, b) {
      assert r[|r| - 1] == Finish;
    }
  }

  /**
   * The tar export succeeds exactly when the explicit close of the stream
   * beneath the tar stream took effect; a failed export never reaches it.
   */
  lemma TarSuccessIsClose(c: Commit, entries: seq<TreeEntry>, charset: seq<byte> -> string, layer: Layer, b: Option<nat>)
    ensures CloseOutput(layer) in Run(TarPlan(c, entries, charset, layer).ops, b)
        <==> TarPlan(c, entries, charset, layer).completes && Survives(TarPlan(c, entries, charset, layer).ops, b)
  {
    EntryWritesOnly(TarFormat(charset), c, entries);
    var plan := TarPlan(c, entries, charset, layer);
    var body := EntriesPlan(TarFormat(charset), c, entries).ops;
    var r := Run(plan.ops, b);
    if CloseOutput(layer) in r {
      var i :| 0 <= i < |r| && r[i] == CloseOutput(layer);
      assert plan.ops[i] == CloseOutput(layer);
      assert plan.ops[i] !in body;
      assert plan.completes;
      assert plan.ops == body + [Finish, CloseArchive, CloseOutput(layer)];
      assert i == |plan.ops| - 1;
    }
    if plan.completes && Survives(plan.ops, b) {
      assert r[|r| - 1] == CloseOutput(layer);
    }
  }

  /**
   * The tar stream is closed exactly when every blob was read and every write
   * up to that close succeeded: a failure before it leaves both streams
   * unclosed, and only the close of the stream beneath can fail after it.
   */
  lemma TarArchiveClosed(c: Commit, entries: seq<TreeEntry>, charset: seq<byte> -> string, layer: Layer, b: Option<nat>)
    ensures var plan := TarPlan(c, entries, charset, layer);
            CloseArchive in Run(plan.ops, b) <==> plan.completes && (b.None? || |plan.ops| - 1 <= b.value)
  {
    EntryWritesOnly(TarFormat(charset), c, entries);
    var plan := TarPlan(c, entries, charset, layer);
    var body := EntriesPlan(TarFormat(charset), c, entries).ops;
    var r := Run(plan.ops, b);
    if CloseArchive in r {
      var i :| 0 <= i < |r| && r[i] == CloseArchive;
      assert plan.ops[i] == CloseArchive;
      assert plan.ops[i] !in body;
      assert plan.completes;
      assert plan.ops == body + [Finish, CloseArchive, CloseOutput(layer)];
      assert i == |plan.ops| - 2;
    }
    if plan.completes && (b.None? || |plan.ops| - 1 <= b.value) {
      assert plan.ops == body + [Finish, CloseArchive, CloseOutput(layer)];
      assert r[|plan.ops| - 2] == CloseArchive;
    }
  }

  /**
   * When the compressor cannot be built the export carries on over the raw
   * stream: with every blob present and no write failing it succeeds, and the
   * last thing it closes is the caller's stream.
   */
  lemma CompressorFallback(c: Commit, entries: seq<TreeEntry>, charset: seq<byte> -> string, algorithm: Algorithm)
    requires BlobsPresent(entries)
    ensures var plan := TarPlan(c, entries, charset, SelectLayer(Some(algorithm), false));
            && plan.completes && Survives(plan.ops, None)
            && plan.ops[|plan.ops| - 1] == CloseOutput(Raw)
  {
    PlanCompletes(TarFormat(charset), c, entries);
  }

  // ---------------------------------------------------------------------------
  // Proof steps shared by the exporters

  /** The trace went from (log0, b0) to (log, b) by the writes of `ops` that took effect. */
  ghost predicate Wrote(log0: seq<Event>, b0: Option<nat>, log: seq<Event>, b: Option<nat>, ops: seq<Event>)
  {
    log == log0 + Run(ops, b0) && b == Spend(b0, |Run(ops, b0)|)
  }

  /** The writes after `done` run on the budget `done` left. */
  lemma RunAfter(done: seq<Event>, x: seq<Event>, rest: seq<Event>, b0: Option<nat>)
    requires Survives(done, b0)
    ensures Survives(done + x, b0) <==> Survives(x, Spend(b0, |done|))
    ensures !Survives(x, Spend(b0, |done|)) ==>
              && !Survives(done + x + rest, b0)
              && Run(done + x + rest, b0) == done + Run(x, Spend(b0, |done|))
    ensures Spend(Spend(b0, |done|), |Run(x, Spend(b0, |done|))|) == Spend(b0, |done| + |Run(x, Spend(b0, |done|))|)
  {
    if !Survives(x, Spend(b0, |done|)) {
      var j := b0.value - |done|;
      assert (done + x + rest)[..|done| + j] == done + x[..j];
    }
  }

  /** The closing writes run only after the entries ran and were all read. */
  lemma CompletedRun(body: Plan, tail: seq<Event>, b0: Option<nat>)
    ensures var plan := Completed(body, tail);
            && (!(body.completes && Survives(body.ops, b0)) ==>
                  Run(plan.ops, b0) == Run(body.ops, b0) && !(plan.completes && Survives(plan.ops, b0)))
            && (body.completes && Survives(body.ops, b0) ==>
                  var b1 := Spend(b0, |body.ops|);
                  && Run(plan.ops, b0) == body.ops + Run(tail, b1)
                  && (Survives(plan.ops, b0) <==> Survives(tail, b1))
                  && Spend(b1, |Run(tail, b1)|) == Spend(b0, |Run(plan.ops, b0)|))
  {
    var plan := Completed(body, tail);
    if body.completes {
      if Survives(body.ops, b0) {
        RunAfter(body.ops, tail, [], b0);
        assert body.ops + tail + [] == plan.ops;
      } else {
        assert plan.ops[..b0.value] == body.ops[..b0.value];
      }
    }
  }

  /** One step of the walk, seen from the plan of the entries not yet visited. */
  lemma PlanAdvance(f: Format, c: Commit, entries: seq<TreeEntry>, i: nat)
    requires i < |entries|
    ensures EntriesPlan(f, c, entries[i..]) == Then(StepPlan(f, c, entries[i]), EntriesPlan(f, c, entries[i + 1..]))
  {
    assert entries[i..][1..] == entries[i + 1..];
  }

  /** The loop invariant survives one step. */
  lemma LoopStep(whole: Plan, done: seq<Event>, step: Plan, next: Plan, b0: Option<nat>,
                 log1: seq<Event>, b1: Option<nat>, log2: seq<Event>, b2: Option<nat>, start: seq<Event>)
    requires whole.ops == done + Then(step, next).ops && whole.completes == Then(step, next).completes
    requires log1 == start + done && Survives(done, b0) && b1 == Spend(b0, |done|)
    requires Wrote(log1, b1, log2, b2, step.ops)
    ensures step.completes && Survives(step.ops, b1) ==>
              && whole.ops == (done + step.ops) + next.ops && whole.completes == next.completes
              && log2 == start + (done + step.ops) && Survives(done + step.ops, b0)
              && b2 == Spend(b0, |done + step.ops|)
    ensures !(step.completes && Survives(step.ops, b1)) ==>
              Wrote(start, b0, log2, b2, whole.ops) && !(whole.completes && Survives(whole.ops, b0))
  {
    RunAfter(done, step.ops, if step.completes then next.ops else [], b0);
    if step.completes {
      assert done + (step.ops + next.ops) == done + step.ops + next.ops;
    } else {
      assert step.ops == [] ==> whole.ops == done;
    }
  }

  // ---------------------------------------------------------------------------
  // The exporters

  /**
   * One iteration of the zip loop: a directory or submodule link is passed
   * over, a blob whose size cannot be read stops the export, any other entry
   * is written as the header with its fields, the blob, the close of the entry.
   */
  method ZipStep(p: Trace, c: Commit, e: TreeEntry) returns (ok: bool)
    modifies p
    ensures Wrote(old(p.log), old(p.budget), p.log, p.budget, StepPlan(ZipFormat, c, e).ops)
    ensures ok <==> StepPlan(ZipFormat, c, e).completes && Survives(StepPlan(ZipFormat, c, e).ops, old(p.budget))
  {
    if Skipped(e.mode) {
      ok := true;
    } else if e.blob.None? {
      ok := false;
    } else {
      var blob := e.blob.value;
      var header := ZipHeader(ZipEntryMeta(e.path, |blob|, c.name, Bits(e.mode), c.authorTime));
      ok := p.Write(PutEntry(header));
      if ok {
        ok := p.Write(Body(blob));
        if ok {
          ok := p.Write(CloseEntry);
        }
      }
    }
  }

  /**
   * One iteration of the tar loop: a directory or submodule link is passed
   * over, a blob that cannot be opened stops the export, a symbolic link is a
   * link header carrying the blob read as text, then the close; any other file
   * is a header with mode, time and size, the blob, then the close.
   */
  method TarStep(p: Trace, c: Commit, e: TreeEntry, charset: seq<byte> -> string) returns (ok: bool)
    modifies p
    ensures Wrote(old(p.log), old(p.budget), p.log, p.budget, StepPlan(TarFormat(charset), c, e).ops)
    ensures ok <==> StepPlan(TarFormat(charset), c, e).completes
                    && Survives(StepPlan(TarFormat(charset), c, e).ops, old(p.budget))
  {
    if Skipped(e.mode) {
      ok := true;
    } else if e.blob.None? {
      ok := false;
    } else if e.mode == Symlink {
      var blob := e.blob.value;
      var header := TarHeader(TarSymlink(e.path, charset(blob), c.authorTime));
      ok := p.Write(PutEntry(header));
      if ok {
        ok := p.Write(CloseEntry);
      }
    } else {
      var blob := e.blob.value;
      var header := TarHeader(TarFile(e.path, Bits(e.mode), c.authorTime, |blob|));
      ok := p.Write(PutEntry(header));
      if ok {
        ok := p.Write(Body(blob));
        if ok {
          ok := p.Write(CloseEntry);
        }
      }
    }
  }

  /** Opening the walkers, setting the archive comment, and restricting the walk to a non-empty base path. */
  method ZipSetup(p: Trace, basePath: Option<string>)
    modifies p
    ensures p.log == old(p.log) + ZipPrelude(basePath) && p.budget == old(p.budget)
  {
    p.Note(OpenWalks);
    p.Note(SetArchiveComment(ARCHIVE_COMMENT));
    if !IsEmpty(basePath) {
      p.Note(SetPathFilter(basePath.value));
    }
  }

  /**
   * Building the compressor when an algorithm is named (a compressor that
   * cannot be built leaves the output on the raw stream), then opening the
   * walkers, configuring the tar stream for PAX headers on non-ASCII names and
   * POSIX long names, and restricting the walk to a non-empty base path.
   */
  method TarSetup(p: Trace, algorithm: Option<Algorithm>, codecOk: bool, basePath: Option<string>)
    returns (layer: Layer)
    modifies p
    ensures layer == SelectLayer(algorithm, codecOk)
    ensures p.log == old(p.log) + TarPrelude(layer, basePath) && p.budget == old(p.budget)
  {
    layer := Raw;
    if algorithm.Some? {
      if codecOk {
        layer := Compressed(algorithm.value);
        p.Note(OpenCompressor(algorithm.value));
      }
      // otherwise the compressor error is logged and the output stays on the raw stream
    }
    p.Note(OpenWalks);
    p.Note(SetTarOptions(true, true));
    if !IsEmpty(basePath) {
      p.Note(SetPathFilter(basePath.value));
    }
  }

  /**
   * The loop of the zip exporter: walks the entries in order, skips
   * directories and submodule links, and stops at the first missing blob or
   * failing write.
   */
  method ZipEntries(p: Trace, c: Commit, entries: seq<TreeEntry>) returns (ok: bool)
    modifies p
    ensures Wrote(old(p.log), old(p.budget), p.log, p.budget, EntriesPlan(ZipFormat, c, entries).ops)
    ensures ok <==> EntriesPlan(ZipFormat, c, entries).completes
                    && Survives(EntriesPlan(ZipFormat, c, entries).ops, old(p.budget))
  {
    ghost var b0 := p.budget;
    ghost var start := p.log;
    ghost var whole := EntriesPlan(ZipFormat, c, entries);
    ghost var done: seq<Event> := [];
    ok := true;
    var i := 0;
    while i < |entries| && ok
      invariant 0 <= i <= |entries|
      invariant ok ==> && whole.ops == done + EntriesPlan(ZipFormat, c, entries[i..]).ops
                       && whole.completes == EntriesPlan(ZipFormat, c, entries[i..]).completes
                       && p.log == start + done
                       && Survives(done, b0) && p.budget == Spend(b0, |done|)
      invariant !ok ==> Wrote(start, b0, p.log, p.budget, whole.ops) && !(whole.completes && Survives(whole.ops, b0))
    {
      var e := entries[i];
      ghost var step := StepPlan(ZipFormat, c, e);
      ghost var next := EntriesPlan(ZipFormat, c, entries[i + 1..]);
      assert EntriesPlan(ZipFormat, c, entries[i..]) == Then(step, next) by {
        PlanAdvance(ZipFormat, c, entries, i);
      }
      ghost var log1, b1 := p.log, p.budget;
      ok := ZipStep(p, c, e);
      LoopStep(whole, done, step, next, b0, log1, b1, p.log, p.budget, start);
      if ok {
        done := done + step.ops;
      }
      i := i + 1;
    }
    if ok {
      assert entries[|entries|..] == [];
    }
  }

  /**
   * The loop of the tar exporter: walks the entries in order, skips
   * directories and submodule links, and stops at the first missing blob or
   * failing write.
   */
  method TarEntries(p: Trace, c: Commit, entries: seq<TreeEntry>, charset: seq<byte> -> string) returns (ok: bool)
    modifies p
    ensures Wrote(old(p.log), old(p.budget), p.log, p.budget, EntriesPlan(TarFormat(charset), c, entries).ops)
    ensures ok <==> EntriesPlan(TarFormat(charset), c, entries).completes
                    && Survives(EntriesPlan(TarFormat(charset), c, entries).ops, old(p.budget))
  {
    ghost var f := TarFormat(charset);
    ghost var b0 := p.budget;
    ghost var start := p.log;
    ghost var whole := EntriesPlan(f, c, entries);
    ghost var done: seq<Event> := [];
    ok := true;
    var i := 0;
    while i < |entries| && ok
      invariant 0 <= i <= |entries|
      invariant ok ==> && whole.ops == done + EntriesPlan(f, c, entries[i..]).ops
                       && whole.completes == EntriesPlan(f, c, entries[i..]).completes
                       && p.log == start + done
                       && Survives(done, b0) && p.budget == Spend(b0, |done|)
      invariant !ok ==> Wrote(start, b0, p.log, p.budget, whole.ops) && !(whole.completes && Survives(whole.ops, b0))
    {
      var e := entries[i];
      ghost var step := StepPlan(f, c, e);
      ghost var next := EntriesPlan(f, c, entries[i + 1..]);
      assert EntriesPlan(f, c, entries[i..]) == Then(step, next) by {
        PlanAdvance(f, c, entries, i);
      }
      ghost var log1, b1 := p.log, p.budget;
      ok := TarStep(p, c, e, charset);
      LoopStep(whole, done, step, next, b0, log1, b1, p.log, p.budget, start);
      if ok {
        done := done + step.ops;
      }
      i := i + 1;
    }
    if ok {
      assert entries[|entries|..] == [];
    }
  }

  /**
   * Zips the tree of a commit to the output. An unresolved commit returns
   * false before anything is opened; otherwise the walkers are opened and the
   * archive comment set, each file is written as header, body and close, the
   * archive is finished, and the walkers are released whatever happened. The
   * output stream itself is never closed.
   */
  method Zip(p: Trace, commit: Option<Commit>, basePath: Option<string>, entries: seq<TreeEntry>)
    returns (success: bool)
    modifies p
    ensures commit.None? ==> !success && p.log == old(p.log) && p.budget == old(p.budget)
    ensures commit.Some? ==>
              Exported(old(p.log), old(p.budget), p.log, p.budget, success, ZipPrelude(basePath), ZipPlan(commit.value, entries))
  {
    if commit.None? {
      return false;
    }
    var c := commit.value;
    ZipSetup(p, basePath);
    ghost var b0 := p.budget;
    ghost var body := EntriesPlan(ZipFormat, c, entries);
    CompletedRun(body, [Finish], b0);
    var ok := ZipEntries(p, c, entries);
    if ok {
      ok := p.Write(Finish);
    }
    success := ok;
    p.Note(CloseWalks);
  }

  /** Finishing the tar stream, closing it, then closing the stream beneath it. */
  method CloseTar(p: Trace, layer: Layer) returns (ok: bool)
    modifies p
    ensures Wrote(old(p.log), old(p.budget), p.log, p.budget, [Finish, CloseArchive, CloseOutput(layer)])
    ensures ok <==> Survives([Finish, CloseArchive, CloseOutput(layer)], old(p.budget))
  {
    ok := p.Write(Finish);
    if ok {
      ok := p.Write(CloseArchive);
      if ok {
        ok := p.Write(CloseOutput(layer));
      }
    }
  }

  /**
   * Tars the tree of a commit to the output, through a compressor when an
   * algorithm is named. An unresolved commit returns false before anything is
   * opened. A compressor that cannot be built leaves the output on the raw
   * stream. Each symbolic link is written as a link header with no body, each
   * other file as header, body and close; the archive is finished and closed,
   * then the stream beneath it is closed. The walkers are released whatever
   * happened. A failure before the tar stream is closed closes neither
   * stream; a failure at the close of the stream beneath comes after the tar
   * stream was closed.
   */
  method Tar(p: Trace, algorithm: Option<Algorithm>, codecOk: bool, commit: Option<Commit>,
             basePath: Option<string>, entries: seq<TreeEntry>, charset: seq<byte> -> string)
    returns (success: bool)
    modifies p
    ensures commit.None? ==> !success && p.log == old(p.log) && p.budget == old(p.budget)
    ensures commit.Some? ==>
              var layer := SelectLayer(algorithm, codecOk);
              Exported(old(p.log), old(p.budget), p.log, p.budget, success,
                       TarPrelude(layer, basePath), TarPlan(commit.value, entries, charset, layer))
  {
    if commit.None? {
      return false;
    }
    var c := commit.value;
    var layer := TarSetup(p, algorithm, codecOk, basePath);
    ghost var b0 := p.budget;
    ghost var body := EntriesPlan(TarFormat(charset), c, entries);
    CompletedRun(body, [Finish, CloseArchive, CloseOutput(layer)], b0);
    var ok := TarEntries(p, c, entries, charset);
    if ok {
      ok := CloseTar(p, layer);
    }
    success := ok;
    p.Note(CloseWalks);
  }
  /** Plain tar: no algorithm, so the tar stream writes straight into the caller's stream. */
  method TarPlain(p: Trace, commit: Option<Commit>, basePath: Option<string>, entries: seq<TreeEntry>,
                  charset: seq<byte> -> string)
    returns (success: bool)
    modifies p
    ensures commit.None? ==> !success && p.log == old(p.log) && p.budget == old(p.budget)
    ensures commit.Some? ==>
              Exported(old(p.log), old(p.budget), p.log, p.budget, success,
                       TarPrelude(Raw, basePath), TarPlan(commit.value, entries, charset, Raw))
  {
    success := Tar(p, None, true, commit, basePath, entries, charset);
  }

  /** tar.gz: a gzip compressor when it can be built, the raw stream otherwise. */
  method Gz(p: Trace, codecOk: bool, commit: Option<Commit>, basePath: Option<string>, entries: seq<TreeEntry>,
            charset: seq<byte> -> string)
    returns (success: bool)
    modifies p
    ensures commit.None? ==> !success && p.log == old(p.log) && p.budget == old(p.budget)
    ensures commit.Some? ==>
              var layer := if codecOk then Compressed(Algorithm.Gzip) else Raw;
              Exported(old(p.log), old(p.budget), p.log, p.budget, success,
                       TarPrelude(layer, basePath), TarPlan(commit.value, entries, charset, layer))
  {
    success := Tar(p, Some(Algorithm.Gzip), codecOk, commit, basePath, entries, charset);
  }

  /** tar.xz: an xz compressor when it can be built, the raw stream otherwise. */
  method Xz(p: Trace, codecOk: bool, commit: Option<Commit>, basePath: Option<string>, entries: seq<TreeEntry>,
            charset: seq<byte> -> string)
    returns (success: bool)
    modifies p
    ensures commit.None? ==> !success && p.log == old(p.log) && p.budget == old(p.budget)
    ensures commit.Some? ==>
              var layer := if codecOk then Compressed(Algorithm.Xz) else Raw;
              Exported(old(p.log), old(p.budget), p.log, p.budget, success,
                       TarPrelude(layer, basePath), TarPlan(commit.value, entries, charset, layer))
  {
    success := Tar(p, Some(Algorithm.Xz), codecOk, commit, basePath, entries, charset);
  }

  /** tar.bz2: a bzip2 compressor when it can be built, the raw stream otherwise. */
  method Bzip2(p: Trace, codecOk: bool, commit: Option<Commit>, basePath: Option<string>, entries: seq<TreeEntry>,
               charset: seq<byte> -> string)
    returns (success: bool)
    modifies p
    ensures commit.None? ==> !success && p.log == old(p.log) && p.budget == old(p.budget)
    ensures commit.Some? ==>
              var layer := if codecOk then Compressed(Algorithm.Bzip2) else Raw;
              Exported(old(p.log), old(p.budget), p.log, p.budget, success,
                       TarPrelude(layer, basePath), TarPlan(commit.value, entries, charset, layer))
  {
    success := Tar(p, Some(Algorithm.Bzip2), codecOk, commit, basePath, entries, charset);
  }
}
