# Gitblit archive export and URL-parameter unescaping, in Dafny

This project models two pieces of the Gerrit Gitblit plugin.

**Archive export (`CompressionUtils`).** `zip` and the private `tar` turn the
tree of a commit into one archive on a caller's output stream. `tar` takes an
optional compression algorithm. The public `tar`, `gz`, `xz` and `bzip2`
methods pass no algorithm, gzip, xz and bzip2 to it. Both exporters:

- resolve the commit;
- walk the tree recursively, skipping directories and submodule links;
- write one archive entry per remaining file, stamped with the commit's author time;
- finish the archive;
- release the walkers whatever happened.

`tar` also closes the tar stream and the stream beneath it.

The model is imperative, like the source:

- The exporters are methods. Each has a `while` loop over the entries the walk reports.
- They write to a `Pipeline.Trace`. This object logs every effect (opening the walkers, setting options, `putArchiveEntry`, body copy, `closeArchiveEntry`, `finish`, the closes) as an `Archive.Event`.
- The trace also holds an injected failure point: how many further writes succeed. The next write throws.
- A missing blob is an entry whose blob is `None`. Reading it throws.

Each method's contract ties the new trace to a *plan*: a function of the commit and the entries. These lemmas state what the source promises about the plans:

- An extractor (`Archive.ReadZip`, `Archive.ReadTar`) reads back one record per materialized entry, in walk order, with exactly the header fields and body the code sets.
- A plan completes exactly when every blob is present.
- An export succeeds exactly when its last write took effect.

**Entity undo (`FixedUrlXSSFilter.clean`).** After Jsoup has stripped all HTML and re-encoded the text in xhtml mode, line 43 chains five literal `replaceAll` calls. They turn `&lt;`, `&gt;`, `&apos;`, `&quot;` and, last, `&amp;` back into characters. The model is a recursive literal `ReplaceAll`, composed five times as `Unescape`. The lemmas prove:

- the round trip for text whose five critical characters were encoded;
- single-level decoding;
- that other text is left alone;
- that a pass never rescans what it inserted.

Two behaviours of the code are worth knowing:

- **Compressor failure is not fatal.** The code logs the `CompressorException` and writes the tar stream to the raw output (`CompressionUtils.java:219-226`). The model does the same; see `CompressionUtils.CompressorFallback`.
- **Teardown after a failure is partial.** The code's `finally` releases only the walkers; `tos.close()` and `cos.close()` stand in the `try` after `finish` (`CompressionUtils.java:269-271`). So a failure before line 270 closes neither stream, and a failure at `cos.close()` comes after the tar stream was closed. The model does the same; see `CompressionUtils.TarArchiveClosed` and `CompressionUtils.TarSuccessIsClose`.

## Model

| member | source | states |
|---|---|---|
| Archive.Materialized | src/main/java/com/gitblit/utils/CompressionUtils.java:108-112 | an entry is kept exactly when it is in the walk and is neither a tree nor a gitlink, and there are never more kept entries than walked ones |
| Archive.MaterializedOne | src/main/java/com/gitblit/utils/CompressionUtils.java:109-112 | a single walked entry is kept as it is, or dropped when it is a tree or a gitlink |
| Archive.MaterializedAppend | src/main/java/com/gitblit/utils/CompressionUtils.java:108-112 | filtering a walk split anywhere gives the kept entries of the first part followed by those of the second; with the one-entry case this fixes walk order and one copy per kept entry |
| CompressionUtils.Zip | src/main/java/com/gitblit/utils/CompressionUtils.java:87-136 | an unresolved commit gives false and leaves the trace untouched; otherwise the trace is the set-up, then the zip plan's writes that took effect, then release of the walkers; success holds iff every blob was read and no write failed |
| CompressionUtils.ZipSetup | src/main/java/com/gitblit/utils/CompressionUtils.java:93-103 | opens the walkers, sets the archive comment "Generated by Gitblit", and installs a path filter only for a non-blank base path; nothing is written to the output |
| CompressionUtils.ZipStep | src/main/java/com/gitblit/utils/CompressionUtils.java:109-124 | a tree or gitlink writes nothing; a missing blob stops the export before any write; otherwise the header, the blob and the close are written, up to the first failing write |
| CompressionUtils.ZipEntries | src/main/java/com/gitblit/utils/CompressionUtils.java:108-125 | the loop's writes are exactly the prefix of the entries plan that took effect; it reports true iff the plan completes and no write failed |
| CompressionUtils.Tar | src/main/java/com/gitblit/utils/CompressionUtils.java:213-281 | an unresolved commit gives false before any compressor or walker exists; otherwise the trace is the set-up for the chosen layer, then the tar plan's writes that took effect (finish, close of the tar stream, close of the layer beneath), then release of the walkers; success holds iff every blob was read and no write or close failed |
| CompressionUtils.TarSetup | src/main/java/com/gitblit/utils/CompressionUtils.java:219-240 | the compressor is opened only when an algorithm is named and can be built; otherwise the layer is the raw stream; then the walkers are opened, PAX headers and POSIX long names are configured, and a non-blank base path installs a filter |
| CompressionUtils.TarStep | src/main/java/com/gitblit/utils/CompressionUtils.java:244-267 | a tree or gitlink writes nothing; a missing blob stops the export; a symlink writes a link header with the blob read as text, then the close; any other file writes header, blob and close |
| CompressionUtils.TarEntries | src/main/java/com/gitblit/utils/CompressionUtils.java:243-268 | the loop's writes are exactly the prefix of the entries plan that took effect; it reports true iff the plan completes and no write failed |
| CompressionUtils.CloseTar | src/main/java/com/gitblit/utils/CompressionUtils.java:269-271 | finish, close of the tar stream and close of the layer beneath, in that order, up to the first failure |
| CompressionUtils.TarPlain | src/main/java/com/gitblit/utils/CompressionUtils.java:149-151 | the plain tar export writes straight into the caller's stream |
| CompressionUtils.Gz | src/main/java/com/gitblit/utils/CompressionUtils.java:164-166 | the export runs through a gzip layer when one can be built, and the raw stream otherwise |
| CompressionUtils.Xz | src/main/java/com/gitblit/utils/CompressionUtils.java:179-181 | the export runs through an xz layer when one can be built, and the raw stream otherwise |
| CompressionUtils.Bzip2 | src/main/java/com/gitblit/utils/CompressionUtils.java:194-197 | the export runs through a bzip2 layer when one can be built, and the raw stream otherwise |
| CompressionUtils.PlanCompletes | src/main/java/com/gitblit/utils/CompressionUtils.java:108-125 | the walk's writes complete iff every entry that becomes an archive entry has its blob in the store |
| CompressionUtils.ReadBack | src/main/java/com/gitblit/utils/CompressionUtils.java:108-124 | with every blob present, an extractor reads exactly one record per materialized entry, in walk order, each with that entry's header and body |
| CompressionUtils.ZipReadBack | src/main/java/com/gitblit/utils/CompressionUtils.java:107-124 | each zip entry is named by its unmodified walk path and has the blob's size, the commit name as comment, the mode bits as unix mode, the commit's author time, and the blob as body; symlinks are not treated specially |
| CompressionUtils.TarReadBack | src/main/java/com/gitblit/utils/CompressionUtils.java:242-266 | each tar entry has its walk path and the commit's author time; it is a link entry iff the file is a symlink; a link's name is the blob read as text and it has no body; any other entry has the mode bits, the blob's size and the blob as body; the archive ends by closing the chosen layer |
| CompressionUtils.EntryWritesOnly | src/main/java/com/gitblit/utils/CompressionUtils.java:108-125 | the loop only puts entries, copies bodies and closes entries |
| CompressionUtils.ZipNeverCloses | src/main/java/com/gitblit/utils/CompressionUtils.java:126-135 | zip never closes the archive or any output stream, and finishes at most once, as its last write |
| CompressionUtils.ZipSuccessIsFinish | src/main/java/com/gitblit/utils/CompressionUtils.java:126-128 | the finish takes effect iff the plan completes and every write succeeds, which is exactly when zip reports success |
| CompressionUtils.TarSuccessIsClose | src/main/java/com/gitblit/utils/CompressionUtils.java:269-273 | the explicit close of the stream beneath the tar stream takes effect iff the plan completes and every write succeeds; a failed export never reaches it |
| CompressionUtils.TarArchiveClosed | src/main/java/com/gitblit/utils/CompressionUtils.java:269-271 | the tar stream is closed iff every blob was read and every write before that close succeeded; a failure before it closes neither stream, and only the close of the stream beneath can fail after it |
| CompressionUtils.CompressorFallback | src/main/java/com/gitblit/utils/CompressionUtils.java:219-226 | when the compressor cannot be built, an export with all blobs present and no failing write still succeeds, and the stream it closes last is the caller's raw stream |
| FixedUrlXssFilter.ReplaceAll | src/main/java/com/googlesource/gerrit/plugins/gitblit/app/FixedUrlXSSFilter.java:43 | a replacement no longer than its pattern never lengthens the text, and every output character comes from the input or the replacement |
| FixedUrlXssFilter.Unescape | src/main/java/com/googlesource/gerrit/plugins/gitblit/app/FixedUrlXSSFilter.java:43 | the five-step chain never lengthens the text |
| FixedUrlXssFilter.Escape | src/main/java/com/googlesource/gerrit/plugins/gitblit/app/FixedUrlXSSFilter.java:38-39 | xhtml encoding of the five critical characters leaves none of `<`, `>`, `'` or `"` in the text and never shortens it |
| FixedUrlXssFilter.Step | src/main/java/com/googlesource/gerrit/plugins/gitblit/app/FixedUrlXSSFilter.java:43 | each replacement of the chain decodes exactly its own entity in the serialised text, and leaves the other four and every other entity reference alone |
| FixedUrlXssFilter.RoundTrip | src/main/java/com/googlesource/gerrit/plugins/gitblit/app/FixedUrlXSSFilter.java:38-43 | the chain undoes the encoding: decoding encoded text gives back the original, for every string |
| FixedUrlXssFilter.DecodesEachEntity | src/main/java/com/googlesource/gerrit/plugins/gitblit/app/FixedUrlXSSFilter.java:43 | each of `&lt;`, `&gt;`, `&apos;`, `&quot;`, `&amp;` decodes to its character |
| FixedUrlXssFilter.SingleLevel | src/main/java/com/googlesource/gerrit/plugins/gitblit/app/FixedUrlXSSFilter.java:43 | because `&amp;` is replaced last, twice-encoded text comes out encoded once |
| FixedUrlXssFilter.AmpLtDecodedOnce | src/main/java/com/googlesource/gerrit/plugins/gitblit/app/FixedUrlXSSFilter.java:43 | `&amp;lt;` becomes `&lt;`, not `<` |
| FixedUrlXssFilter.NoAmpUnchanged | src/main/java/com/googlesource/gerrit/plugins/gitblit/app/FixedUrlXSSFilter.java:41-43 | text without `&` is returned unchanged |
| FixedUrlXssFilter.OtherEntitiesIntact | src/main/java/com/googlesource/gerrit/plugins/gitblit/app/FixedUrlXSSFilter.java:38-43 | in any text mixing encoded characters with references `&name;` to other entities, the five are decoded and every other reference comes out as it went in |
| FixedUrlXssFilter.NoEntityUnchanged | src/main/java/com/googlesource/gerrit/plugins/gitblit/app/FixedUrlXSSFilter.java:43 | text in which none of the five entities occurs anywhere is returned unchanged |
| FixedUrlXssFilter.NbspBesideLt | src/main/java/com/googlesource/gerrit/plugins/gitblit/app/FixedUrlXSSFilter.java:38-43 | `&nbsp;&lt;` becomes `&nbsp;<` |
| FixedUrlXssFilter.NbspIntact | src/main/java/com/googlesource/gerrit/plugins/gitblit/app/FixedUrlXSSFilter.java:38 | `&nbsp;` passes through the chain intact |
| FixedUrlXssFilter.MatchConsumed | src/main/java/com/googlesource/gerrit/plugins/gitblit/app/FixedUrlXSSFilter.java:43 | a replaced occurrence is consumed: scanning resumes after it and never looks inside the inserted text |
| FixedUrlXssFilter.NoRescan | src/main/java/com/googlesource/gerrit/plugins/gitblit/app/FixedUrlXSSFilter.java:43 | replacing `&amp;` in `&amp;amp;` gives `&amp;`: the inserted `&` is not rescanned |

## Left out

- Commit resolution (`JGitUtils.getCommit`) is not part of this model. The commit is a parameter that is either resolved or absent.
- Tree walking and path filtering (JGit `TreeWalk`, `PathFilter`). The filtered, recursive walk is a given sequence of entries. The model records only that a non-blank base path installs a filter.
- An `IOException` from `tw.reset`/`addTree` or from the walk itself. Only output writes and blob reads can fail in the model.
- The source of `StringUtils.isEmpty` is not in this model. `IsEmpty` takes it to mean null or blank after Java's `trim` (every character at most a space).
- The byte-level zip and tar formats of commons-compress: local and central zip headers, DOS time granularity, ustar and PAX headers, long-name handling. Entries are modelled as the header fields the code sets.
- Whatever commons-compress defaults on a tar link entry (its mode and size). The code sets neither, so the model's link header carries only name, link name and time.
- The gzip, xz and bzip2 codecs. Only whether the compressor can be built is a parameter (`codecOk`).
- The platform default charset of `bos.toString()`. It is the parameter `charset`, a function from bytes to text.
- Streaming: a blob's body is copied as one write, so a failure in the middle of a body is not distinguished from a failure at its start.
- The error logging (`error` and `MessageFormat`, `CompressionUtils.java:63-74`). It has no effect on the result.
- `tos.close()` and `cos.close()` are separate events in the model. Closing a `TarArchiveOutputStream` also closes the stream it wraps, so the explicit `cos.close()` is a second close; the model does not capture that.
- Runtime exceptions other than `IOException`, and `rw.dispose` as distinct from `rw.close`. The release of both walkers is one event.
- FixedUrlXssFilter.OtherEntitiesIntact: covers other `&`-sequences of the form `&name;`, where the name has no `&` or `;`. A bare `&` that is not written as `&amp;` lies outside it; the xhtml serialiser always encodes one.
- Jsoup parsing, cleaning and `html()` serialisation (`FixedUrlXSSFilter.java:36-40`). These are foreign library calls. `Escape` stands for the xhtml encoding of the five critical characters only; any other character the serialiser might encode is outside the round trip.
- Regular-expression semantics of `String.replaceAll`. The five patterns are literal, so the model uses plain substring replacement.
- FixedUrlXssFilter.ReplaceAll: requires a non-empty pattern. Java's behaviour for an empty pattern (a match between every pair of characters) is not modelled, because the chain never uses one.
