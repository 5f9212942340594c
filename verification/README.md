# Verified model of an S3-to-POSIX gateway

The gateway stores S3 objects as files of a POSIX tree. This project models the parts of it
whose state is hardest to reason about and proves what they keep:

- **Multipart uploads** (`Multipart.dfy`, `RangeCopy.dfy`, `Completion.dfy`, `Lifecycle.dfy`): parts are planned under a lock,
  written without it and recorded under it again, each into a shared `direct.bin` or a file of
  its own. Completion fills the holes of `direct.bin`, truncates and renames it, and may give
  up midway into a sequential copy. The protocol is a state machine over the whole upload
  directory; completion is a class that works on the same directory, and the two are put
  together into whole lifecycles with refused completions.
- **Object listing** (`ListKeys.dfy`, `ListTree.dfy`, `ListPage.dfy`, `ListExact.dfy`,
  `ListDelimiter.dfy`, `ListResume.dfy`, `ListMarker.dfy`): a depth-first walk kept as a stack of directory cursors,
  cut anywhere into pages and resumed from the stack itself or from a bare key.
- **Streaming** (`AwsChunked.dfy`, `Streaming.dfy`, `Upload.dfy`, `Align.dfy`, `Posix.dfy`):
  the aws-chunked decoder over any fragmentation, range reads, uploads and copies through a
  ring with aligned direct I/O.
- **Small concurrent protocols** (`SingleFlight.dfy`, `TtlCache.dfy`, `Session.dfy`,
  `RingSlots.dfy`, `BufPool.dfy`): the single-flight TTL cache, the completion signal of an
  I/O session, the slot table of the ring thread and the buffer pool, as interleavings of
  atomic steps.
- **ACL indices** (`AclModel.dfy`, `AclStore.dfy`, `AclYaml.dfy`, `KvPurge.dfy`): inverted
  indices in a key/value store against the full scans of the YAML backend.
- **ETags and appends** (`ETag.dfy`, `Append.dfy`).

Clocks, backend answers, kernel answers and cancellations are inputs, so that an outcome is a
function of what a caller can name; nondeterministic choice (`*`) stands for the order in which
things finish and for what a failing call does before it fails. `dafny verify dfyconfig.toml`
checks everything.

## Where the code does not keep a promise

Each of these is stated as an exact condition, most with a concrete case:

- A V1 marker that ends in "/" (an empty directory in a recursive listing) is listed again:
  `ListMarker.ResumeExactIff`, `ListMarker.ListV1ToEnd`, `ListMarker.PagingByOneNeverEnds`.
- A marker outside the prefix directory restarts the listing: `ListMarker.ForeignMarker`,
  `ListMarker.ForeignMarkerExample`.
  A marker with empty segments can skip or repeat keys: `ListMarker.MarkerExactIffCanonical`,
  `ListMarker.EmptySegmentMarkerSkips`.
- A re-upload that dies damages the recorded part: `Multipart.AbandonHarmlessIff`,
  `Multipart.DyingDirectUpload`, `Multipart.DyingFileUpload`.
- Completing again with a longer list after a 412 publishes zeros for direct parts that the
  first completion cut off, or bytes of a long last part for those it overwrote:
  `Lifecycle.CompleteTwice`, `Lifecycle.TwoPartRetry`, `Lifecycle.LongPartRetry`. Uploading
  those parts again repairs it, unless a long part was put into direct.bin:
  `Lifecycle.RefusalKeepsInv`.
- An upload during which the whole ring is cancelled is acknowledged although the writes are
  dropped: `Upload.PutObject`, `Upload.PutRange`, `Append.AppendLocked`.
- A declared part size can wrap the 64-bit offsets: `Multipart.OffsetsExactIff`,
  `Multipart.HugeDeclaredSizeCollides`.
- Rounding up to the alignment saturates: `Align.AlignUpIsCeilingUntilSaturation`.
- Two ids that differ only in trailing slashes share one stored path, and storing or deleting
  through the other spelling leaves index entries behind: `AclStore.AdminStore.UpsertBucket`,
  `AclStore.AdminStore.DeleteBucket`, `AclStore.TwoSpellingsBreakAgreement`,
  `AclStore.StoreBThenBSlash`.
- Deleting a user without cleanup, or by a key with a trailing slash, drops an index that
  buckets still need: `AclStore.AdminStore.DeleteUser`, `AclStore.SlashBreaksAgreement`,
  `AclStore.SlashKeyBreaksAgreement`.
- Warming a buffer pool beyond its size panics, then or later: `BufPool.Pool.Warm`,
  `BufPool.Pool.PutBackAll`. The gateway warms it once, with its size.
- An unconditional completion removes the object under its key before it renames; if that rename
  fails, the old object is gone and the new one is not there: `Completion.UploadDir.Complete`,
  `Lifecycle.FailedCompletionEmpties`.
- A completion refused for its part list or by its precondition leaves the upload in
  Completing, from which nothing returns: `Completion.UploadDir.Complete`. The comment in the
  handler says its lock prevents new part uploads, but part bytes are written outside that lock;
  the model follows the code and therefore assumes that no part write overlaps a completion.

## Assumptions

- One upload per part number is in flight at a time, none while a completion runs, and
  10 000 times every declared part length is below 2^64.
- The tree does not change during a listing. A continuation token decodes to what was encoded.
- Reads inside a file are full, the chunk size is positive and file sizes are below 2^63.
- The kernel returns each submitted id once. Nothing is submitted to a session after its close.
- A write that a failed copy leaves in flight lands before its completion answers. Reading the
  attributes of the object just published works.
- Nobody stores under the key of a completion between its removal of the old object and the
  rename that follows; before either, others store and delete as they like.
- The kernel has renameat2; without it the gateway looks before it renames, which is not atomic.
- No truncating writer runs beside appends.
- The whole ring is not cancelled while parts are uploaded or appends interleave; for a single
  upload or append that case is part of the contract.
- Calls to the key/value store succeed.

## Model

| member | source | states |
|---|---|---|
| `Lifecycle.CompleteAfterRun` | crates/s32p-gateway/src/multipart.rs:709-2335 | from any upload that keeps the invariant, a new one or one left behind by a refused completion, after any interleaving of part uploads and copies, with nothing in flight and no torn part listed: the answer is exactly the expected one for the list, the headers and the kernel answers, and a published object is the concatenation of the latest recorded payloads of parts 1..n, read off the event history alone |
| `Lifecycle.CompleteNewUpload` | crates/s32p-gateway/src/multipart.rs:709-2335 | the same for a new upload: what is published is the recorded payloads in order, and if the fallback and its commit work it is published |
| `Lifecycle.CompleteQuiet` | crates/s32p-gateway/src/multipart.rs:1604-2335 | one completion of an upload that keeps the invariant with nothing in flight: the answer as a function of list, headers and kernel answers, what is at the destination afterwards, and what a refusal by the rename leaves behind |
| `Lifecycle.RefusalKeepsInv` | crates/s32p-gateway/src/multipart.rs:1676-1900 | a refused completion leaves an upload that keeps the invariant, with the parts it cut off or overwrote torn until uploaded again, if and only if it put no part file longer than the part size into direct.bin |
| `Completion.UploadDir.Complete` | crates/s32p-gateway/src/multipart.rs:1604-2335 | one completion on any upload directory, every outcome tied to the request and the kernel answers: Conflict exactly if the upload is not Active, and then nothing changes; a bad request exactly if the list is not 1..n of recorded parts; a failed precondition is refused; then the commit of direct.bin decides, or the commit of the staging file; the upload is Active again exactly after a rename refused because the destination exists, with the listed parts intact; Completed exactly if published, and what is published is the concatenation of the parts; at the destination the object is stored exactly if published, a 412 names the object it met, a conditional completion never replaces or removes one, and an internal error leaves there exactly what the answers say, which is nothing if an unconditional commit had removed it |
| `Completion.UploadDir.Publish` | crates/s32p-gateway/src/multipart.rs:1685-2320 | fast path, fast path abandoned midway and fallback publish the same bytes and lose no listed part; which one decides, how, and what is left of direct.bin beyond the list follows from the kernel answers |
| `Completion.UploadDir.FastPath` | crates/s32p-gateway/src/multipart.rs:1796-2031 | fills, truncates and commits exactly as far as the answers allow, and says what each stage leaves beyond the listed parts |
| `Completion.UploadDir.TakeOver` | crates/s32p-gateway/src/multipart.rs:2033-2320 | the fallback finds all listed bytes whether writes left behind by a failed copy land before or after it |
| `Completion.CommitFile` | crates/s32p-gateway/src/multipart.rs:1885-1980 | rename, or across devices copy and rename: committed exactly if a rename that the kernel lets through finds the key free or may replace, refused exactly if it may not and finds an object, there or after the copy, and otherwise failed; committed means the file is at the destination and was stored once, with noreplace nothing of others is replaced or removed, and a failure leaves there what it says |
| `Completion.Destination.Rename` | crates/s32p-gateway/src/fs_helpers.rs:69-125 | a rename stores the file unless the devices differ, the kernel fails it, or it must not replace and something is there; only then is the destination unchanged |
| `Completion.UploadDir.FastPathSize` | crates/s32p-gateway/src/multipart.rs:1676-1723 | the fast path is taken exactly when the part size is known, all parts but the last have it, and every direct part is at its fixed offset |
| `Completion.UploadDir.FillHoles` | crates/s32p-gateway/src/multipart.rs:1816-1876 | moving part files into direct.bin succeeds exactly if every one opens, is long enough and copies; stopping anywhere, every listed part keeps its bytes where the metadata says, and nothing beyond the slots reached changes |
| `Completion.UploadDir.FillOne` | crates/s32p-gateway/src/multipart.rs:1818-1876 | one hole: a failed copy only touched the hole, and its writes still in flight stay in it; a finished one re-points the part before its file goes |
| `Completion.UploadDir.PublishDirect` | crates/s32p-gateway/src/multipart.rs:1878-2031 | truncating direct.bin and committing it publishes exactly the assembled object and keeps all listed slots; fails exactly as the answers say |
| `Completion.UploadDir.Assemble` | crates/s32p-gateway/src/multipart.rs:2033-2197 | the fallback copies parts 1..n one after the other into a staging file that is the assembled object, exactly if all their bytes are there and every call works |
| `Completion.UploadDir.Fallback` | crates/s32p-gateway/src/multipart.rs:2033-2320 | the staging file is committed by rename, or by copy and rename across devices unless it is beside the destination |
| `Completion.UploadDir.PlanPart` | crates/s32p-gateway/src/multipart.rs:709-783 | the plan phase: error cases; the part size becomes known exactly for part 1 or a size some recorded part has, and never changes; with it a part of at most that size goes to (n-1) times it modulo 2^64 and a longer one into a file; without it, behind the parts below if they lie back to back, before any byte is written |
| `Completion.UploadDir.SequentialDirectOffset` | crates/s32p-gateway/src/multipart.rs:213-228 | the loop finds the back-to-back offset as the rule defines it |
| `Multipart.SequentialIff` | crates/s32p-gateway/src/multipart.rs:213-228 | the rule gives an offset exactly when each lower part is recorded right behind those before it, and then the sum of their sizes, saturating |
| `Completion.UploadDir.RecordPart` | crates/s32p-gateway/src/multipart.rs:869-1010 | the record phase inserts the part and, while the size is unknown, adopts a size shared by two parts if there is one |
| `Completion.FindSharedSize` | crates/s32p-gateway/src/multipart.rs:200-211 | counting finds a size that two distinct parts share, and finds none only if there is none |
| `RangeCopy.CopyRange` | crates/s32p-gateway/src/multipart.rs:254-310 | succeeds exactly if the source is long enough and no write fails, and then byte for byte; failure changes nothing outside the range; after a short read, what has landed and the writes still in flight amount to everything read before |
| `Completion.LateWriteKeeps` | crates/s32p-gateway/src/multipart.rs:254-310 | a write of a failed hole copy that lands later, even after the part was filled again, leaves every listed part as it was |
| `Completion.ContiguousList` | crates/s32p-support/src/s3xml.rs:1177-1182 | a sorted duplicate-free list from 1 whose last element is its length is 1, 2, ..., n, so the two checks of the handler suffice |
| `Completion.TruncatedIsObject` | crates/s32p-gateway/src/multipart.rs:1879-1884 | with all parts direct in the fixed layout, the truncated direct.bin is the assembled object |
| `Lifecycle.CompleteTwice` | crates/s32p-gateway/src/multipart.rs:1604-2335 | two completions of one upload, the second after a 412 and with headers of its own: it publishes each direct part beyond the first list as the first completion left it, which is the recorded object if and only if every byte of those parts equals the byte left there, of a last part longer than its slot, or zero where direct.bin was truncated |
| `Lifecycle.RetriedIff` | crates/s32p-gateway/src/multipart.rs:1879-1884 | the parts as left assemble to the recorded object if and only if they are left byte for byte |
| `Lifecycle.TwoPartRetry` | crates/s32p-gateway/src/multipart.rs:1879-1900 | concretely: parts [7] and [9], completing [1] refused by the rename and then [1, 2], answers 412 and then publishes [7, 0] |
| `Lifecycle.LongPartRetry` | crates/s32p-gateway/src/multipart.rs:1696-1723 | concretely: part size 1, parts [7], [8, 5] and [9]; completing [1, 2] refused by the rename and then [1, 2, 3] publishes [7, 8, 5, 5] |
| `Lifecycle.CrossDeviceRefused` | crates/s32p-gateway/src/multipart.rs:1902-1973 | concretely: a conditional completion across devices, an object stored under the key during the copy: 412, and that object stays |
| `Lifecycle.FailedCompletionEmpties` | crates/s32p-gateway/src/multipart.rs:2200-2235 | concretely: an unconditional completion over the object [1] that fails at its last rename leaves nothing there |
| `Multipart.NextKeepsInv` | crates/s32p-gateway/src/multipart.rs:709-1011 | every step (plan, one ring write, rename, record, abandon) keeps the layout invariant, and a known part size never changes |
| `Multipart.RunKeepsInv` | crates/s32p-gateway/src/multipart.rs:709-1500 | over whole runs: the assumed part size is written at most once; while unknown every part is a file, once it is s part n is direct only at (n-1)s with size at most s |
| `Multipart.QuiescentPartsHold` | crates/s32p-gateway/src/multipart.rs:709-1011 | once nothing is in flight every recorded, untorn part holds the payload of its latest recorded upload, read off the events, and torn are only parts with an upload that died since their last record |
| `Multipart.PartCanBeUploaded` | crates/s32p-gateway/src/multipart.rs:709-1011 | from every active upload any part not being uploaded can be, with any payload: plan, write, rename and record make it the part, untorn |
| `Multipart.ExtentsNeverOverlap` | crates/s32p-gateway/src/multipart.rs:771-781 | in every reachable state direct extents of distinct parts, each recorded or being written, are disjoint |
| `Multipart.SequentialRuleIsIdle` | crates/s32p-gateway/src/multipart.rs:777-781 | in a reachable state with the size still unknown after promotion, the back-to-back rule never places anything |
| `Multipart.RecomputeIsDeterminate` | crates/s32p-gateway/src/multipart.rs:200-211 | in a reachable state a record can adopt only one value, whatever order the hash map is walked in |
| `Multipart.WriteDirectKeepsInv` | crates/s32p-gateway/src/multipart.rs:800-905 | a write into one slot of direct.bin, at any time, leaves every other part and every other upload in flight alone |
| `Multipart.RecordKeepsInv` | crates/s32p-gateway/src/multipart.rs:869-1010 | recording a complete upload makes it the part; a size adopted here suits all parts already recorded |
| `Multipart.AbandonKeepsInv` | crates/s32p-gateway/src/multipart.rs:790-890 | an upload that dies damages at most the part with its own number, and only if it had begun to overwrite it |
| `Multipart.AbandonHarmlessIff` | crates/s32p-gateway/src/multipart.rs:790-990 | in every state that keeps the invariant, a dying upload leaves the recorded part of its number right if and only if it had not begun to overwrite it, or every overwritten byte was the same, or the renamed file still starts with the recorded payload |
| `Multipart.DyingDirectUpload` | crates/s32p-gateway/src/multipart.rs:800-890 | a run from creation: a re-upload into direct.bin dies after its write and the recorded part is wrong |
| `Multipart.DyingFileUpload` | crates/s32p-gateway/src/multipart.rs:931-990 | a run from creation: a re-upload of a part file dies between its rename and its record and the recorded part is wrong |
| `Multipart.OffsetsExactIff` | crates/s32p-gateway/src/multipart.rs:771-776 | 64-bit offsets are exact for all 10 000 part numbers if and only if 9999 times the part size is below 2^64 |
| `Multipart.HugeDeclaredSizeCollides` | crates/s32p-gateway/src/multipart.rs:771-776 | a declared size of 2^62 puts part 5 on part 1 |
| `ListPage.ListToEnd` | crates/s32p-gateway/src/main.rs:2403-2747 | for every prefix, a client following continuation tokens with any page sizes of at least 1 gets the unpaged listing exactly once, in order, every page but the last full, and the chain ends |
| `ListPage.ListPage` | crates/s32p-gateway/src/main.rs:2475-2747 | one page: nothing for a prefix under the multipart directory or one whose directory is missing; otherwise the results the token owes, an empty token meaning the start, split into the page and what the next token owes; a token into the reserved directory is the only one refused; a next token comes exactly with a full page |
| `ListTree.VisibleDirectory` | crates/s32p-gateway/src/main.rs:2475-2496 | a prefix that gets past the reserved-name test starts in a directory that is not reserved |
| `ListTree.EarlyAnswers` | crates/s32p-gateway/src/main.rs:2475-2520 | the two early empty answers agree with the listing: it is empty for a missing directory, and elsewhere the traversal from a directory that is not reserved |
| `ListPage.Step` | crates/s32p-gateway/src/main.rs:2616-2727 | one loop iteration emits at most one result, loses none, and brings the end nearer |
| `ListPage.FirstIndexAfter` | crates/s32p-gateway/src/main.rs:2348-2360 | the scan returns the first entry past the cursor |
| `ListPage.CursorSurvives` | crates/s32p-gateway/src/main.rs:2348-2392 | reloading a directory from the remembered sort key lands on the entry after it |
| `ListPage.EnsureLoaded` | crates/s32p-gateway/src/main.rs:2362-2392 | a cursor that loads lazily is positioned where its token says |
| `ListTree.SortSorts` | crates/s32p-gateway/src/main.rs:2301-2346 | sorting directories as "name/" keeps the items and orders them strictly |
| `ListKeys.LtIff` | crates/s32p-gateway/src/main.rs:2301-2346 | the order sorted by is byte order: one key is a proper prefix of the other, or the first bytes that differ decide |
| `ListTree.LoadChild` | crates/s32p-gateway/src/main.rs:2362-2392 | the frame pushed for a subdirectory loads that subdirectory |
| `ListExact.ListingIncreasing` | crates/s32p-gateway/src/main.rs:2301-2346 | the listing, in both modes, is strictly increasing in byte order |
| `ListExact.ListingExact` | crates/s32p-gateway/src/main.rs:2475-2727 | for every prefix: empty if its first segment is the multipart directory, otherwise the recursive listing holds exactly the file keys and leaf-empty directory markers strictly below the prefix directory that match the prefix, minus the multipart directory |
| `ListDelimiter.DelimiterExact` | crates/s32p-gateway/src/main.rs:2616-2727 | with the delimiter the listing holds exactly the matching subdirectories of the prefix directory as common prefixes and the matching files directly in it as objects, in a given tree; nothing for a hidden prefix |
| `ListDelimiter.DelimiterRollsUp` | crates/s32p-gateway/src/main.rs:2616-2727 | the common prefixes are exactly what keys of the recursive listing with a slash behind the prefix directory have up to it, and the objects are exactly the keys without one |
| `ListExact.ListingIsBucketKeys` | crates/s32p-gateway/src/main.rs:2215-2227 | when the prefix directory has no empty segments and the prefix is not hidden these are exactly the bucket keys that start with the prefix, other than the directory itself and the keys under the multipart directory |
| `ListExact.LeafFilterHarmless` | crates/s32p-gateway/src/main.rs:2380-2385 | the leaf filter on the root frame alone drops no matching key |
| `ListExact.HiddenIffUnderMpu` | crates/s32p-gateway/src/main.rs:2643-2646 | skipping the multipart directory at the root removes exactly the keys under its name |
| `ListKeys.SplitPrefixSpells` | crates/s32p-gateway/src/main.rs:2215-2227 | directory and leaf spell the prefix except for a prefix that is "/" and one name |
| `ListKeys.ReservedIffFirstSegment` | crates/s32p-gateway/src/main.rs:360-374 | the reserved-name test holds exactly for keys whose first segment is the multipart directory |
| `ListKeys.DescendNotReserved` | crates/s32p-gateway/src/main.rs:2643-2646 | descending anywhere but into the multipart directory at the root never makes a token that would be refused |
| `ListResume.BuildStackFromLast` | crates/s32p-gateway/src/main.rs:2231-2284 | the vector grown segment by segment is the chain of cursors past each segment |
| `ListResume.RecursiveResume` | crates/s32p-gateway/src/main.rs:2231-2284 | recursive mode, any key under the prefix directory: the rebuilt stack owes exactly the listed keys after that key with empty segments and final slash removed |
| `ListResume.RootResume` | crates/s32p-gateway/src/main.rs:2231-2284 | the same for a path given by its segments, through the leaf-filtered root frame and every deeper frame |
| `ListResume.DeepResume` | crates/s32p-gateway/src/main.rs:2253-2284 | below the root a chain of cursors owes exactly the keys after the path it was built from, whether or not the path exists |
| `ListResume.FilteredOutIsSilent` | crates/s32p-gateway/src/main.rs:2380-2385 | a subdirectory the leaf filter drops has no key to contribute, so resuming inside it is right too |
| `ListMarker.KeyMarkerIsExact` | crates/s32p-gateway/src/main.rs:2231-2284 | a marker without empty segments: exactly the keys greater than it, or than it without its final slash |
| `ListMarker.ForeignMarker` | crates/s32p-gateway/src/main.rs:2235-2237 | a marker outside the prefix directory restarts the listing, which is right if and only if it sorts before the directory or nothing is listed |
| `ListMarker.ForeignMarkerExample` | crates/s32p-gateway/src/main.rs:2235-2237 | listing "b/" after the marker "c" lists "b/a", which sorts before it |
| `ListMarker.ResumeAfterListedKey` | crates/s32p-gateway/src/main.rs:2892-3033 | recursive mode: every listed key is accepted as marker; the rest follows, or, after an empty directory, a suffix that starts at or before that key |
| `ListMarker.ResumeAfterListedEntry` | crates/s32p-gateway/src/main.rs:2244-2251 | delimiter mode: resuming from any listed key or common prefix yields exactly the later results |
| `ListMarker.ResumeExactIff` | crates/s32p-gateway/src/main.rs:2231-2284 | the rest of the listing follows a listed key if and only if it is not a key ending in "/" of a recursive listing |
| `ListMarker.ListPageV1` | crates/s32p-gateway/src/main.rs:2853-3037 | one V1 page from a marker, after the same two early empty answers; a next marker, the last emitted key, comes exactly with a full page |
| `ListMarker.ListV1ToEnd` | crates/s32p-gateway/src/main.rs:2801-3037 | V1 paging, allowed more pages than there are results, gives the listing exactly once and ends if and only if no page of a recursive listing ends with an empty directory |
| `ListMarker.EmptyDirectoryMarkerRepeats` | crates/s32p-gateway/src/main.rs:2258-2264 | a bucket with one empty directory: its own marker owes the whole listing again |
| `ListMarker.PagingByOneNeverEnds` | crates/s32p-gateway/src/main.rs:2892-3037 | paging by one through that bucket: any number of pages, each listing the directory and giving a next marker |
| `ListMarker.PageFromMarker` | crates/s32p-gateway/src/main.rs:2892-3037 | a page from the key of an empty directory starts with a result already given; from any other marker of a chain it holds the next results |
| `ListMarker.MarkerExactIffCanonical` | crates/s32p-gateway/src/main.rs:2231-2284 | resuming after a key of the whole bucket is exact in every bucket if and only if the key has no empty segment and no final slash |
| `ListMarker.SomeBucketShows` | crates/s32p-gateway/src/main.rs:2231-2284 | for any other key, a bucket with one file where the resumed listing is wrong |
| `ListMarker.EmptySegmentMarkerSkips` | crates/s32p-gateway/src/main.rs:2255-2284 | the marker "a//b" resumes after "a/b" and so skips "a/a", which sorts after the marker |
| `AwsChunked.ReadPieces` | crates/s32p-gateway/src/streaming.rs:503-723 | any fragmentation of any well-formed body, pieces of any sizes: consecutive slices of the concatenated chunk data until more is asked than is left, and then an error |
| `AwsChunked.Decoder.ReadExactPayload` | crates/s32p-gateway/src/streaming.rs:692-723 | on any body: the buffer is filled if and only if enough payload is left, with the next bytes; otherwise the error says whether the body ended properly |
| `AwsChunked.Decoder.NextPayloadRaw` | crates/s32p-gateway/src/streaming.rs:639-690 | each piece is the next non-empty part of what the unread bytes denote; end and error are reported exactly when there is none |
| `AwsChunked.Decoder.ReadLine` | crates/s32p-gateway/src/streaming.rs:554-580 | a line is found whole wherever fragments are cut, and missing only if no newline is left |
| `AwsChunked.Decoder.ConsumeExact` | crates/s32p-gateway/src/streaming.rs:606-628 | succeeds exactly when the unread bytes start with the wanted ones, however they are cut |
| `AwsChunked.Decoder.ReadTrailersUntilBlank` | crates/s32p-gateway/src/streaming.rs:630-637 | succeeds exactly when a blank line comes |
| `AwsChunked.Decoder.Refill` | crates/s32p-gateway/src/streaming.rs:543-552 | skips empty fragments and loses no byte; fails only when nothing is left before a stream error |
| `AwsChunked.Decoder.constructor` | crates/s32p-gateway/src/streaming.rs:531-541 | a new decoder owes what the whole body denotes |
| `AwsChunked.WellFormedBodyDecodes` | crates/s32p-gateway/src/streaming.rs:639-690 | a body of chunks whose sizes are spelt by positional hex numerals, in either case, with any extension, line ending and data, a last chunk, trailers and then anything denotes the concatenated data and ends cleanly |
| `AwsChunked.CleanIff` | crates/s32p-gateway/src/streaming.rs:639-690 | the converse too: bytes decode cleanly to a payload if and only if they are a well-formed body with that data followed by anything |
| `AwsChunked.ParsesIff` | crates/s32p-gateway/src/streaming.rs:582-604 | text parses to a size if and only if it is, after an optional plus, a non-empty hex numeral of that value and the value is below 2^64 |
| `AwsChunked.HeaderParses` | crates/s32p-gateway/src/streaming.rs:582-604 | a header line parses to the size it spells, whatever its extension |
| `AwsChunked.HexRoundTrip` | crates/s32p-gateway/src/streaming.rs:582-604 | every size below 2^64 has a numeral in hex digits that spells it and parses back, so every payload has well-formed bodies |
| `Streaming.EmitRange` | crates/s32p-gateway/src/streaming.rs:139-254 | the frames of a range concatenate to exactly file[start..end), in buffered and direct mode, unless the client hangs up after some number of frames, and then they are exactly that many and a proper prefix; reads are aligned, fit one buffer and are at most the configured number at a time; the buffered tail is shorter than a block and ends the range |
| `Streaming.StreamSegment` | crates/s32p-gateway/src/streaming.rs:285-437 | a window of reads forwards the wanted bytes of a segment in order, all of them unless the client hangs up after some number of frames with wanted bytes left |
| `Streaming.Pump` | crates/s32p-gateway/src/streaming.rs:404-433 | awaiting the oldest read and submitting the next keeps the window contiguous |
| `Streaming.RingSegment` | crates/s32p-gateway/src/streaming.rs:162-212 | the aligned segment and the tail leave no gap, and the tail is shorter than a block |
| `Upload.WriteObjectBody` | crates/s32p-gateway/src/streaming.rs:774-967 | succeeds exactly if the body is long enough and the session sees no error; then the whole blocks up to a cancellation of the ring are in place, all of the payload without one; a new file is padded with zeros to its length and holds nothing else, an existing file changed only in the range; the aligned-length error cannot happen |
| `Upload.PutObject` | crates/s32p-gateway/src/streaming.rs:774-967 | an acknowledged new object is the payload if and only if every byte dropped after the cancellation of the ring was zero; with a ring cancelled before the first block it is all zeros |
| `Upload.PutRange` | crates/s32p-gateway/src/streaming.rs:774-967 | an acknowledged write into an existing file put the payload there if and only if what a cancelled ring dropped was there before |
| `Upload.QueueBody` | crates/s32p-gateway/src/streaming.rs:889-951 | every write is aligned and fits one buffer in direct mode, the writes cover the image once, and the image starts with the payload up to the cancellation |
| `Upload.CompleteWrites` | crates/s32p-gateway/src/streaming.rs:920-961 | ring writes finishing in any order, short or failing, stay in the range; if all land the file is the old one with every write applied, which is the image if they cover it |
| `Upload.CopyFileToFile` | crates/s32p-gateway/src/streaming.rs:969-1198 | succeeds exactly if the source is long enough and no call fails; then the destination is exactly the first size bytes of the source, padding removed |
| `Upload.CopyPlanNeverPads` | crates/s32p-gateway/src/streaming.rs:1080-1095 | the aligned prefix of a copy never needs padding; only the tail block does |
| `Posix.AnyOrderIsOneWrite` | crates/s32p-gateway/src/streaming.rs:920-961 | slices that cover an image, written in any order with overlaps, are one write of the image |
| `Align.AlignDownIsFloor` | crates/s32p-gateway/src/fs_helpers.rs:17-21 | the greatest multiple not above the argument |
| `Align.AlignUpIsCeilingUntilSaturation` | crates/s32p-gateway/src/fs_helpers.rs:23-27 | the least multiple not below the argument if and only if that multiple fits in 64 bits |
| `Align.PaddedBlockFitsChunk` | crates/s32p-gateway/src/fs_helpers.rs:23-27 | padding a block of at most one aligned chunk stays within the chunk |
| `SingleFlight.SingleFlightSafety` | crates/s32p-directory/src/cache.rs:103-250 | in every interleaving, with cancellation anywhere: lookups that hold a reference for a key hold the same lock, and at most one backend call per key is running |
| `SingleFlight.CallsNeedExpiryOrEviction` | crates/s32p-directory/src/cache.rs:117-140 | in every run a call starts only if the last answer stored for its key, by the events alone, is as old as the lifetime of a found or a missing document, or was evicted |
| `SingleFlight.CacheContents` | crates/s32p-directory/src/cache.rs:138-164 | in every run, by the events alone: a hit is the last answer stored for that key, stored less than the lifetime of a found or a missing document ago, and conversely such an answer is a hit unless it was evicted; every reply returned is a backend answer for that key, and the cap holds |
| `SingleFlight.RoomForAll` | crates/s32p-directory/src/cache.rs:268-305 | with no more keys than the cap nothing is evicted: a key is fresh if and only if its last stored answer is younger than its lifetime |
| `SingleFlight.LookupCanReturn` | crates/s32p-directory/src/cache.rs:103-250 | from every reachable state, whatever was cancelled before, every lookup not itself cancelled can return by steps of its own and of the one holding its lock, without clock tick, new lookup or cancellation |
| `SingleFlight.CancelLetsGo` | crates/s32p-directory/src/cache.rs:117-170 | a lookup cancelled while it waits leaves no lock held and no reference behind |
| `SingleFlight.NoSlotLeft` | crates/s32p-directory/src/cache.rs:243-261 | without cancellation, when every lookup has returned no flight slot is left |
| `SingleFlight.NextKeepsInv` | crates/s32p-directory/src/cache.rs:103-261 | every atomic step keeps the invariant |
| `SingleFlight.InsertKeepsFetch` | crates/s32p-directory/src/cache.rs:138-153 | an insert makes nothing fresh under the key of another running fetch |
| `SingleFlight.ReleaseKeepsInv` | crates/s32p-directory/src/cache.rs:254-261 | dropping a slot nobody references keeps every holder on the lock in the map |
| `TtlCache.TtlMap.InsertWithCap` | crates/s32p-directory/src/cache.rs:268-305 | the new map is the old one after pruning and, if still full, without a soonest-expiring entry, plus the new entry; other entries stay as they were, and an unexpired one goes only from a full map and only if none expires sooner |
| `TtlCache.TtlMap.ReadFresh` | crates/s32p-directory/src/cache.rs:263-266 | a hit exactly for an unexpired entry |
| `TtlCache.InsertWithinCap` | crates/s32p-directory/src/cache.rs:268-305 | for a cap of at least 1 an insert keeps the map within it |
| `TtlCache.EvictsOnlyWhenFull` | crates/s32p-directory/src/cache.rs:275-302 | a fresh entry is lost only if the fresh entries alone fill the map, and then it is the soonest to expire |
| `TtlCache.SoonestKey` | crates/s32p-directory/src/cache.rs:283-285 | the minimum over the entries, in whatever order they come |
| `Session.DoneSignal` | crates/s32p-gateway/src/uring_io.rs:45-95 | in every interleaving, by the events alone: the done signal is sent at most once, only after a close and with every submitted operation completed, as an error exactly if some operation failed; once quiescent it has been sent exactly if the session was closed |
| `Session.SignalAlwaysReachable` | crates/s32p-gateway/src/uring_io.rs:45-95 | no wake-up is lost: from every reachable state, after a close, letting the operations in flight complete, each well or badly, and everybody step leads to the signal, which reports exactly whether some operation failed |
| `Session.VerdictIsFinal` | crates/s32p-gateway/src/uring_io.rs:69-95 | after the signal no step changes it or the question whether an operation failed |
| `Session.NextKeepsInv` | crates/s32p-gateway/src/uring_io.rs:45-95 | every atomic operation keeps the invariant |
| `Session.NextKeepsProgress` | crates/s32p-gateway/src/uring_io.rs:49-95 | whoever may have made the session finished will still look |
| `RingSlots.Ring.IoThread` | crates/s32p-gateway/src/uring_io.rs:492-598 | any rounds with any senders, kernel and failures, all of them inputs: operations are submitted in the order sent, and the slot invariant holds; the thread stops because no sender is left, everything sent having been completed, or because of a cancellation or failure, everything sent having been completed or failed, each once; a cancelled round stops it, and with no sender left, nothing failing and a kernel that returns what it has it stops by itself within one round per operation and two |
| `RingSlots.Ring.OneRound` | crates/s32p-gateway/src/uring_io.rs:499-598 | one round: stops as cancelled exactly if cancelled or after a failure, with everything sent settled; otherwise keeps the invariant, and a round with nothing failing, no sender left and a prompt kernel closes or leaves less to do |
| `RingSlots.Ring.Complete` | crates/s32p-gateway/src/uring_io.rs:384-398 | a completion finds its slot occupied, frees it and completes its operation |
| `RingSlots.Ring.ReapAll` | crates/s32p-gateway/src/uring_io.rs:376-468 | reaping completes exactly the operations of the ids returned, in that order, and keeps the slot invariant |
| `RingSlots.Ring.SubmitItem` | crates/s32p-gateway/src/uring_io.rs:326-374 | an operation goes into the first free slot, or, if the queue push fails, back to the front of the backlog with the slots as before |
| `RingSlots.Ring.Fill` | crates/s32p-gateway/src/uring_io.rs:526-562 | submits the next operations of backlog and channel in order, as many as fit, or as many as the queue takes; never finds the free list empty below the depth; notices that no sender is left exactly if it runs out |
| `RingSlots.Ring.FailEverything` | crates/s32p-gateway/src/uring_io.rs:506-524 | after a fatal error the backlog, the slots in order and then the channel are failed, exactly these |
| `RingSlots.Ring.constructor` | crates/s32p-gateway/src/uring_io.rs:492-498 | all ids free, nothing in flight |
| `BufPool.Pool.Interleave` | crates/s32p-gateway/src/buffer.rs:33-101 | any sequence of steps of any tasks: the pool is what the steps make of it one by one; if it warms no more than the capacity in all, nothing panics; no pop finds the queue empty, permits never exceed queued buffers, and every buffer is queued or held, never both |
| `BufPool.RoundTrip` | crates/s32p-gateway/src/buffer.rs:42-65 | taking a buffer and giving it back moves it to the end of the queue and changes nothing else |
| `BufPool.AllComeBack` | crates/s32p-gateway/src/buffer.rs:33-101 | from every sound pool not warmed beyond its size, steps of those who hold something bring every permit back |
| `BufPool.Pool.Pop` | crates/s32p-gateway/src/buffer.rs:42-47 | a task with a permit always finds a buffer |
| `BufPool.Pool.PutBack` | crates/s32p-gateway/src/buffer.rs:60-65 | a returned buffer finds room exactly if the queue is not full, always if no more than the capacity was warmed |
| `BufPool.Pool.WarmPush` | crates/s32p-gateway/src/buffer.rs:33-38 | a warmed buffer is new; the push panics exactly if the queue is full |
| `BufPool.Pool.Warm` | crates/s32p-gateway/src/buffer.rs:33-40 | warming succeeds exactly if the buffers fit, and then adds that many new ones and one permit for each |
| `BufPool.Pool.PutBackAll` | crates/s32p-gateway/src/buffer.rs:60-65 | giving every held buffer back panics if and only if more was warmed than the capacity |
| `BufPool.Pool.TakePermit` | crates/s32p-gateway/src/buffer.rs:42-44 | a permit is had exactly if one is free |
| `BufPool.Pool.ReleasePermit` | crates/s32p-gateway/src/buffer.rs:94-101 | the permit comes back after the buffer |
| `AclYaml.RunBoth` | crates/s32p-admin/src/openbao.rs:183-525 | any sequence of operations, imports included, each applied to both backends on its own: if every operation spells ids as stored, the indices agree with the documents after each, and each directory and each answer is what the operations mean to its backend; with no mandatory field empty both directories and all answers are the same |
| `AclYaml.ApplyToStore` | crates/s32p-admin/src/openbao.rs:236-525 | one operation on the key/value backend: accepted exactly when it is valid; the directory becomes what it means, an import refused midway leaving what it stored, and the indices agree |
| `AclYaml.ApplyToYaml` | crates/s32p-ctl/src/main.rs:706-890 | one operation on the YAML file: accepted exactly when the edited file passes the file check; the directory becomes what the operation means |
| `AclYaml.AcceptanceDiffers` | crates/s32p-admin/src/openbao.rs:236-345 | for every directory and operation the key/value backend accepts it if and only if the YAML backend does and no mandatory field is empty |
| `AclStore.AdminStore.DeleteUser` | crates/s32p-admin/src/openbao.rs:257-284 | the user goes and, with cleanup, its grants in whatever documents its index leads to; from agreeing indices and with a key without trailing slash that is the full scan, and in general agreeing indices agree afterwards if and only if that holds or no bucket granted the trimmed key |
| `AclStore.AdminStore.Scrub` | crates/s32p-admin/src/openbao.rs:263-279 | every document the user's index leads to loses its grant to the user; from agreeing indices none is left |
| `AclStore.AdminStore.UpsertBucket` | crates/s32p-admin/src/openbao.rs:326-391 | validation errors change nothing; the document takes the place of whatever its id leads to; agreeing indices agree afterwards if and only if no document with another spelling of the id was there, or it granted nothing |
| `AclStore.AdminStore.DeleteBucket` | crates/s32p-admin/src/openbao.rs:393-406 | the document the id leads to goes; agreeing indices agree afterwards if and only if it was not stored under another spelling, or granted nothing |
| `AclStore.AdminStore.SetBucketAcl` | crates/s32p-admin/src/openbao.rs:429-442 | sets the list of the stored document under its own id however the caller spells it, and keeps agreement |
| `AclStore.AdminStore.UpsertUser` | crates/s32p-admin/src/openbao.rs:236-255 | invalid users are refused; valid ones are stored |
| `AclStore.AdminStore.Import` | crates/s32p-admin/src/openbao.rs:506-525 | a file that does not validate changes nothing; otherwise, after an optional purge, users and then buckets are stored up to the first with an empty mandatory field, exactly those; without two spellings of one id this is the fold of the upserts and the indices agree whether it succeeds or not |
| `AclStore.AdminStore.IndexAddBucket` | crates/s32p-admin/src/openbao.rs:183-192 | adds exactly one bucket to exactly one index document |
| `AclStore.AdminStore.IndexRemoveBucket` | crates/s32p-admin/src/openbao.rs:194-202 | removes exactly one bucket from exactly one index document |
| `AclStore.AdminStore.Reindex` | crates/s32p-admin/src/openbao.rs:346-387 | after the difference of the principal keys is applied, exactly the new principals index the bucket |
| `AclStore.SortDedupAscends` | crates/s32p-admin/src/openbao.rs:186-189 | whatever was stored before, the rewritten index list is strictly ascending |
| `AclStore.ScrubbingTheGrantingIsEnough` | crates/s32p-admin/src/openbao.rs:263-279 | scrubbing only the buckets that grant the user is scrubbing them all |
| `AclStore.SlashKeyBreaksAgreement` | crates/s32p-admin/src/openbao.rs:257-284 | concretely: a bucket granting "a", then deleting user "a/", leaves an index that has forgotten a standing grant |
| `AclStore.SlashBreaksAgreement` | crates/s32p-admin/src/openbao.rs:257-284 | the same for every bucket and key: deleting by a key with a trailing slash whose stored name the bucket grants always breaks the agreement |
| `AclStore.TwoSpellingsBreakAgreement` | crates/s32p-admin/src/openbao.rs:326-391 | storing a bucket with a grant and then one under another spelling of its id leaves an index entry without a document |
| `AclStore.StoreBThenBSlash` | crates/s32p-admin/src/openbao.rs:326-391 | concretely: "b" and then "b/" |
| `AclModel.NormalizeAcl` | crates/s32p-directory/src/directory/layout.rs:176-193 | one entry per principal listed, at the highest level it is listed with, sorted by key, with the same grants |
| `AclModel.NamesInCharacters` | crates/s32p-directory/src/directory/layout.rs:9-26 | the name rules, stated on bytes, are the regular expressions: `[A-Za-z0-9_]` and then `[A-Za-z0-9_.-]`, and the bucket name rule |
| `AclModel.LevelIsHighest` | crates/s32p-directory/src/directory/layout.rs:176-193 | the level of a principal is one it is listed with, and none it is listed with is higher |
| `AclModel.PrincipalKeyRoundTrip` | crates/s32p-directory/src/directory/layout.rs:167-172 | splitting a principal key at its first colon gives the principal back, whatever its name |
| `AclModel.SamePathIffSameSegment` | crates/s32p-directory/src/directory/layout.rs:123-129 | two identifiers share a stored document exactly when they differ only in trailing slashes |
| `AclStore.ClashIsLookup` | crates/s32p-directory/src/directory/layout.rs:123-129 | an id clashes with the spelling of a stored one exactly when looking it up finds a document with another id |
| `AclStore.DropSlotAgrees` | crates/s32p-admin/src/openbao.rs:281-283 | dropping an index document is right if and only if no bucket grants its principal |
| `AclYaml.YamlDoc.UserDelete` | crates/s32p-ctl/src/main.rs:553-565 | removes the user and, if asked to, by a full scan every grant to it |
| `AclYaml.YamlDoc.UserUpsert` | crates/s32p-ctl/src/main.rs:547-551 | replaces or adds the user; not saved exactly if the access key is no identifier |
| `AclYaml.YamlDoc.BucketUpsert` | crates/s32p-ctl/src/main.rs:567-572 | replaces or adds the bucket with its list normalised; not saved exactly if name or list is invalid |
| `AclYaml.YamlDoc.BucketDelete` | crates/s32p-ctl/src/main.rs:574-576 | removes the bucket |
| `AclYaml.YamlDoc.BucketSetAcl` | crates/s32p-ctl/src/main.rs:593-605 | sets the list of a bucket; refused exactly if there is none or the list is invalid |
| `AclYaml.YamlDoc.Import` | crates/s32p-ctl/src/main.rs:869-890 | a file that does not validate is refused; otherwise it becomes the directory or is merged into it, which is storing its documents in order |
| `AclYaml.SortBySorts` | crates/s32p-ctl/src/main.rs:547-572 | the sort after an upsert orders by key and keeps exactly the documents |
| `KvPurge.Kv.PurgeTree` | crates/s32p-admin/src/openbao.rs:475-504 | deletes exactly the paths below the root, whatever order listings come in, and ends |
| `ETag.OneChangeShows` | crates/s32p-gateway/src/main.rs:4701-4714 | stat results that differ in exactly one of inode, time and size have different tags, unless it is the time and both times have the same 64-bit word; never for times within 292 years of the epoch |
| `ETag.TagsEqualIff` | crates/s32p-gateway/src/main.rs:4701-4714 | two tags are equal if and only if the inodes are and time xor mix(size) is |
| `ETag.OneTimeHidesASize` | crates/s32p-gateway/src/main.rs:4701-4714 | for every change of size there is exactly one time that hides it |
| `ETag.MixIsBijection` | crates/s32p-gateway/src/main.rs:4704-4708 | the mix has a two-sided inverse on 64-bit words |
| `ETag.Hex16Injective` | crates/s32p-gateway/src/main.rs:4713-4713 | sixteen hex digits determine the word |
| `ETag.HexReads` | crates/s32p-gateway/src/main.rs:4713-4713 | sixteen digits read back in base 16 as the word |
| `ETag.TagReads` | crates/s32p-gateway/src/main.rs:4713-4713 | a tag is sixteen digits that read as the inode, sixteen that read as mix(time xor mix(size)), and "-1" |
| `ETag.MixValues` | crates/s32p-gateway/src/main.rs:4704-4708 | the mix of 0, 1 and 2 |
| `ETag.MtimeWordIsModulo` | crates/s32p-gateway/src/main.rs:4709-4712 | on both sides of the epoch the time word is the signed nanoseconds modulo 2^64 |
| `ETag.NearTimesDiffer` | crates/s32p-gateway/src/main.rs:4709-4712 | times less than 2^63 nanoseconds from the epoch have different words |
| `Append.AcknowledgedAppendsStay` | crates/s32p-gateway/src/main.rs:3638-3782 | in every interleaving, failed writes included: acknowledged payloads stay at their offsets, the original stays, and two appends at one offset never both succeed |
| `Append.AppendsLinearize` | crates/s32p-gateway/src/main.rs:3638-3782 | in runs without a failed write the object is the original followed by the payloads of the successful appends, read off the events in the order they succeeded, whenever nobody is writing |
| `Append.OutcomesExplained` | crates/s32p-gateway/src/main.rs:3660-3782 | in every run every outcome has its reason: a refused offset differed from the size of the file at the check, a refused precondition had failed at it, an empty body was empty, and whoever wrote had passed all three; the request is the one the append came with |
| `Append.AppendCanFinish` | crates/s32p-gateway/src/main.rs:3638-3782 | from every reachable state every append can still get to its end: the lock is never lost |
| `Append.AppendLocked` | crates/s32p-gateway/src/main.rs:3660-3782 | under the lock: each refusal exactly on its condition and without a change; otherwise success exactly if the body is long enough and the session sees no error; success found the file ending at the offset and leaves it followed by the payload, if and only if the ring was not cancelled in time to drop some of it; a failed write keeps everything below the offset |
| `Append.NextKeepsInv` | crates/s32p-gateway/src/main.rs:3638-3782 | every step keeps the invariant |

## Left out

- HTTP handling, request signatures, TLS, configuration, logging and process launch: input and output around the modelled core.
- Network clients of the key/value store and the name service, and Lustre striping: foreign calls; the store is a map and striping does nothing.
- Idempotency tokens, connection limits, sessions of the proxy, conditional-header rules, ListBuckets and ListParts paging: easy beside the rest, or not true without further conditions.
- The plain (not aws-chunked) body reader: its reads are those of the decoder without chunk framing.
- The per-stream permit of a pooled buffer: a second semaphore that bounds one stream and touches no pool state.
- The order of two lookups waiting for one flight lock: any order is allowed.
- Whitespace trimming of user and bucket fields, and Unicode: identifiers are byte strings already trimmed.
- A key/value call failing in the middle of an administrative operation: the indices may then disagree.
- Lifecycle.CompleteAfterRun: takes an upload with nothing in flight, as the protocol needs; a part write racing with a completion is not covered. Part lengths times 10 000 stay below 2^64, which Multipart.OffsetsExactIff shows to be needed up to one part.
- Lifecycle.CompleteNewUpload: as Lifecycle.CompleteAfterRun.
- Multipart.NextKeepsInv: for declared part lengths whose 10 000-fold is below 2^64; Multipart.HugeDeclaredSizeCollides shows what happens otherwise.
- Multipart.RunKeepsInv: as Multipart.NextKeepsInv.
- Multipart.QuiescentPartsHold: as Multipart.NextKeepsInv.
- Multipart.ExtentsNeverOverlap: as Multipart.NextKeepsInv.
- Completion.UploadDir.Complete: the equality of bytes is for objects below 2^64 bytes, where the running offset does not saturate.
- Lifecycle.CompleteTwice: if the first completion fails while it copies its last part into direct.bin, and that part is longer than its slot, the bytes left in the slots after it are whatever landed, and nothing is said about them.
- ListPage.ListPage: takes tokens whose directories are empty or end in a slash, as those of all issued tokens do; a token made up by a client may differ.
- ListExact.ListingIsBucketKeys: for prefix directories without empty segments; ListExact.ListingExact says what is listed for the others.
- ListDelimiter.DelimiterRollsUp: for every prefix except one slash and one name, which loses its slash (ListKeys.SplitPrefixSpells); ListDelimiter.DelimiterExact says what is listed for those.
- SingleFlight.LookupCanReturn: says that a lookup can return, not that a fair scheduler makes it; so do Session.SignalAlwaysReachable, Append.AppendCanFinish, BufPool.AllComeBack and Multipart.PartCanBeUploaded.
- AclStore.AdminStore.Import: the fold and the agreement are for imports without two spellings of one id; AclStore.AdminStore.UpsertBucket says what happens otherwise. Purging before an import is KvPurge.Kv.PurgeTree on paths and emptying the maps here.
- AclStore.AdminStore.DeleteUser: no index lists an empty bucket id, which no operation stores.
- AclYaml.RunBoth: for operations that spell ids as stored and take no needed index away, and for replacing imports that list no key twice; the methods of AclStore.AdminStore say what each of these is for.
- AclYaml.ApplyToStore: as AclYaml.RunBoth.
- AclYaml.ApplyToYaml: for replacing imports that list no key twice.
- AclYaml.YamlDoc.Import: a file that replaces the directory lists no key twice; the file check does not look for that.
- KvPurge.Kv.PurgeTree: path segments are not empty.
- ETag.TagsEqualIff: takes inode, time and size as 64-bit words; ETag.OneChangeShows is about stat results.
- Append.AppendsLinearize: partial writes of a running append are any change inside its own range.
