# gosh-dl, modelled and verified

gosh-dl is a download engine: segmented and single-connection HTTP downloads
that survive breaks, pauses and crashes; BitTorrent metadata, magnet links and
encrypted peer connections; recursive discovery over HTTP; and the queue, rate
limiter and mirror list that all of them share. This project models its
stateful cores in Dafny and proves what they are for.

| file | what it models |
|---|---|
| `Segments.dfy` | splitting a file, recording and reloading progress, the readable prefix |
| `Resume.dfy` | validators, Content-Range, the check of a ranged answer |
| `SegmentTasks.dfy` | the concurrent segment tasks over one partial file |
| `SegmentOutcomes.dfy` | what every answer, step, run and event of them comes to |
| `SegmentSessions.dfy`, `SegmentCompletion.dfy` | sessions killed and restarted; that they can complete; exactly when a restored snapshot goes wrong |
| `SegmentVersions.dfy` | segmented downloads of a file that changes; validators and segments stored apart |
| `StreamSession.dfy`, `StreamSafety.dfy`, `StreamTheorems.dfy` | the single-connection download of a file that changes, as a state machine; what it keeps; exactly when it goes wrong |
| `SingleStream.dfy` | the download loop, disk and server, which run that machine |
| `PriorityQueue.dfy`, `QueueProtocol.dfy`, `QueueSteps.dfy` | the download queue: its data, its interleavings, and that its methods are steps of them |
| `QueueTheorems.dfy`, `QueueOrder.dfy` | its guarantees, and who is served first |
| `Bencode.dfy`, `BencodeLaws.dfy`, `InfoDict.dfy` | the bencode parser and printer, and the walk that finds the info dictionary |
| `KeyOrder.dfy`, `Numbers.dfy`, `PrintsBack.dfy` | the order of dictionary keys; exactly which texts are numbers and strings, and which are printed as they were read |
| `Metadata.dfy`, `Metainfo.dfy` | metadata exchange (BEP 9) and torrent layout |
| `MagnetCodec.dfy`, `Magnet.dfy` | percent and base-32 coding, magnet links |
| `Glob.dfy`, `Paths.dfy`, `SafePaths.dfy`, `Crawl.dfy` | patterns, URL and file paths, and the bounded crawl |
| `Limiter.dfy`, `Mirror.dfy` | the token bucket and mirror failover |
| `Rc4.dfy`, `DiffieHellman.dfy`, `Mse.dfy` | the encrypted handshake and stream |
| `Prelude.dfy`, `Text.dfy`, `Utf8.dfy` | bytes, options, decimal numbers, splitting and joining, UTF-8 |

Code that changes state in place is a class or a method with loops, proved
against a specification function; what the code is for is proved about that
function. Protocols are state machines over small steps, with the network, the
disk, the clock and the scheduler free to do anything the stated assumptions
allow. `dafny verify dfyconfig.toml` checks everything.

## Findings

Nine properties that one would expect hold only under a condition. The exact
condition is proved, with a run that shows what happens without it.

- **Restored segments.** A session restores saved segments whenever *some*
  partial file exists (`src/http/mod.rs:966-988`). The rename of a finished
  file and the fallback to a single stream both remove the partial file and
  leave stored segments behind for a while. Restoring is safe exactly when every
  claimed byte is in the file as it is opened
  (`SegmentCompletion.RestoreIsSafeExactly`): always for a snapshot of the
  present partial file (`SegmentCompletion.CurrentSnapshotIsSafe`), and over one
  just created only if all claimed bytes are zero
  (`SegmentCompletion.StaleSnapshotExactly`).
- **Validators and segments stored apart.** The two are saved one after the other
  (`src/engine.rs:565-577`). A kill between them pairs the validators of a new
  version with segments of an old one, which then pass the comparison; the next
  session can go wrong exactly if the segments claim a byte that is by then not
  in the partial file (`SegmentVersions.StoredApartExactly`). It can come to that
  exactly if the versions differ in a claimed byte, other than the first of a
  download of one segment (`SegmentVersions.CanMisleadExactly`).
- **Validators published early.** The single-connection download publishes the
  probed validators before it truncates a stale partial file
  (`src/http/mod.rs:331-341`). If it ends in between, the next attempt of the same
  download, on another mirror, compares them with themselves: two attempts can
  mix versions exactly when they could with nothing stored
  (`StreamTheorems.TwoAttemptsExactly`), unless the first has continued or
  truncated the file (`StreamTheorems.RetryIsSafeExactly`).
- **No entity tag stored.** With none saved there is nothing to compare
  (`src/http/resume.rs:38-52`). A session that was killed before its first
  progress report, or whose HEAD request failed (`src/http/mod.rs:325-341`),
  leaves none, and its partial file is resumed whatever the server has become.
  A session that starts with matching validators is safe for every future
  exactly when an entity tag is among them
  (`StreamTheorems.StoredTagExactly`, `StreamTheorems.CoveredSessionsAreSafe`,
  `StreamTheorems.UnansweredExactly`).
- **Short ranges.** A resumed answer is accepted whatever its end
  (`src/http/resume.rs:252-266` is skipped), so a server that sends only part
  of the range, as section 15.3.7 of RFC 9110 allows, is taken to have
  completed the file. The file is whole exactly when the range reached the end
  (`StreamSafety.SubsetExactly`, `StreamTheorems.PlacedExactly`); a fresh
  download of three bytes or more can be cut short once a retry is allowed
  (`StreamTheorems.SubsetsAreSafeExactly`).
- **Whole partial files.** A session that resumes a partial file which is already
  whole (killed before the rename, say) asks for a range beyond the end. Status
  416 ends it at `src/http/mod.rs:453-458`, before the check that would have
  started over (`src/http/resume.rs:270-282`), and so does every later session:
  it can finish exactly when it meets a version that it does not resume or that
  is longer (`StreamTheorems.FullPartExactly`).
- **Statuses 408 and 429.** They count as retryable (`src/error.rs:189-198`), but a
  segment task that meets one gives up at once and stops its siblings
  (`SegmentTasks.RetryableIsRetried`).
- **Padded numbers.** Printing a parsed bencode value does not give back every
  input: `i+5e` and `04:spam` are accepted and printed differently
  (`PrintsBack.NotPlain`). It does exactly when no number in it has a plus sign
  and no length a superfluous zero (`PrintsBack.PrintedExactly`).
- **Patterns.** The glob loop (`src/http/crawl.rs:286-318`) is wrong about some
  pattern for every candidate that contains a literal star (`Glob.GlobExact`).

The code and its comments disagree in one place modelled here: the search for
the encrypted verification constant looks at offsets up to 513, not 512
(`Mse.Scan`). The code is followed.

## Model

| member | source | states |
|---|---|---|
| `Bencode.ParseAtDepth` | src/torrent/bencode.rs:94-118 | The dispatching parser, run in place over the remaining bytes, computes the specified parse: depth limit first, then the marker byte, with every malformed input an error. |
| `Bencode.ParseList` | src/torrent/bencode.rs:228-256 | The list loop collects exactly the values up to the closing marker and returns the rest. |
| `Bencode.ParseDict` | src/torrent/bencode.rs:259-314 | The dictionary loop collects exactly the entries up to the closing marker, refusing a key that is not strictly above the one before. |
| `Bencode.Buffer.EncodeTo` | src/torrent/bencode.rs:324-355 | Printing appends exactly the encoding of the value to what the buffer held. |
| `BencodeLaws.BytesRoundTrip` | src/torrent/bencode.rs:180-225 | A printed string reads back, with any bytes after it left over, exactly when it is no longer than the cap. |
| `BencodeLaws.RoundTrip` | src/torrent/bencode.rs:94-355 | For every value and every tail: parsing the encoding followed by the tail gives back the value and the tail exactly when nesting, string lengths and key order are within the limits, and is refused otherwise. |
| `BencodeLaws.ParsedFits` | src/torrent/bencode.rs:94-314 | Whatever is accepted has integers in range, strings within the cap, keys strictly ascending and at most 64 levels. |
| `BencodeLaws.ParseEncodeParse` | src/torrent/bencode.rs:94-355 | Printing a parsed value and parsing again gives the same value, whatever follows. |
| `BencodeLaws.Suffix` | src/torrent/bencode.rs:94-314 | A successful parse leaves a strict suffix of its input, so nested parsing always halts. |
| `BencodeLaws.Local` | src/torrent/bencode.rs:94-314 | A parse depends only on the bytes it consumes, and what is accepted at some depth is accepted the same way at any smaller one. |
| `BencodeLaws.ConsumedIsExact` | src/torrent/bencode.rs:121-130 | The bytes consumed for a value are, on their own, an exact encoding of it. |
| `KeyOrder.LessExactly` | src/torrent/bencode.rs:284-292 | One key is below another exactly when they agree up to some byte and there the first ends or has the smaller byte. |
| `KeyOrder.LessIsOrder` | src/torrent/bencode.rs:284-292 | That order is strict, transitive and total, so a key is refused exactly when it repeats or precedes an earlier one. |
| `KeyOrder.ParsedIsCanonical` | src/torrent/bencode.rs:259-314 | In whatever is accepted, at every depth, each key of a dictionary comes before every later one. |
| `KeyOrder.NextKeyDecides` | src/torrent/bencode.rs:284-292 | A dictionary that goes on with a key not after the one before is refused, whatever follows; one that goes on with a later key is read on as if it began there. |
| `Numbers.UnsignedExactly` | src/torrent/bencode.rs:180-212 | A length is read from digits, with or without one plus sign before them and zeros in front, if its type can hold it; from nothing else. |
| `Numbers.IntegerExactly` | src/torrent/bencode.rs:133-177 | An integer is accepted exactly if its text is what is printed for a 64-bit number, or a plus sign and digits: superfluous zeros and minus zero are refused. |
| `Numbers.StringExactly` | src/torrent/bencode.rs:180-225 | A string is accepted exactly if what precedes its colon is a length within the cap and so many bytes follow. |
| `PrintsBack.PrintedExactly` | src/torrent/bencode.rs:94-355 | Printing a parsed value gives back the bytes it was parsed from exactly when no number in them has a plus sign and no length a superfluous zero; otherwise it gives fewer bytes. |
| `PrintsBack.NotPlain` | src/torrent/bencode.rs:133-225 | Two inputs that are accepted and printed differently. |
| `InfoDict.LayoutOf` | src/torrent/bencode.rs:469-510 | An accepted dictionary has a division of its bytes into keys and values, ending at the last byte. |
| `InfoDict.AtEntry` | src/torrent/bencode.rs:481-506 | After validation no step of the walk can fail: key and value of the next entry parse, although the walk parses at a smaller depth than the validation did. |
| `InfoDict.FindInfoDictBytes` | src/torrent/bencode.rs:469-510 | It succeeds exactly when the root has a dictionary under the top-level `info` key, and returns the span the parser consumed for that entry, never a look-alike inside another value; the span alone is an exact encoding of that dictionary. |
| `Metadata.ParseDelivers` | src/torrent/metadata.rs:100-173 | What a receiver makes of any message that was sent: numbers beyond 63 bits are lost or refused, and payload survives only on data messages and only if not empty. |
| `Metadata.MessageRoundTrip` | src/torrent/metadata.rs:100-173 | A message reads back as itself exactly when its numbers fit and it has payload only, and then some, on a data message. |
| `Metadata.MetadataFetcher.ProcessMessage` | src/torrent/metadata.rs:250-366 | Handling one message in place changes size, pieces, pending requests and metadata as specified, and gives the specified answer. |
| `Metadata.MetadataFetcher.AssembleMetadata` | src/torrent/metadata.rs:370-413 | Assembly stores the metadata only on the expected hash, and otherwise forgets pieces and size. |
| `Metadata.FullCountAssembles` | src/torrent/metadata.rs:370-390 | When the count of pieces is full, no piece is missing and the assembly is exactly the agreed size, so the final trim removes nothing. |
| `Metadata.ProcessKeepsInv` | src/torrent/metadata.rs:250-413 | Any message from any peer keeps: indices and lengths of stored pieces fit the agreed size, stored metadata has the expected hash; stored metadata never changes, and completion is reported exactly when it first appears. |
| `Metadata.CompletedOnce` | src/torrent/metadata.rs:250-413 | Over any run of messages from a fresh fetcher, completion is reported once if the metadata has been stored and never otherwise. |
| `Metadata.MetadataIsFinal` | src/torrent/metadata.rs:250-262 | Once stored, the metadata survives every later message. |
| `Metadata.HonestPeersComplete` | src/torrent/metadata.rs:250-413 | The pieces of the true metadata, in any order, with repeats and with requests and rejects between them, complete a fresh fetcher exactly when every piece has come, and with exactly that metadata. |
| `SafePaths.CheckRelativePath` | src/fsutil.rs:37-52 | The loop over components accepts exactly the paths that are not absolute, do not go through a parent and name something, and says which of the three fails. |
| `SafePaths.PathIsRelative` | src/torrent/metainfo.rs:365-375 | Components pushed one by one make an accepted path exactly when none is absolute, none goes through a parent, and one names something, although an absolute component replaces what came before. |
| `SafePaths.RelativeStaysInside` | src/fsutil.rs:33-52 | An accepted path, followed from any directory, never leaves it and ends strictly below it. |
| `Metainfo.ParsePath` | src/torrent/metainfo.rs:358-375 | The components of a path are accepted exactly when all are text and the joined path is relative, and give that path. |
| `Metainfo.ParseFiles` | src/torrent/metainfo.rs:325-397 | The file list is accepted exactly when every entry has a length and a proper path and the sum of lengths fits 64 bits; the files then carry those paths and lengths and follow each other from offset 0 without gaps. |
| `Metainfo.ParseLayout` | src/torrent/metainfo.rs:265-303 | Single-file and multi-file modes accept exactly the dictionaries that declare a size, with files that tile it: the one file of that name, or those of the list. |
| `Metainfo.ParseInfo` | src/torrent/metainfo.rs:166-322 | The info dictionary is accepted exactly when name, piece length, hashes and declared size are proper, within their caps, and the number of hashes is the declared size divided by the piece length, rounded up; hash k is bytes 20k to 20k + 20 of what stands under `pieces`; name, flag and files are those it writes, and every path stays inside. |
| `Metainfo.PiecesBoundTotal` | src/torrent/metainfo.rs:204-256 | For every accepted torrent the total size is at most pieces times piece length, which is below 2^51. |
| `Metainfo.PieceRangeExact` | src/torrent/metainfo.rs:474-483 | No 64-bit sum or product in the piece range wraps, and the range is the exact one. |
| `Metainfo.FilesForPiece` | src/torrent/metainfo.rs:535-563 | The loop over files computes the specified spans of a piece. |
| `Metainfo.PieceIsTiled` | src/torrent/metainfo.rs:535-563 | The spans of a piece lie within their files, are in file order without gaps, and add up to the length of the piece. |
| `Metainfo.CoversMeans` | src/torrent/metainfo.rs:474-563 | A span covers a byte of a file only in the piece that byte of the torrent falls in. |
| `Metainfo.EveryByteCoveredOnce` | src/torrent/metainfo.rs:474-563 | Over all pieces of an accepted torrent, every byte of every file is covered exactly once. |
| `MagnetCodec.UrlEncodeLoop` | src/torrent/magnet.rs:340-356 | The encoding loop escapes exactly the bytes that are not unreserved. |
| `MagnetCodec.UrlDecodeLoop` | src/torrent/magnet.rs:298-337 | The decoding loop computes the specified decoding, in which a percent sign stands for a byte only if two hex digits follow. |
| `MagnetCodec.UrlRoundTrip` | src/torrent/magnet.rs:298-356 | Decoding an encoded string gives it back, for every UTF-8 string. |
| `MagnetCodec.UnescapeFront` | src/torrent/magnet.rs:298-337 | In front of any escaped text a plus stands for a space, a percent sign without a hex digit for itself, and any other character for itself. |
| `MagnetCodec.UnescapeDigits` | src/torrent/magnet.rs:298-337 | A percent sign and two hex digits of either case stand for the byte they write. |
| `Utf8.EncodedIsValid` | src/torrent/magnet.rs:331-337 | The encoding of any sequence of Unicode scalar values (section 3 of RFC 3629) passes the test for UTF-8. |
| `Utf8.ValidIsEncoded` | src/torrent/magnet.rs:331-337 | Whatever passes the test is the encoding of some sequence of scalar values: no surrogates, no overlong forms, nothing beyond U+10FFFF. |
| `MagnetCodec.FeedAppends` | src/torrent/magnet.rs:262-294 | Feeding one base-32 digit multiplies the number held in output and bit buffer by 32 and adds the digit; no bit is lost. |
| `MagnetCodec.Base32Decode` | src/torrent/magnet.rs:262-294 | Decoding succeeds exactly on 32 base-32 characters and gives 20 bytes whose big-endian value is the base-32 value (section 6 of RFC 4648). |
| `MagnetCodec.Base32DecodeLoop` | src/torrent/magnet.rs:262-294 | The loop over a bit buffer computes that decoding. |
| `Magnet.HexRoundTrip` | src/torrent/magnet.rs:158-163 | A hash printed in hex reads back. |
| `Magnet.BtihRoundTrip` | src/torrent/magnet.rs:227-259 | The printed topic of any 20-byte hash parses to that hash. |
| `Magnet.TopicExactly` | src/torrent/magnet.rs:227-259 | A topic is accepted exactly with 40 characters of which every pair gives a byte, or 32 characters of base 32, and names that 20-byte hash. |
| `Magnet.AssignExactly` | src/torrent/magnet.rs:82-140 | Each key sets its own field and no other, a topic that names no hash sets none, and lists take no empty value. |
| `Magnet.ParseUri` | src/torrent/magnet.rs:47-155 | The loop over parameters computes the specified parse. |
| `Magnet.PrintUri` | src/torrent/magnet.rs:181-211 | The printer, appending parameter by parameter, computes the specified text. |
| `Magnet.ParseToUri` | src/torrent/magnet.rs:47-211 | Parsing a printed magnet gives back hash, name, trackers, web seeds, length and source, less the empty tracker and web-seed strings. |
| `Magnet.RoundTripExact` | src/torrent/magnet.rs:47-211 | That round trip loses nothing printed exactly when no tracker and no web seed is the empty string. |
| `Glob.PatternMatches` | src/http/crawl.rs:286-318 | The backtracking loop halts on every input (by a lexicographic measure) and, for candidates without a literal star, decides the recursive meaning of `*` and `?`. |
| `Glob.LoopIsPossible` | src/http/crawl.rs:290-311 | Every state of the loop accepts exactly when some way of stretching the last star can still match. |
| `Glob.GlobExact` | src/http/crawl.rs:286-318 | The loop is right about a candidate, for all patterns, exactly when the candidate contains no literal star. |
| `Paths.NormalizePath` | src/http/crawl.rs:75-104 | The component stack computes the specified normal form or error. |
| `Paths.RejectsExactlyEscapes` | src/http/crawl.rs:80-90 | A path is refused exactly when some prefix of it climbs above its root; otherwise the number of components left is the net depth. |
| `Paths.NormalizeIsIdempotent` | src/http/crawl.rs:75-104 | A normalised path consists of real names only, and normalising it again changes nothing. |
| `Paths.ScopeIsContainment` | src/http/crawl.rs:211-218 | The textual scope test on normalised paths means that the prefix's components are the first components of the path. |
| `Crawl.Process` | src/http/crawl.rs:527-645 | Handling one response, link by link, computes the specified change to queue, seen pages and manifest. |
| `Crawl.DirectoryExactly` | src/http/crawl.rs:579-605 | A directory link becomes a page exactly when it is not too deep, not known and below the page cap; at the cap the crawl is marked truncated, and adds no page from then on. |
| `Crawl.VisitEffect` | src/http/crawl.rs:527-645 | What one page can add to pages and manifest; that none of its files, and no directory link below the limits, is missed unless the crawl ends with it; and why it can fail. |
| `Crawl.FinishOne` | src/http/crawl.rs:502-645 | Completing any fetch in flight keeps the crawl's invariant, whatever the order of completion. |
| `Crawl.DrainedIsExact` | src/http/crawl.rs:502-654 | With queue and flights empty, the manifest is exactly what the enqueued pages contribute, all of them could be processed, and a page they lead to is missing only below the depth limit or once the page cap is reached. |
| `Crawl.ClosedIsCorrect` | src/http/crawl.rs:502-654 | If the enqueued pages lead to no further page, that manifest is exactly the selected in-scope files reachable from the root, and nothing reachable is inconsistent. |
| `Crawl.CorrectExactly` | src/http/crawl.rs:502-654 | A crawl that dropped links is correct all the same exactly when the site is consistent and the pages it missed hold no further file. |
| `Crawl.AbortIsRight` | src/http/crawl.rs:341-368 | The crawl fails only for a real reason: the root is dead, a redirect leaves the scope, a file has no path, or two URLs claim one path. |
| `Crawl.CorrectIsUnique` | src/http/crawl.rs:502-654 | There is one correct outcome, so all orders of completion that drop no new link give the same one. |
| `Crawl.FillSlots` | src/http/crawl.rs:513-540 | Filling fetch slots keeps at most the allowed number in flight and leaves a slot free only when the queue is empty. |
| `Crawl.Discover` | src/http/crawl.rs:475-654 | For any link graph and completion order the crawl halts, enqueues each page URL at most once and at most 1024 of them, keeps at most 10000 files, all reachable, and fails only when the site is inconsistent. It ends early only with 10000 files; drained, it has everything of every enqueued page, drops a new directory link only below the depth limit or at the page cap, and, without overwriting, has the one correct outcome when it dropped none. |
| `Segments.ShareSize` | src/http/segment.rs:1010-1027 | The chosen number of segments never leaves one empty, nor below the minimum size when the file is that large. |
| `Segments.CountIsLargest` | src/http/segment.rs:1010-1027 | The number of segments is the largest that the connections and the minimum size allow, and one if they allow none. |
| `Segments.SegmentedDownload.InitSegments` | src/http/segment.rs:155-175 | The segments partition the file, are as many as computed, start empty and pending, all but the last have the even share, and each has at least the minimum size when the file is that large. |
| `Segments.SegmentedDownload.RestoreSegments` | src/http/segment.rs:178-188 | Restoring sets segments, per-segment progress and the total to what was saved. |
| `Segments.SegmentedDownload.SegmentsWithProgress` | src/http/segment.rs:198-216 | The snapshot loop computes the specified snapshot. |
| `Segments.ReloadKeeps` | src/storage/sqlite.rs:526-549 | Taking a snapshot and loading it later loses no boundary and no byte of progress, and skips exactly the full segments. |
| `Segments.SegmentedDownload.ContiguousAvailable` | src/http/segment.rs:839-854 | For segments that split the file, listed in any order, and any progress it returns the length of the longest fully downloaded prefix. |
| `Segments.CachedPrefix` | src/engine.rs:3698-3722 | For arbitrary cached segments every byte offered has been downloaded, and for segments that split the file, in any order, the offer is the longest downloaded prefix. |
| `Segments.LongestPrefixIsUnique` | src/http/segment.rs:839-854 | There is one such length, so the two computations agree. |
| `Segments.SplitsSorted` | src/http/segment.rs:839-843 | Segments split the file in some order exactly when sorting them by start puts them in that order. |
| `Segments.SortIsStable` | src/http/segment.rs:839-843 | Sorting by start keeps the order of segments that start at the same place, as the library's stable sort does. |
| `Resume.MatchExactly` | src/http/resume.rs:38-52 | Saved validators match exactly when each one that was saved, entity tag and date alike, is present and the same. |
| `Resume.ContentRangeRoundTrip` | src/http/resume.rs:295-316 | A printed Content-Range reads back exactly when its bounds fit 64 bits; a total that does not fit reads as unknown (section 14.4 of RFC 9110). |
| `Resume.AcceptsExactlyTheSpan` | src/http/resume.rs:188-282 | A ranged answer is accepted exactly when it is 206 with a Content-Range naming the requested start (and end, if given); every rejection asks for a restart without ranges and is not retried. |
| `Resume.RejectedBecause` | src/http/resume.rs:188-282 | Which reason a rejection gives: changed validators only when the whole file was sent and both sides have one, and otherwise what is wrong with the range. |
| `Resume.ErrorsExactly` | src/error.rs:189-198 | Which errors another attempt may cure and which need a restart without ranges; none is both. |
| `Resume.ServerHeaderAccepted` | src/http/resume.rs:188-269 | A server's own header is accepted exactly when it is for the span asked for. |
| `SegmentTasks.AcceptedBody` | src/http/segment.rs:489-547 | An accepted answer continues exactly where its task stands: its body is the next bytes of the remote file. |
| `SegmentTasks.BytesWritten` | src/http/segment.rs:588-612 | Writing the next bytes of an accepted body spoils no right byte, wherever other tasks are writing. |
| `SegmentTasks.StepKeeps` | src/http/segment.rs:314-743 | Every step of every task, in any interleaving with breaks, retries, pauses and cancellations, keeps: each byte that published progress claims is in the file and equals the remote byte. |
| `SegmentTasks.NeverOverruns` | src/http/segment.rs:613-648 | With an honest server neither the per-segment nor the total overrun check ever fires. |
| `SegmentTasks.RetriesAreBounded` | src/http/segment.rs:359-474 | A task asks again only after a failure, from where it stands, with its attempt count raised by one and within the limit. |
| `SegmentTasks.RetryableIsRetried` | src/http/segment.rs:390-487 | An answer that ends a task gives its error; a retryable error does so only when the attempts are spent and never stops the siblings, except that statuses 408 and 429 are given up on at once. |
| `SegmentTasks.GivesUpLast` | src/http/segment.rs:314-743 | No step of a task but a failed write ends it with a retryable error before its attempts are spent, those two statuses apart. |
| `SegmentTasks.BreakIsRetried` | src/http/segment.rs:566-577 | A stream that breaks on a retryable error is asked for again from the byte it had come to while attempts are left, and nothing else changes. |
| `SegmentOutcomes.AnswerExactly` | src/http/segment.rs:390-547 | The body of an answer is used exactly when the answer is a partial response for the rest of the segment, of a file of the right size; any other is asked for again, with one more attempt, exactly while its kind and source allow it, and stops the siblings exactly when it is given up on and final. |
| `SegmentOutcomes.GivenUpWith` | src/http/segment.rs:390-547 | With which error an answer is given up on. |
| `SegmentOutcomes.StoppingExactly` | src/http/segment.rs:314-743 | The siblings are stopped exactly by a final answer given up on and by a stream that breaks on an error that cannot be retried. |
| `SegmentOutcomes.ChunkCounts` | src/http/segment.rs:588-648 | Writing, publishing and counting a chunk puts its bytes where the task stands and adds its length to progress and counter; nothing else changes. |
| `SegmentOutcomes.JoinExactly` | src/http/segment.rs:745-830 | A failed segment that needs a restart decides for one, else one with a retryable error for a retryable failure; without failures the count alone decides, and only a pause or cancellation excuses a short one. |
| `SegmentTasks.JoinIsRight` | src/http/segment.rs:745-830 | At the join the global counter is the sum of the segments' progress; the run ends well exactly when no task failed and every segment is full, and then the file is the remote file. |
| `SegmentSessions.SnapshotIsSound` | src/http/segment.rs:198-216 | A snapshot stored at any moment splits the file and claims only bytes that are in it. |
| `SegmentSessions.EventKeeps` | src/http/mod.rs:966-988 | Launching, working, storing, killing, joining and losing the partial file keep the invariant of all sessions. |
| `SegmentOutcomes.FilesAfter` | src/http/mod.rs:966-1066 | Only a complete run puts a file in place, only a complete run or an uncancelled fallback gives up the partial file, and kills and stored snapshots touch neither. |
| `SegmentOutcomes.SnapshotsAfter` | src/http/mod.rs:966-1066 | Stored snapshots are never lost, and none counts as current once its partial file is gone. |
| `SegmentSessions.SessionsAreSafe` | src/http/mod.rs:966-1066 | Over any number of sessions, kills and restarts, from whatever partial file was there, as long as each restored snapshot is true of the file it is restored over: a file put in place is the remote file, and stored snapshots split it and claim only right bytes. |
| `SegmentSessions.CarefulSessionsAreSafe` | src/http/mod.rs:966-988 | The same when each restored snapshot was taken of the partial file present, which could be checked before the restart. |
| `SegmentCompletion.OneSegment` | src/http/segment.rs:314-743 | A segment whose stream breaks, wherever it does, no more often than retries are allowed is fetched to its end, with just these breaks, and ends without error. |
| `SegmentCompletion.CanAlwaysComplete` | src/http/segment.rs:249-830 | From any world careful sessions can reach, a session started afresh or from any current snapshot can put the remote file in place, however its streams break, as long as no segment's breaks more often than retries are allowed. |
| `SegmentCompletion.RestoreIsSafeExactly` | src/http/mod.rs:966-988 | Restoring a stored snapshot over an existing partial file can put a wrong file in place exactly when the snapshot claims a byte that is not in the file as it is opened. |
| `SegmentCompletion.CurrentSnapshotIsSafe` | src/http/mod.rs:966-988 | A snapshot taken of the present partial file can only end well. |
| `SegmentCompletion.FreshPartIsSafeExactly` | src/http/mod.rs:966-988 | Over a partial file just created, a stored snapshot can go wrong exactly when it claims a byte that is not zero. |
| `SegmentCompletion.StaleSnapshotExactly` | src/http/mod.rs:966-988 | That some partial file exists is not enough: after the partial file is lost (by a rename or by the fallback to a single stream), a session killed right after creating a new one leaves a world in which restoring an old snapshot goes wrong exactly when it claims a non-zero byte. |
| `SegmentVersions.SessionIsOneVersion` | src/http/segment.rs:361-480 | While the file changes on the server at any time, a session whose requests name the version it probed completes with exactly that version. |
| `SegmentVersions.StoredTogether` | src/http/mod.rs:890-911 | A snapshot stored with the validators of its own version is discarded for every later version, and is safe for its own. |
| `SegmentVersions.KeptExactly` | src/http/mod.rs:890-911 | Saved segments are kept exactly if every saved validator, entity tag and date alike, is still there and the same. |
| `SegmentVersions.StoredApartExactly` | src/engine.rs:565-577 | Validators and segments are saved by two writes, and new validators only after a chunk has been written and reported (src/http/segment.rs:691-824). For two versions of one length and every moment at which a session on the new one may be killed: the next is misled exactly if the new validators have been saved, the new segments have not, and the old ones claim a byte that is not in the partial file by then; so never if the versions agree on what is claimed. |
| `SegmentVersions.CanMisleadExactly` | src/engine.rs:565-577 | Some run of such a session comes to that exactly if the versions differ in a claimed byte, other than the very first byte of a session of one segment, which is overwritten before anything new is saved. |
| `SegmentVersions.SavesBoth` | src/engine.rs:565-577 | When nothing comes between the two writes, validators and segments of one moment are stored, and the next session on the same version is given just these segments. |
| `StreamSafety.AcceptedBody` | src/http/resume.rs:181-268 | What an answer accepted for a resumed file carries: bytes of the version named, from the requested position at most to the end of its range, and all of them when received to its end. |
| `StreamSafety.CompletedExactly` | src/http/mod.rs:460-494 | A partial file completed by an accepted answer is the version served exactly when it began that version and the answer reached its end. |
| `StreamSafety.SubsetExactly` | src/http/resume.rs:252-266 | The end of the range is not looked at: from a server that may send less than it is asked for, a prefix is completed to the whole file exactly when the range reached the end. |
| `StreamSafety.PrefixExactly` | src/http/mod.rs:460-494 | From a server that sends all it is asked for, a partial file is completed to the version served exactly when it began that version. |
| `StreamSafety.AcceptedContinues` | src/http/mod.rs:423-494 | A guarded partial file whose continuation is accepted begins the version served, whatever has changed since the probe (section 13.1.5 of RFC 9110). |
| `StreamSafety.MatchIsSafe` | src/http/mod.rs:389-406 | A partial file that cannot be mixed under the saved validators cannot be under the probed ones when they match. |
| `StreamSafety.PrefixIsSafe` | src/http/resume.rs:38-52 | A prefix of the version being served cannot be mixed under validators of that or any earlier version, because versions have their own entity tags. |
| `StreamSafety.EventKeeps` | src/http/mod.rs:218-767 | Every event of a session (probe, answer, chunk, progress report, failed write or flush, end, rename, cancellation) keeps what its partial file, stored validators and final file are. |
| `StreamSafety.RunKeeps` | src/http/mod.rs:218-767 | So does every run, and so every state in which a session may be killed. |
| `StreamTheorems.PlacedExactly` | src/http/mod.rs:577-607 | The file a session puts in place is the version served exactly when it was fetched from the start or the range it ended with reached the end. |
| `StreamTheorems.SessionIsSafeExactly` | src/http/mod.rs:378-640 | From a server that sends all it is asked for, some run of a session ends in a file that is not the version served if and only if a version it may still meet has kept every validator the session was given, is longer than the partial file and does not begin with it. |
| `StreamTheorems.ChangedIsSafe` | src/http/mod.rs:389-406 | If every version a session may meet has another entity tag than the one it was given, or another date, no run goes wrong. |
| `StreamTheorems.SubsetsAreSafeExactly` | src/http/resume.rs:252-266 | From a server that may send less, also if and only if some version is resumed two bytes or more before its end, or has three bytes or more, a retry is allowed, and a server that refuses ranges beyond the end does not end the session first because its partial file is already that long. |
| `StreamTheorems.StoredTagExactly` | src/http/resume.rs:38-52 | For a partial file of the version being served and stored validators that match it, no future makes the session go wrong exactly when an entity tag is among them. |
| `StreamTheorems.KilledIsInsured` | src/http/mod.rs:236-242 | Wherever a session is killed, an entity tag it leaves stored is of a version already served and keeps the partial file from being mixed. |
| `StreamTheorems.CoveredSessionsAreSafe` | src/http/mod.rs:218-640 | Over any number of sessions, killed anywhere, if each starts with an entity tag stored or nothing to continue, every file put in place is the version then served. |
| `StreamTheorems.RetryIsSafeExactly` | src/http/mod.rs:331-341 | After an attempt whose probe was answered, the next attempt of the same process can go wrong exactly when the first neither continued nor truncated the partial file and that file mixes with the version probed. |
| `StreamTheorems.TwoAttemptsExactly` | src/http/mod.rs:331-341 | Because the probed validators are published before a stale file is truncated, two attempts of one process can go wrong exactly when they could with no validators stored at all. |
| `StreamTheorems.UnansweredExactly` | src/http/mod.rs:325-341 | A probe that goes unanswered erases the validators: the next attempt can go wrong exactly when the old partial file mixes with a version to come, or of two versions to come the earlier differs from the later in a byte that is not the last of the later. |
| `StreamTheorems.FullPartExactly` | src/http/mod.rs:453-458 | With a server that refuses a range beyond the end, a session over a partial file can put a file in place exactly when it may meet a version that it does not resume or that is longer than the partial file. |
| `SingleStream.StreamToFile` | src/http/mod.rs:646-767 | The chunks are appended in order; a write or the flush may fail, retryably, and leave any part; every way out is the specified one, and success means the whole body of the announced length is on disk. |
| `SingleStream.Request` | src/http/mod.rs:410-598 | One turn of the retry loop is the specified one and sends at most one request. |
| `SingleStream.Download` | src/http/mod.rs:218-640 | Whatever server and disk do, a download is a fair run of the session to its end, every change of the disk being one event of it; a file put in place is a prefix of the version served, and all of it from a server that sends what it is asked for, unless versions could be mixed from the start; and at most 2 * (max_attempts + 1) GETs are sent. |
| `PriorityQueue.PushOrdered` | src/priority_queue.rs:26-34 | A new entry takes its place in the order by priority and then by earlier sequence, which `QueueOrder.BeatsExactly` spells out. |
| `PriorityQueue.SortedUnique` | src/priority_queue.rs:26-40 | Entries have only one order, so modelling the heap as the list of its entries in popping order loses nothing. |
| `PriorityQueue.EnqueueOk` | src/priority_queue.rs:128-138 | Joining the queue adds exactly one entry, and heap and priority map go on agreeing. |
| `PriorityQueue.GrantOk` | src/priority_queue.rs:159-168 | Granting removes exactly the head from heap and priority map, which go on agreeing. |
| `PriorityQueue.SetPriorityOk` | src/priority_queue.rs:235-258 | Rebuilding the heap for a new priority keeps every entry and its place in time, and heap and priority map go on agreeing. |
| `PriorityQueue.RemoveOk` | src/priority_queue.rs:273-282 | Removing keeps exactly the other entries, in order. |
| `PriorityQueue.PriorityQueue.Join` | src/priority_queue.rs:128-138 | Numbering and entering one after the other add the entry with that number and advance the counter. |
| `PriorityQueue.PriorityQueue.TryGrant` | src/priority_queue.rs:149-172 | The check under the lock grants exactly to the head, below the ceiling, with a permit to be had. |
| `PriorityQueue.PriorityQueue.TryAcquire` | src/priority_queue.rs:200-229 | Taking a slot without queueing succeeds exactly below the ceiling, with a permit, and no strictly higher entry waiting. |
| `PriorityQueue.PriorityQueue.Release` | src/priority_queue.rs:53-64 | Dropping a permit gives up the slot and returns the permit. |
| `PriorityQueue.PriorityQueue.SetPriority` | src/priority_queue.rs:235-268 | The drain and rebuild loop computes the specified queue and reports whether the id was known. |
| `PriorityQueue.PriorityQueue.Remove` | src/priority_queue.rs:273-285 | The filter and rebuild loops compute the specified queue. |
| `PriorityQueue.PriorityQueue.QueuePosition` | src/priority_queue.rs:317-326 | The position of a waiting id is one more than the number of entries that beat it. |
| `QueueProtocol.StepKeeps` | src/priority_queue.rs:53-304 | Every step of every task (numbering, joining, registering, checking, taking, waking, abandoning, the three steps of a release) and every outside change keeps the invariant. |
| `QueueProtocol.CheckFailsBusy` | src/priority_queue.rs:149-159 | A head that is refused by the ceiling check finds the ceiling zero or a slot in use, so someone will still notify. |
| `QueueProtocol.TakeFailsBusy` | src/priority_queue.rs:159-172 | A head that finds no permit finds one outstanding or still to be added, so someone will still notify. |
| `QueueSteps.JoinIsTwoSteps` | src/priority_queue.rs:128-138 | Numbering and joining undisturbed has the effect of the method. |
| `QueueSteps.GrantIsTwoSteps` | src/priority_queue.rs:149-172 | The check of a waiting task, undisturbed, grants exactly when the method does, with the same queue after it, and otherwise only puts the task to sleep. |
| `QueueSteps.TryIsTwoSteps` | src/priority_queue.rs:200-229 | Taking a slot without queueing, undisturbed, succeeds exactly when the method does, with the same queue after it, and otherwise changes nothing. |
| `QueueSteps.ReleaseIsTwoSteps` | src/priority_queue.rs:53-64 | A release, undisturbed, has the effect of the method. |
| `QueueSteps.NotifyWakes` | src/priority_queue.rs:53-64 | A notification reaches every task that has registered or sleeps, and changes no other. |
| `QueueTheorems.QueueIsSafe` | src/priority_queue.rs:53-304 | In every reachable state: if the head's task is live and asleep with no wake-up pending, then the ceiling is zero, a slot is in use or being released, or a removal, priority change or ceiling change has still to notify; permits are conserved and cover the ceiling; `waiting_priorities` is the heap's; the active map is the slots in use. |
| `QueueTheorems.GrantsTheBest` | src/priority_queue.rs:140-176 | A waiting task is granted a slot only as the entry no other beats, and only with fewer slots in use than the ceiling it read. |
| `QueueOrder.GrantIsFirst` | src/priority_queue.rs:26-40 | Every other entry has a lower priority than the one granted, or the same and a later number; Critical is above High above Normal above Low. |
| `QueueOrder.FirstComeFirstServed` | src/priority_queue.rs:140-176 | Over any run: of two waiters whose priorities stay equal, the one with the later number is not granted while the other waits. |
| `QueueOrder.RepricedExactly` | src/priority_queue.rs:235-258 | A new priority changes that of one entry, keeps its number, and leaves every other entry alone. |
| `QueueTheorems.CeilingIsRead` | src/priority_queue.rs:149-159 | That ceiling is the one in force when the lock was taken. |
| `QueueTheorems.TryNeverOvertakes` | src/priority_queue.rs:200-229 | A slot taken without queueing is taken below the ceiling and past no strictly higher waiter. |
| `QueueTheorems.HeadIsGranted` | src/priority_queue.rs:140-176 | From any state with nothing in use and nothing under way, a live head needs at most four steps of its own to hold a slot. |
| `QueueTheorems.HeadCanHold` | src/priority_queue.rs:53-304 | From every state with a positive ceiling a live head can be given a slot by nothing but what is under way, the releases of the slots in use, and its own steps. |
| `QueueTheorems.WaiterExactly` | src/priority_queue.rs:53-304 | In every reachable state with a positive ceiling, a waiter can be given a slot in this way exactly when no entry before it, nor its own, belongs to a task that is gone. |
| `Limiter.RateLimiter.Book` | src/limiter.rs:83-100 | Booking refills up to the burst, takes the bytes, possibly into debt, and waits exactly if in debt; without a limit, or with nothing to book, it returns at once. |
| `Limiter.RateLimiter.SetLimit` | src/limiter.rs:62-73 | The same limit changes nothing; a new one starts afresh with a full bucket. |
| `Limiter.LimitExactly` | src/limiter.rs:62-73 | Setting the limit in force changes nothing however often; no limit and a limit of zero are one; any other starts with the burst of its rate. |
| `Limiter.RateLimiter.WaitOutDebt` | src/limiter.rs:103-119 | With nothing else booked, a debt worth `seconds` is waited out in fewer than 2 * seconds + 1 sleeps, whoever else refills the bucket meanwhile; the loop ends with no debt left. No sleep is longer than half a second or than the debt needs, and each is as long as both allow. |
| `Limiter.ApplyKeeps` | src/limiter.rs:83-119 | Every booking and every check of any caller keeps the account between level, bytes booked and time. |
| `Limiter.ReturnsExactly` | src/limiter.rs:83-119 | A booking returns at once exactly if the refilled level pays for it, and a waiting call exactly when the debt has been earned. |
| `Limiter.WindowBound` | src/limiter.rs:83-119 | For any number of callers under one limit: bytes booked in any window that ends with a return are at most burst + rate * length. |
| `Limiter.ReturnedBound` | src/limiter.rs:83-119 | At any time the bytes of calls that have returned are at most burst + rate * (time since the limiter was made). |
| `Limiter.ChangeForgives` | src/limiter.rs:62-73 | A changed limit forgives all debt: every sleeper returns at its next check. |
| `Mirror.MirrorManager.SwitchToNext` | src/http/mirror.rs:153-166 | It moves to the first entry after the current one that has not failed, and reports none exactly when all others have. |
| `Mirror.MirrorManager.ReportUrlFailure` | src/http/mirror.rs:110-133 | It counts against the URL's first entry, marks it at the third failure, leaves it if it was current, and keeps: the current entry is marked only if all are. |
| `Mirror.MirrorManager.FailoverFrom` | src/http/mirror.rs:136-150 | It marks the URL's first entry, leaves it if it was current, and then reports none exactly when every entry has failed. |
| `Mirror.FailedBound` | src/http/mirror.rs:136-150 | The marked entries are distinct, so there are at most as many as URLs, and that many only if all have failed. |
| `Mirror.Download` | src/engine.rs:2513-2562 | Whatever failures the attempts report, each failed attempt that is followed by another has marked one more entry, so there are at most n + 1 attempts, duplicates included. The first success ends the download, and it is given up only when every URL has failed or the next is the one just tried. |
| `Rc4.CryptInPieces` | src/torrent/mse.rs:171-180 | Processing is independent of how the data is cut. |
| `Rc4.CryptTwice` | src/torrent/mse.rs:171-180 | Decrypting from the state that encrypted gives the data back. |
| `Rc4.NewIsPermutation` | src/torrent/mse.rs:132-180 | In every state any key can reach, the cipher holds each byte exactly once. |
| `Rc4.ScheduleKey` | src/torrent/mse.rs:132-143 | The key-scheduling loop computes the specified permutation. |
| `Rc4.Rc4Cipher.constructor` | src/torrent/mse.rs:132-152 | A new cipher is the scheduled state advanced by the 1024 bytes dropped. |
| `Rc4.Rc4Cipher.Process` | src/torrent/mse.rs:171-180 | Processing part of a buffer in place encrypts exactly that part and advances the state by its length. |
| `DiffieHellman.PaddedRoundTrip` | src/torrent/mse.rs:214-239 | Every number below the modulus survives being written in 96 bytes. |
| `DiffieHellman.SecretsAgree` | src/torrent/mse.rs:204-239 | Both sides compute the same secret from their own private number and the other's public bytes. |
| `DiffieHellman.SecretExactly` | src/torrent/mse.rs:204-239 | The secret is the peer's number raised to one's own, modulo p: with an honest peer, 2 raised to the product of both. |
| `DiffieHellman.AcceptedExactly` | src/torrent/mse.rs:195-202 | A peer value is accepted exactly if it lies from 2 to p - 2. |
| `DiffieHellman.DegenerateIsTrivial` | src/torrent/mse.rs:195-202 | The refused peer values 0, 1 and p - 1 leave one of three secrets, whatever the private number. |
| `Mse.Scan` | src/torrent/mse.rs:564-605 | The window accepts the first copy of the encrypted verification constant among offsets 0 to 513 (one more than the stated 512), and none if there is none. |
| `Mse.FindMarker` | src/torrent/mse.rs:578-605 | The byte-by-byte window computes that search and consumes nothing past the marker. |
| `Mse.ReceiveCryptoResponse` | src/torrent/mse.rs:552-640 | Reading the response computes the specified selection and leaves the cipher in the specified state, or fails exactly when it should. |
| `Mse.ResponseInSync` | src/torrent/mse.rs:552-640 | With padding within bounds and no earlier copy of the marker, the answer is read whole and both sides' ciphers for that direction end equal. |
| `Mse.ElsewhereOtherwise` | src/torrent/mse.rs:564-605 | With longer padding or an earlier copy of the marker, some other place, or none, is taken for the responder's marker. |
| `Mse.OfferInSync` | src/torrent/mse.rs:487-517 | A responder of the protocol reads the offer back and both sides' ciphers for that direction end equal. |
| `Mse.HandshakeInSync` | src/torrent/mse.rs:386-640 | For all private numbers, paddings and choices: both sides derive the same ciphers from the exchanged values, and reading offer and answer with them leaves both pairs in equal states, whatever is sent afterwards. |
| `Mse.HandshakeCompletes` | src/torrent/mse.rs:386-640 | End to end, with no earlier copy of either marker: the initiator gets through exactly if the responder's public value is not degenerate, and then a responder of the protocol reads its request, both hold the same ciphers, crossed over, and the same choice, and nothing that follows is lost. |
| `Mse.ConversationDecrypts` | src/torrent/mse.rs:312-640 | After such a handshake, under RC4, everything either side writes, in any pieces, is what the other reads, in whatever pieces it arrives. |
| `Mse.TrafficDecrypts` | src/torrent/mse.rs:312-338 | From equal states, what is written in any pieces is what is read, in whatever pieces it arrives. |
| `Mse.EncryptedStream.WriteAll` | src/torrent/mse.rs:330-338 | With the RC4 method a write puts the encryption on the wire and advances the cipher; otherwise the bytes pass unchanged. |
| `Mse.EncryptedStream.Read` | src/torrent/mse.rs:312-327 | A read decrypts in place exactly the bytes received. |
| `Mse.HandshakeOutgoing` | src/torrent/mse.rs:386-549 | The initiator sends and ends with what is specified: it refuses degenerate values after its first message, sends the request otherwise, and keeps the encrypting cipher the request has advanced. |

## Left out

- Sockets, HTTP, TLS, HTML and URL libraries, the SQLite database, event channels, configuration builders, the DHT and local discovery: these are the environment, or parameters such as `Site` and `Hash`.
- The engine's own pause, resume and cancel states and its recursive groups: task updates race with them, and no clean invariant holds.
- Easier members that would add little: schedule rules, retry delays, hex ids, the speed calculator, choking, recursive job counters, storage of downloads, checksums (a checksum mismatch is one of the ways `SingleStream.Download` may end).
- Mirrors that serve another version than the one probed: requests to mirrors carry no condition (`src/http/segment.rs:370-380`), so `SegmentVersions.Served` takes mirrors to agree with the primary, and the single-connection theorems take the mirrors of one download to share one history.
- Power failures in a segmented download: a write is taken to be in the file when it returns. In the single stream a failed write or flush may lose any part of what was written, but a kill loses nothing.
- The limit on simultaneous connections of one segmented download: a waiting task may start at any time, which allows more interleavings than the semaphore does.
- Late notice of cancellation and pause: a task may act once more after either, which allows more runs than the code has.
- Progress events, speeds and the waits between retries.
- SegmentSessions.SessionsAreSafe: asks that each restored snapshot is true of the file; `SegmentCompletion.RestoreIsSafeExactly` shows that nothing less will do.
- SegmentVersions.StoredApartExactly: takes the two versions to be of one length; kept segments of an old version of another length do not tile the new one, and what a session makes of them is not modelled.
- SingleStream.Download: promises a right file only if the stored validators keep the partial file from being mixed; `StreamTheorems.SessionIsSafeExactly` shows that nothing less will do. Every version is taken to have its own entity tag.
- Crawl.Discover: of a crawl that dropped links it does not say which pages are within the depth limit, because a page's depth is that of the link processed first; of overwritten entries, which URL is kept; size hints are not modelled.
- Limiter.WindowBound: takes floating point as exact reals, and the limit as unchanged during the window.
- Limiter.RateLimiter.WaitOutDebt: counts sleeps with nothing else booked meanwhile; other bookings only lengthen the wait.
- The re-registration of a waiter that was woken for nothing, and the filling of a free slot at once: `acquire` takes a slot without notifying the next waiter, so beside `QueueTheorems.QueueIsSafe` only the possible runs of `QueueTheorems.WaiterExactly` are claimed.
- The wrap-around of the queue's 64-bit sequence numbers and of the 32-bit failure counts.
- MetadataFetcher between its separate lock acquisitions, and MirrorManager between its: one message, and one report, is one step.
- `get_needed_pieces` and request timing in the metadata exchange.
- Magnet.ParseToUri: does not cover keyword topic, acceptable sources and manifest topic, because they are parsed but never printed.
- Paths of crawled files, which are the parameter `Site.relativePath`; Windows path prefixes; and the `md5sum` entries of torrents.
- The responder's side of the encrypted handshake exists only as the protocol's specification here, because the repository has none; random choices are parameters, and timeouts are the end of the stream.
