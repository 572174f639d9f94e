# Verified model of cryptcrypt

cryptcrypt encrypts a file or a directory tree with two layers (XChaCha20-Poly1305, then
AES-256-GCM-SIV) in chunks of one megabyte, optionally compressed, optionally split over several
files. Reading, compressing, sealing and writing run in parallel. This project models that stream
processing in Dafny and proves that it is lossless for every schedule of the threads, every split
list and every way in which a stream is cut into buffers, and that nothing but the original comes
out of decryption when it reports success.

`dafny verify dfyconfig.toml` checks everything.

## How the model is built

| file | part of the program |
|---|---|
| ByteStrings, Cutting | bytes, little-endian numbers, concatenation; how a stream is cut into chunks |
| SplitFiles | `WriteOutput` and `ReadInput`: one file or a series `.c00`, `.c01`, ... |
| Reorder | the reorder buffer of the writer thread and of both resegmenters |
| Resegment | `resegment` on both sides: compressed chunks behind 3 byte lengths, cut again into equal chunks |
| Sealing | one chunk through both ciphers; all chunks of a file |
| FileHeader | the header of an encrypted file |
| Pipeline | `io_chunks` with reader, workers, resegmenter and writer as a state machine over bounded channels |
| AnyRun | every run of that machine ends, whatever fails |
| EndToEnd | the stages of `encrypt_pipe` and `decrypt_pipe`; what a run of either writes, whatever it is given |
| EncryptFaults | what an encryption that fails leaves behind |
| WholeFiles | `encrypt` and `decrypt` from file to file, keys and parameters through the header |
| ArchiveHeader | the header of an archive entry; segments of sparse files |
| ArchiveSend, ArchiveMerge | the archiver: directory walker, workers, and the chunk reader that merges their channels |
| FileTree, Paths | the output directory; where a path leads in it, `..` and symbolic links included; creating directories, files and links |
| ArchiveStream, ArchiveEntries | the archive stream as a language with a parser; the stream of a list of entries |
| CutGuard | exactly which archive bodies may be cut anywhere |
| Extraction, Extractor | what extraction restores; the object `ArchiveWrite` |
| NoOverwrite | extraction into a directory that is not empty |
| ArchiveRoundTrip | a directory tree through everything |

Objects whose methods change their fields (`WriteOutput`, `ReadInput`, `ArchiveRead`,
`ArchiveWrite`) are classes with the same fields; their methods are proved against functions on
values, and the results are about these functions. The threads of `io_chunks` are a step relation:
an event is one step of one thread, a run is any sequence of events, threads may fail or crash at
any point, and the worker counts and channel capacities are arbitrary positive numbers.

**Ideal cryptography.** A ciphertext byte is a symbol that names the sealed box it belongs to and
its position in it. So the AEAD interface of section 2 of RFC 5116 is a concrete function in the
model: decryption succeeds exactly under the key, nonce and associated data of encryption. Nonces,
salts and the file ID are arbitrary values of the right length. SHA-256 is ideal in the same sense.

**Keys.** Key derivation is a pair of arbitrary functions, from the salts in the clear to the header
keys and from the salts and the credential in the header to the body keys. The decrypter of the model
gets these functions and the bytes of the files and nothing else.

**Compression** is any pair of functions for which decompression undoes compression on chunks and a
compressed chunk is shorter than 2^24 bytes; bzip2 at one megabyte stays far below.

**The archiver's channels.** Each channel has one sender, so what a worker will send is fixed by the
entries it gets; the order in which messages of different workers are ready is the choice of the
channel, which is left open. Distribution of entries over workers is left open as well.

## Where the code falls short of what it is for

* A payload of 2^24 bytes or more loses the high bits of its length (`Resegment.FramingReversibleIff`
  gives the exact condition). The compression in use never produces one.
* The end test of the decrypting resegmenter looks at the buffer only and accepts a stream that
  ends right behind a length prefix (`Resegment.EndTestIff`). Such a stream cannot come out of the
  decryption workers unless it was sealed that way.
* Two holes of a sparse file that touch make the parser see an empty data segment between them. If
  they are the last two and reach the end of the file, and nothing follows in the stream, the last
  hole is never written and the file keeps the current time (`ArchiveStream.SparseCompletesIff`). A
  scan that reports maximal holes never gives such a list.
* The extractor trusts the stored holes. If a data segment is reached that is longer than what is
  left of the file, the outcome depends on how the stream is cut (`CutGuard.CutSafeIff` gives the exact
  condition on the segments and the size, `CutGuard.OverlapDependsOnCut` a header). Headers made by the
  archiver never lead there.
* Extraction asks whether an entry's path exists, then makes its directories, then follows the path
  again to create the file. With `..` behind a directory that was missing the second answer differs:
  `x/../a` empties the file `a` if there is no `x` (`NoOverwrite.DotDotOverwrites`). A file is lost
  exactly if the path leads to it only after the directories have been made
  (`NoOverwrite.OverwrittenIff`); without `..` in the paths of file entries nothing is ever
  overwritten (`NoOverwrite.NeverOverwrites`). A file entry at the place of a symbolic link that leads
  nowhere is not refused: it creates the file the link leads to (`NoOverwrite.LinkToNothingIsFollowed`).
* On Unix the archiver takes files with more than one link and the same inode number for one file,
  without looking at the device (src/archive.rs:459-460), and walks across file systems. A file on a
  second file system that shares its number with one on the first is archived as a link to it, and its
  content is lost (`ArchiveSend.SecondFileIsLost`). What was found comes back if and only if files that
  share a number are the same (`ArchiveSend.FoundRestoredIff`).
* If reading the input fails during encryption with compression, the resegmenter takes the end of its
  channel for the end of the input and marks its last chunk as final (src/encryption.rs:261-264). The
  program reports the error, but the file it leaves may decrypt without one to a beginning of the data:
  exactly if the compressed chunks do not fill the last chunk (`EncryptFaults.TruncatedIff`). Without
  compression this cannot happen (`EncryptFaults.UncompressedPart`).
* The comment on `encrypt_pipe` says that the workers deliver in chunk order
  (src/encryption.rs:272-274); they do not, the writer thread puts the chunks in order
  (src/common_io.rs:357-366), and the model follows the code.

## Model

| member | source | states |
|---|---|---|
| SplitFiles.LayoutShape | src/common_io.rs:223-263 | For every split list and all data: the files hold the data and nothing else, file i before the last has exactly split[i] bytes, and the last file is the one whose prefix sums enclose the total, so no empty file is created behind a full one |
| SplitFiles.CurrentIsUnique | src/common_io.rs:232-259 | At most one index meets the description of the current file |
| SplitFiles.LayoutResume | src/common_io.rs:223-263 | Writing s + t is writing s and continuing in the open file and the sizes behind it |
| SplitFiles.WriteOutput.constructor | src/common_io.rs:205-209 | One empty file, nothing written |
| SplitFiles.WriteOutput.WriteFiles | src/common_io.rs:223-263 | Whatever the division into calls, the files are the layout of all bytes handed over; zero sizes, used up lists and sizes up to the 64 bit maximum included; the loop ends and never indexes past the list |
| SplitFiles.WriteOutput.WriteSplit | src/common_io.rs:228-259 | The saturating arithmetic of the loop gives the files the unbounded layout asks for |
| SplitFiles.WriteOutput.CreateNext | src/common_io.rs:233-243 | The full file is closed and hashed before the next one is created |
| SplitFiles.WriteOutput.WriteOthers | src/common_io.rs:269-270 | There is one checksum per file and checksum i is the hash of file i |
| SplitFiles.ReadInput.Open | src/common_io.rs:54-82 | Refuses exactly the encrypted inputs that are shorter than a header and one empty sealed chunk; otherwise the whole series is unread |
| SplitFiles.ReadInput.ReadFiles | src/common_io.rs:117-150 | Gives the next bytes of the series whatever the request, across runs of empty files; fails exactly when fewer bytes are left |
| SplitFiles.ReadInput.ReadSeries | src/common_io.rs:120-147 | The loop over several files, with its termination |
| SplitFiles.ReadInput.InputSizes | src/common_io.rs:92-104 | A chunk is final exactly when what remains fits into it |
| SplitFiles.ReadInput.ReadChunk | src/common_io.rs:159-165 | The next piece of what is unread, flagged exactly when it is the last |
| SplitFiles.ReadInput.ReadAll | src/common_io.rs:373-386 | The reading loop delivers the numbered pieces of the input with one final flag on the last |
| SplitFiles.WriteAll | src/common_io.rs:223-270 | Any list of parts, one call each, gives the layout of their concatenation and the matching checksums |
| SplitFiles.SplitRoundTrip | fuzz/fuzz_targets/fuzzer_split.rs:22-54 | Written in any parts and read back in any requests, the bytes are the same |
| Cutting.PiecesWellCut | src/common_io.rs:92-104 | Chunks concatenate to the stream; all but the last are exactly full and the last of several is not empty |
| Cutting.WellCutUnique | src/common_io.rs:92-104 | No other list of chunks of that shape has the same concatenation |
| Cutting.FullPiecesAppend | src/encryption.rs:249-257 | Sending full chunks as soon as they are full is cutting the longer stream |
| Cutting.PiecesOfFull | src/encryption.rs:249-263 | Full chunks and the remainder, if any, are the pieces of the whole, multiples of the chunk size included |
| Reorder.InOrderShape | src/common_io.rs:360-366 | What leaves a reorder buffer is numbered 0, 1, 2, ..., came in, and stops at a number that is missing |
| Reorder.InOrderIs | src/common_io.rs:360-366 | That description fixes the outcome |
| Reorder.InOrderOfPermutation | src/common_io.rs:358-366 | Every order of arrival of a complete list gives the list in order |
| Reorder.InOrderGrows | src/common_io.rs:360-366 | More arrivals only add to the end |
| Reorder.WriterThread | src/common_io.rs:357-366 | For every order of arrival the writer passes on exactly the buffers up to the first gap, in order |
| Resegment.UnframeAppend | src/decryption.rs:154-178 | Taking frames out as soon as they are complete is taking apart the whole stream |
| Resegment.UnframeFramed | src/decryption.rs:154-178 | Framed payloads shorter than 2^24 bytes come back |
| Resegment.FramingReversibleIff | src/encryption.rs:244-246 | Framing is reversible if and only if every payload is shorter than 2^24 bytes; above that the length is silently cut |
| Resegment.EncryptResegment | src/encryption.rs:232-266 | For every order of arrival: the chunks sent are those the payloads in order call for; it fails exactly on a length above 32 bits |
| Resegment.EncryptItem | src/encryption.rs:242-257 | One payload: length and bytes appended, full chunks sent, the flag only on a chunk that takes the last byte of the final payload |
| Resegment.EncryptSideShape | src/encryption.rs:239-263 | For complete input the chunks are consecutive pieces of the framed stream, all but the last exactly full, the last not empty, and only the last flagged |
| Resegment.DecryptResegment | src/decryption.rs:140-187 | For every order of arrival and any content: the payloads sent are the complete frames, and the result is Ok exactly when the end test accepts |
| Resegment.DecryptItem | src/decryption.rs:150-178 | The nested loops with the length prefix kept between calls, any cut of the frames included |
| Resegment.EndTestAcceptsBarePrefix | src/decryption.rs:182-184 | A stream that ends right behind a length prefix is accepted although its payload is missing |
| Resegment.EndTestIff | src/decryption.rs:182-184 | The end test accepts exactly whole frames and streams that end behind a non-zero length prefix |
| Resegment.ResegmentRoundTrip | src/encryption.rs:232-266 | Any payloads below 2^24 bytes, through both resegmenters with any order of arrival at either, come back identical, numbered 0, 1, 2, ... and with Ok |
| Resegment.DecryptSideInverts | src/decryption.rs:140-187 | The decryption side undoes the encryption side |
| Sealing.DecryptIff | src/decryption.rs:101-103 | Ideal AEAD: decryption succeeds exactly on what was encrypted under the same key, nonce and associated data |
| Sealing.EncryptInjective | src/encryption.rs:148-189 | Different keys, nonces, data or texts give different ciphertexts |
| Sealing.XorSelfInverse | src/encryption.rs:139-142 | Exclusive-or with the same number twice gives the number back |
| Sealing.MaskInjective | src/encryption.rs:137-142 | Chunk number and final flag are recovered from the nonce mask |
| Sealing.MaskingLaws | src/decryption.rs:53-57 | Two masked nonces are equal exactly for equal number and flag, and masking is its own inverse |
| Sealing.AesAadInjective | src/encryption.rs:183-187 | Chunk number and final flag are recovered from the associated data |
| Sealing.MaskNonce | src/encryption.rs:137-142 | The loop that changes the nonce in place computes the mask |
| Sealing.ChaEncryptBuffer | src/encryption.rs:133-152 | Seals under the masked nonce and appends the original one |
| Sealing.AesEncryptBuffer | src/encryption.rs:180-193 | Seals with number and flag in the associated data and appends the nonce |
| Sealing.ChaDecryptBuffer | src/decryption.rs:49-67 | Inverse of the above with the same masking; a buffer shorter than a nonce is an error |
| Sealing.AesDecryptBuffer | src/decryption.rs:90-104 | Inverse of the above with the same associated data; a buffer shorter than a nonce is an error |
| Sealing.ChaOpensOnlyInPlace | src/decryption.rs:49-67 | The ChaCha layer opens a sealed buffer under its own number and flag and under no other |
| Sealing.AesOpensOnlyInPlace | src/decryption.rs:90-104 | So does the AES layer |
| Sealing.OpensOnlyInPlace | src/decryption.rs:250-254 | So do both together |
| Sealing.OpensOnlySealed | src/decryption.rs:250-254 | A chunk that opens is an AES box with this file, number and flag in its associated data, around a ChaCha box with number and flag in its nonce |
| Sealing.RearrangementRejected | README.md:167-172 | A list made of one file's chunks, reordered, repeated, with chunks missing or cut short, opens completely only if it is the original list |
| Sealing.SealAllOpens | src/decryption.rs:250-255 | The original list opens to the original texts |
| Sealing.BoundariesRecovered | src/decryption.rs:401-407 | Cutting the sealed stream at chunk size plus overhead gives back exactly the sealed chunks |
| FileHeader.CreateHeader | src/encryption.rs:462-520 | Writes the header of the model byte by byte; fails exactly for a credential above 255 bytes; otherwise the header has the fixed size, starts with the two clear salts, and all fields can be read back |
| FileHeader.HeaderDecodes | src/decryption.rs:315-360 | What `create_header` writes has the fixed size and clear salts and is read back by anybody with the two header keys |
| FileHeader.SealHeader | src/encryption.rs:512-515 | The metadata block under both layers, recovered through both |
| FileHeader.FieldsOfBlock | src/decryption.rs:319-357 | Every field of the block is read back whatever the padding |
| FileHeader.GetUnencryptedHeaderItems | src/decryption.rs:299-303 | The two salts and the rest, in order |
| FileHeader.GetEncryptedHeaderItems | src/decryption.rs:315-360 | Both layers and the walk through the block give what the fixed offsets say; indices out of range are errors |
| FileHeader.ReadFields | src/decryption.rs:319-357 | The walk with start and end index |
| Pipeline.PoolKeeps | src/encryption.rs:352-370 | Every step of a worker keeps the account of chunk numbers: taken ones are held or sent, and missing only after a loss |
| Pipeline.OrderedKeeps | src/encryption.rs:340-348 | Every step of the resegmenter thread keeps: it has sent a beginning of what its input calls for |
| Pipeline.Levels | src/common_io.rs:346-389 | In every state every channel carries, under each number, the right item, and no number twice |
| Pipeline.StepKeepsNodes | src/common_io.rs:346-389 | Every event keeps the invariant of every stage |
| Pipeline.StepKeepsEndInv | src/common_io.rs:373-410 | Every event keeps the reasons why threads have ended: regularly only after their input was drained, cut off only by an error further on |
| Pipeline.Run | src/common_io.rs:334-411 | The invariant holds after every sequence of events |
| Pipeline.Safety | src/common_io.rs:357-370 | In every reachable state, faults included: the buffers written go back, stage by stage, to a beginning of the input; each came through every job without an error and carries that job's result, in order and without a gap; what a resegmenter sent is a beginning of what its input calls for; and no number is in two places |
| Pipeline.PoolFollows | src/encryption.rs:359-367 | What left a pool in order was made by the job, without an error, from the item with the same number |
| Pipeline.OrderedFollows | src/encryption.rs:340-348 | What left a resegmenter in order is a beginning of what its input in order calls for |
| Pipeline.OkMeansComplete | src/common_io.rs:389-410 | Ok is returned only if every stage succeeded on the complete input and all of the result was written |
| Pipeline.Progress | src/common_io.rs:346-389 | In every reachable fault-free state with the writer still at work some thread can go on without a fault, whatever the channel capacities |
| Pipeline.StepDecreases | src/common_io.rs:346-389 | Every event makes the ranking smaller, although the resegmenter changes the number of items |
| Pipeline.FaultFreeRunsComplete | src/common_io.rs:346-410 | Every fault-free run is bounded, can go on until the writer is done, and then `io_chunks` returns Ok and everything has been written |
| Pipeline.FaultFreeRunsExtend | src/common_io.rs:346-410 | Every fault-free run can be continued to one that returns Ok |
| Pipeline.SomeRunReturnsOk | src/common_io.rs:334-411 | There is such a run |
| AnyRun.SomeThreadGoesOn | src/common_io.rs:346-410 | No deadlock, whatever has failed or crashed: while some thread has not returned, some thread can go on by itself |
| AnyRun.PutAtMost | src/common_io.rs:346-389 | In every reachable state, faults included, no channel has carried more items than a bound that depends on the input and the stages alone |
| AnyRun.AnyRunEnds | src/common_io.rs:346-410 | So every run is bounded, faults included, and can go on until all threads have returned |
| AnyRun.AnyRunReturns | src/common_io.rs:346-410 | After any faults the threads only have to be left alone: all of them return |
| AnyRun.ShortRunWrites | src/common_io.rs:373-386 | If nobody but the reader has failed, in the end everything is written that the stages make of the chunks that were read |
| EndToEnd.EncResegmenterLawful | src/encryption.rs:340-348 | What the resegmenter has sent is only added to as input arrives |
| EndToEnd.DecResegmenterLawful | src/decryption.rs:264-272 | The same on the decryption side |
| EndToEnd.EncryptStagesLawful | src/encryption.rs:301-373 | The stages of the encryption pipeline are lawful, with and without compression |
| EndToEnd.DecryptStagesLawful | src/decryption.rs:219-290 | So are those of the decryption pipeline |
| EndToEnd.EncryptWrites | src/encryption.rs:590-623 | For every schedule, Ok means that the sealed texts were written, in order and complete |
| EncryptFaults.UncompressedPart | src/common_io.rs:373-386 | Without compression, at any time of any run, faults included: what was written is a beginning of the sealed chunks and no longer than what was read, so the final chunk is written only after all of the input was read |
| EncryptFaults.CutShortIff | src/encryption.rs:261-264 | The resegmenter sends the same chunks, final flag included, for an input that breaks off as for one that ends there, if and only if the frames do not fill the last chunk exactly |
| EncryptFaults.TruncatedIff | src/encryption.rs:261-264 | If only reading has failed, after some chunks, and the threads got through: the chunks written are those of a complete encryption of the data read so far if and only if the compressed chunks do not fill the last chunk exactly |
| EndToEnd.DecryptWrites | src/decryption.rs:480-498 | For every schedule, Ok means that the chunks of the data were written |
| EndToEnd.HonestOpens | src/decryption.rs:250-254 | A chunk of any bytes from somebody without the AES key opens only to the text sealed under its number and flag |
| EndToEnd.DecryptWritesOnlyData | src/decryption.rs:219-290 | Decryption of any chunks from somebody without the key, with and without compression: in every reachable state, faults included, what has been written is a beginning of the chunks of the data, and Ok means all of them |
| EndToEnd.ForgedBodyWritesOnlyData | src/decryption.rs:401-411 | The same for any bytes behind the header, cut inside a chunk, with bytes changed, left out or inserted |
| EndToEnd.SealedIsHonest | src/encryption.rs:361-366 | The chunks of the file itself are such bytes |
| EndToEnd.DecryptOkMeansOriginal | README.md:167-172 | For a list made of one file's chunks: at any time a beginning of the data has been written, and Ok is returned only for the original list |
| EndToEnd.FilesGiveChunksBack | src/decryption.rs:401-411 | Through any split list the decrypter reads the header and then exactly the sealed chunks; the files are never refused as too short |
| WholeFiles.ReadHeader | src/decryption.rs:400-433 | The beginning of `decrypt`: parameters exactly as the bytes of the files say, or an error; the rest of the series is unread |
| WholeFiles.ParamsComeBack | src/decryption.rs:413-433 | All parameters of an encryption, flags, salts, file ID and credential, come back from the bytes of the files and the secrets alone |
| WholeFiles.FilesReadBack | src/encryption.rs:601-614 | Through any split list: the parameters, and behind the header exactly the sealed texts |
| WholeFiles.RoundTrip | src/decryption.rs:386-501 | Encryption with the header of `create_header`, any split list, decryption from the files and the secrets alone, any runs that return Ok: parameters and data come back, empty data and exact multiples of the chunk size included |
| WholeFiles.RoundTripHappens | src/common_io.rs:334-411 | Both sides have runs that return Ok |
| WholeFiles.BothPipelinesComplete | src/common_io.rs:346-410 | Fault-free runs of both pipelines end, return Ok, and have written everything |
| EndToEnd.SomeCodecIsLawful | src/encryption.rs:207-213 | What is assumed of the compression can be met |
| ArchiveHeader.SparseRoundTrip | src/archive.rs:308-332 | From the stored holes and the size every alternating partition with a hole is rebuilt |
| ArchiveHeader.HeaderRoundTrip | src/archive.rs:265-358 | Whenever a header could be built, parsing it gives every field back, for every entry type |
| ArchiveHeader.BuildHeader | src/archive.rs:114-217 | The appending code builds the encoding; it fails exactly when a length does not fit 16 bits |
| ArchiveHeader.AddPathToHeader | src/archive.rs:75-82 | Path behind its length, or an error above 16 bits |
| ArchiveHeader.AddSize | src/archive.rs:164-187 | Size, number of holes and holes |
| ArchiveHeader.SetHeaderSize | src/archive.rs:93-99 | The placeholder becomes the length of the rest |
| ArchiveHeader.ParseHeader | src/archive.rs:265-358 | The code with its two indices parses what the encoding says; a header that is too short is an error |
| ArchiveHeader.GetPathFromHeader | src/archive.rs:232-251 | A path and the index behind it, or an error when it is cut off |
| ArchiveHeader.GetSegments | src/archive.rs:312-332 | The loop over the holes rebuilds the segments |
| Paths.ResolveStays | src/archive.rs:887 | What a path leads to it still leads to after anything was added |
| Paths.CreateFinds | src/archive.rs:887-916 | Creating a file opens one that is there exactly if the path exists, and then the one it leads to |
| Paths.MakeDirsKeeps | src/archive.rs:828-833 | Creating directories along any path, possible or not, changes nothing that was there |
| Paths.NewDirs | src/archive.rs:828-833 | If a path without `..` leads nowhere, after its directories were made it leads to a directory that is new and empty |
| Paths.FindCanonical | src/archive.rs:887 | A path as the archiver writes it exists exactly if something is at the place of that name, symbolic links aside, and leads there |
| Paths.MakeDirsGrows | src/archive.rs:828-833 | Creating directories succeeds when nothing is in the way, adds only directories on the way and changes nothing but times |
| Paths.CreateGrows | src/archive.rs:911-941 | So does creating an entry together with its directories |
| ArchiveStream.CutAnywhere | src/archive.rs:1001-1110 | Unless a data segment is longer than what is left of its file: parsing the first part of a stream and continuing with the second is parsing the whole, failures and what they leave behind included |
| CutGuard.CutSafeIff | src/archive.rs:1034-1080 | The condition is exact: a body may be cut anywhere, as far as it is up to the body, if and only if no data segment that is reached is longer than what is left of the file |
| CutGuard.UnsafeDependsOnCut | src/archive.rs:1039-1047 | Otherwise, whatever the bytes: all at once they are an error, one byte apart they are accepted |
| CutGuard.HeaderDependsOnCut | src/archive.rs:1089-1103 | The same for a whole stream that begins with any accepted header that leads to such a body |
| CutGuard.OverlapDependsOnCut | src/archive.rs:312-332 | The header with holes 0-2 and 0-2 in a file of seven bytes is such a header; with four bytes it is harmless |
| CutGuard.AdjacentHolesCutOff | src/archive.rs:312-332 | The archive of one file with the stored holes 0-5 and 5-10, from its header on: at its end the file has five bytes and no times |
| CutGuard.EmptyCallIff | src/archive.rs:1001-1002 | An empty call changes nothing, unless the parser waits in front of a segment that needs no bytes |
| ArchiveStream.AnyCalls | src/archive.rs:1001-1110 | Under the same condition any division of a stream into calls gives what one call gives: output directory, deferred work and place in the stream, or the same failure with the same directory left behind |
| ArchiveStream.TakeResumes | src/archive.rs:1039-1050 | A segment that was cut continues where it stopped |
| ArchiveStream.BodyParses | src/archive.rs:1018-1088 | A body followed by other bytes becomes the content with zeros in the holes, and the file gets its times |
| ArchiveStream.BodyCompletesIff | src/archive.rs:1082-1087 | At the very end of the stream a body is completed if and only if no empty data segment stands in front of a hole with no data to come |
| ArchiveStream.SparseCompletesIff | src/archive.rs:1082-1087 | In terms of the stored holes: all sparse files are completed there but those whose last two holes touch each other and the end of the file |
| ArchiveStream.AdjacentHolesStall | src/archive.rs:1082-1087 | The file with holes 0-5 and 5-10 is left with five bytes |
| ArchiveStream.ListFollows | src/archive.rs:1007-1087 | On every stream that extraction accepts list mode evaluates the same headers, skips the same bytes, stands at the same place and creates nothing |
| ArchiveStream.ListFollowsCalls | src/archive.rs:1007-1087 | The same whatever the calls |
| ArchiveEntries.SizeAndSegmentsEndTogether | src/archive.rs:1044-1061 | The remaining size is 0 exactly when no segment is left |
| ArchiveEntries.ExpandOfData | src/archive.rs:1034-1059 | Data bytes with zeros in the holes are the content |
| ArchiveEntries.BodyOfFile | src/archive.rs:560-589 | What the parser expects behind a file's header is what the reader sends, scanned or not |
| ArchiveEntries.GroupParses | src/archive.rs:1001-1110 | An entry in front of any other bytes is taken completely and has its effect |
| ArchiveEntries.StreamParses | src/archive.rs:1001-1110 | The stream of any list of entries is taken apart into exactly these entries |
| ArchiveEntries.StreamParsesInCalls | src/archive.rs:1001-1110 | So it is in any division into calls |
| ArchiveEntries.ListedAll | src/archive.rs:878-884 | List mode evaluates exactly the headers of the entries, in order |
| Extraction.EntryAfter | src/archive.rs:886-983 | One entry becomes what was archived and nothing else changes but directories on the way and times of directories |
| Extraction.ExtractAll | src/archive.rs:871-986 | Entries of one tree are extracted without an error in whatever order they come |
| Extraction.LinkAll | src/archive.rs:1123-1127 | Every deferred hard link can be made: its target is a regular file that is there |
| Extraction.TimeAll | src/archive.rs:1131-1141 | Afterwards every archived directory has its recorded times, although creating entries changed them |
| Extraction.DeferredWork | src/archive.rs:1121-1144 | After the deferred work everything is as it was archived and nothing else is there |
| Extraction.ExtractionRestores | src/archive.rs:1001-1144 | Extraction restores the tree, whatever the order of the entries and the division into calls |
| Extractor.ArchiveWrite.constructor | src/archive.rs:809-814 | Nothing read, nothing deferred |
| Extractor.ArchiveWrite.WriteFiles | src/archive.rs:1001-1110 | For any stream, malformed ones included, a call ends in the state the stream language gives, or fails where it says so and leaves behind what it says; the loop ends |
| Extractor.ArchiveWrite.WritePlain | src/archive.rs:1018-1033 | One turn for a file that is not sparse |
| Extractor.ArchiveWrite.WriteSparse | src/archive.rs:1034-1087 | One turn for a sparse file |
| Extractor.ArchiveWrite.WriteDataSegment | src/archive.rs:1039-1050 | As much of the segment as there is; a remainder of 0 stands for the full segment |
| Extractor.ArchiveWrite.WriteHole | src/archive.rs:1051-1058 | A hole is written as zeros; an empty one is an error |
| Extractor.ArchiveWrite.EndOfTurn | src/archive.rs:1061-1086 | The end of the file, or the test whether to wait |
| Extractor.ArchiveWrite.EvalHeader | src/archive.rs:871-986 | Evaluates a header as the stream language says, in list mode without creating anything |
| Extractor.ArchiveWrite.CreateElement | src/archive.rs:886-983 | Creates the entry, remembers the body, defers links and directory times; refuses what exists already |
| Extractor.ArchiveWrite.WriteOthers | src/archive.rs:1121-1144 | Links first, then times; after a failure the links made so far and the directories made for the next one |
| Extractor.Extract | src/archive.rs:1001-1144 | The object restores every archived tree, for every order of entries and every division into calls |
| Extractor.ExtractAnything | src/archive.rs:886-889 | Extraction of any bytes into any directory, whether it succeeds or not: the content of what was there before is still there, unless a header that was read is that of a file with `..` in its path |
| Extractor.List | src/archive.rs:878-884 | The object in list mode prints the headers in order and changes nothing |
| NoOverwrite.OverwrittenIff | src/archive.rs:887-916 | Exactly when a header empties an old file and opens it for writing: it is that of a file whose path does not exist and, once its directories have been made, leads to the old file; every other old file keeps its content |
| NoOverwrite.DotDotOverwrites | src/archive.rs:887-916 | The archive of one file `x/../a`, any content, extracted where there is a file `a` and no `x`: no error, and the old file `a` has the new content |
| NoOverwrite.StraightFileIsNew | src/archive.rs:887-916 | Without `..` in the path, a file that is created is new: the directories made for it are empty, and what existed was refused |
| NoOverwrite.StepSafe | src/archive.rs:886-983 | No step of the parser, whether it goes on or fails, changes the content of a file or link that was there before, and the open file is always a new one, unless the step reads the header of a file with `..` in its path |
| NoOverwrite.CallSafe | src/archive.rs:1001-1110 | So no call does, whether it gets through or fails, unless it reads such a header |
| NoOverwrite.NeverOverwrites | src/archive.rs:886-889 | For every stream, malformed or not, without such a header, every division into calls and every output directory: what was there before keeps its content, after the last call and after the deferred work, whether these got through or failed |
| NoOverwrite.FinishKeeps | src/archive.rs:1121-1144 | The deferred links and times change no content and no link, whatever their paths and whether they get through or fail |
| NoOverwrite.TakenPathIsRefused | src/archive.rs:886-889 | An entry other than a directory whose path exists makes the call fail, and nothing has changed |
| NoOverwrite.TakenPlaceExists | src/archive.rs:886-889 | The path of a place that is taken exists, unless there is a symbolic link; then it exists exactly if the link leads somewhere |
| NoOverwrite.LinkToNothingIsFollowed | src/archive.rs:911-916 | A file entry at the place of a link that leads nowhere is accepted and creates the file the link leads to |
| NoOverwrite.ListingChangesNothing | src/archive.rs:878-884 | List mode changes nothing on any stream, whether it gets through or fails |
| ArchiveSend.Walk | src/archive.rs:450-506 | The walker turns every file with several links whose inode number was seen before, on whatever device, into a link to the first file with that number |
| ArchiveSend.LinksLeadToFiles | src/archive.rs:478-505 | Every archived hard link leads to the first of the files with its inode number, which is archived as a regular file with its own content |
| ArchiveSend.WalkIsTree | src/archive.rs:478-505 | The walker's jobs describe one directory tree, that of `/` with its empty path included |
| ArchiveSend.FoundRestoredIff | src/archive.rs:459-460 | Once the archive is restored, every found entry reads as it was (a file under any of its names: content, mode and times), if and only if files with one inode number have the same content, mode and times |
| ArchiveSend.OneDeviceComesBack | src/archive.rs:459-460 | A tree that does not reach across devices comes back as it was found |
| ArchiveSend.SecondFileIsLost | src/archive.rs:459-460 | Two different files on two devices with one inode number and more than one link: the second is archived as a link to the first and comes back with its content |
| ArchiveSend.TreeInAnyOrder | src/archive.rs:512-519 | They do so in any order |
| ArchiveSend.MessagesCarryGroup | src/archive.rs:541-598 | The messages of an entry carry its header and exactly its data in buffers that fit a chunk, and only the last is marked |
| ArchiveSend.SendData | src/archive.rs:560-579 | The reading loop sends the pieces of the range |
| ArchiveSend.SendSegments | src/archive.rs:568-589 | Data segments are sent, holes skipped, a hole at the end announced by an empty message |
| ArchiveSend.SendEntry | src/archive.rs:519-600 | A worker sends the messages of the entry, or nothing if its header cannot be built |
| ArchiveMerge.StayKeeps | src/archive.rs:709-717 | The next message of the current entry keeps the merge intact |
| ArchiveMerge.PickKeeps | src/archive.rs:719-731 | So does the first message of an entry from any channel |
| ArchiveMerge.DrainedIsWhole | src/archive.rs:707-742 | With all channels drained the stream holds every entry, contiguous and once |
| ArchiveMerge.ArchiveRead.constructor | src/archive.rs:606-608 | No channel chosen or finished |
| ArchiveMerge.ArchiveRead.Collect | src/archive.rs:707-735 | The loop receives until there is more than a chunk or all workers have ended, and it ends |
| ArchiveMerge.ArchiveRead.ReadChunk | src/archive.rs:706-744 | No byte is lost or doubled; chunks are exactly full unless final; final only when every channel is drained and closed; the buffer never exceeds two chunks |
| ArchiveMerge.ArchiveRead.ReadAll | src/archive.rs:706-744 | For every choice of channels the chunks are the pieces of the stream of all entries in some order, each once |
| ArchiveRoundTrip.Archive | src/archive.rs:510-744 | For every distribution of the entries over the workers and every choice of channels the chunks are the pieces of the stream of all entries in some order, each once |
| ArchiveRoundTrip.Restore | src/archive.rs:1001-1144 | The chunks of the stream, in whatever order the entries were taken, restore the archived entries; every found file reads as it was if and only if no two different files share an inode number |
| ArchiveRoundTrip.TreeRoundTrip | src/decryption.rs:386-501 | A walked tree through archiver, encryption, split files, decryption from the files and the secrets alone, and extractor: for every order of entries and every schedule of both pipelines the archived entries are restored, and every found file, under each of its names, reads as it was, if and only if no two different files share an inode number |

## Left out

- Inside of key derivation, password and PIN entry, key files and USB security keys (src/common.rs): no deep state; two arbitrary functions of salts and credential here.
- Internals of the ciphers, hashes and of bzip2: library code behind the interfaces described above.
- The real file system: errors other than those in the model (no space, no permission), and permission checks of directories that are archived without write permission.
- What is outside the output directory: a path that leads out of it, through `..` at its top, an absolute name or the target of a symbolic link, counts as an error; in the program it may lead to something.
- Paths as text: a slash or `.` at the end of a path is dropped, and a symbolic link with an empty target counts as one to its own directory; the system refuses some of these.
- Extraction without an output directory, into the current one: the model always has an output directory. Without one the entry of the archived root `/`, whose path is empty, cannot be opened for its permissions, and extraction fails.
- Hard links are names of the file at their target; link counts and later changes through one of the names are not modelled.
- Other systems: paths are not converted from Windows separators, and names that are not UTF-8 are taken as they are, where the program replaces or refuses them.
- Sparse allocation on disk (`drill_hole`): it does not change the content.
- Times before 1970 and fractions of a second: the format stores whole seconds since 1970.
- Files that change while they are archived: the size, the scan for holes and the content are those of one moment.
- Integer overflow counts as a failure, as in a build with overflow checks; a release build wraps around. It needs 2^32 chunks, which the theorems about whole files exclude, or an archive header whose holes do not fit its file size.
- Choice of paths, exclusion of the output file, verbose output and progress dots.
- How many threads are started for a given number of processors.
- ArchiveMerge.ArchiveRead.TryChannel: a channel that has ended stays in the selection, and picking it again changes nothing; the model picks only channels that are not known to have ended, so that its loop ends without an assumption about fairness.
- ArchiveMerge.ArchiveRead.ReadAll: is about workers that end regularly; if one fails in the middle of an entry, only the statements of `ReadChunk` about bytes and chunks hold, and `join_threads` reports the error.
- AnyRun.AnyRunEnds: is about a reader that can deliver its next chunk or fails. The archiver's own channels, between walker, workers and chunk reader, have no statement about progress; after a failure of the writer, joining archive workers that are blocked on full channels may never return.
- EncryptFaults.TruncatedIff: `io_chunks` returns the read error without waiting for the other threads, so the program may also end before they get through; then a beginning of these chunks was written.
- Pipeline.OrderedKeeps: a resegmenter that cannot go on fails at the end of its input or by a crash at any time; the model does not say at which payload.
- ArchiveStream.CutAnywhere: is about a second part that is not empty; `CutGuard.EmptyCallIff` says when an empty call changes nothing. The writer makes an empty call only for an empty archive.
- NoOverwrite.NeverOverwrites: is about contents and links, and about streams without `..` in the paths of files, as the code does not keep more (see above). A directory entry with the path of an existing file changes the permissions and times of that file, as in the program.
- EndToEnd.ForgedBodyWritesOnlyData: somebody without the key may use any part of the boxes of this file and any other bytes, but cannot make boxes under its AES key; that is what an ideal AEAD means.
- ArchiveRoundTrip.TreeRoundTrip: entries whose headers do not fit 16 bit lengths are skipped by the archiver with a message; the theorem is about trees without such entries.
- Stale files of an earlier series: reading takes every consecutive file that exists, and the model's series is what was written.
