# fileloft: a verified model

fileloft is a tus 1.0.0 upload server. A byte string arrives in chunks; each chunk becomes a numbered object beside a
JSON record; the objects are reassembled under the limits of the storage service; a lock per upload keeps concurrent
requests apart. This project models that machinery in Dafny and proves what it does, from the names of the files up to
whole runs of concurrent requests.

`dafny verify dfyconfig.toml` checks everything.

## How the layers fit

| layer | modules | what it is |
|---|---|---|
| names | `Decimal`, `Text`, `Names`, `Listing` | storage keys as strings, printed and parsed; sorted part listings |
| directory | `Directory` | one flat map of file names to contents, and each upload's view of it, a *slot* |
| stores | `FileStores`, `MemoryStores`, with `Slots` and `Entries` as their specifications | the two stores as classes that read and write step by step |
| handlers | `Handlers`, with `Protocol` as its specification | POST, PATCH, GET, HEAD and DELETE over either store |
| meaning | `Refinement`, `Worlds`, `Lengths`, `Reference`, `Concatenation`, `Runs` | both stores are one append-only byte string per upload |
| answers | `Answers`, `Histories` | what every request is answered in any state, and what an upload's record says about the requests of a run |
| concurrency | `Locks`, `Lockers`, `Steps`, `Interleaving`, `Concurrency`, `Progress`, `Recovery`, `UnlockedReads` | the handlers cut into single file accesses and interleaved under the lock |
| cloud assemblies | `ObjectMaps`, `S3`, `Blobs`, `Azure`, `Gcs`, `CloudKeys`, `CloudStores` | three ways to compute one concatenation |
| codecs and readers | `Base64`, `Metadatas` with `Rfc4648`, `Rfc3629` and `HeaderGrammar`, `Locations`, `ChannelReaders`, `ChecksumReaders` | headers, URLs, streaming readers |

Each class method is proved equal to a specification function on the state before; each specification function is then
related to something simpler. `Refinement.Upload` is the reference that everything above the stores is measured
against: a record and the bytes accepted so far. The chain for a download is: files by name, slots by ID, slot
operations, handlers, reference uploads, the concatenation of the accepted chunks.

## Main results

1. **Refinement over whole runs** (`Runs.RunRefines`, `Runs.UploadRefines`, `Runs.StoresAgree`,
   `Runs.DownloadAfterRun`). Take any set of uploads, one or many. After any run of requests, each of them is in either
   store what the reference has, and a download returns its accepted chunks end to end. Requests to these uploads must
   be benign; requests to other uploads are free, because a request leaves every other upload as it is
   (`Worlds.StepElsewhere`). Final uploads, and POSTs under an ID in use, are part of the reference.
2. **Exactly when it holds** (`Runs.BenignIff`). As long as there is room for another part, a request leaves its upload
   as the reference has it if and only if it is benign. In detail: PATCH, if and only if it does not add an empty chunk
   to a sealed upload that has content or whose completion is refused this time (`Refinement.PatchIff`, witness
   `Refinement.EmptyPatchErases`). POST, in memory always; on disk over an unsealed upload if and only if that has no
   bytes, and over a sealed one if and only if the POST completes the new upload, or both are empty and it writes
   nothing (`Refinement.PostOverIff`). A final POST, by a condition on the partials, the hook, the body and what was
   there before (`Concatenation.FinalOverIff`); under a fresh ID on disk it keeps the joined bytes if and only if there
   are none, the hook refuses, or it carries a body that is refused (`Concatenation.FinalTailOnDiskIff`).
3. **Lengths, in any state of either store** (`Lengths.PatchIsLater`, `Lengths.RunIsLater`, `Lengths.LengthKeptIff`,
   `Lengths.LengthsStayOk`). Offset and length are never taken back; PATCH keeps the length obligations if and only if
   it declares no length below the offset (witness `Lengths.OutgrownIsStuck`), and a final POST if and only if the
   joined length is within the limit or, if joining fails, a length was given or promised
   (`Lengths.FinalLengthKeptIff`).
4. **Answers, in any state of either store** (`Answers.PatchAnswersIff`, `Answers.PatchRefusedBecause`,
   `Answers.PostAnswersIff`, `Answers.DeleteAnswersIff`, `Answers.GetAnswersIff`, `Answers.HeadAnswersIff`). Exactly when
   each request succeeds, what it is answered otherwise, and what it leaves (`Answers.PatchLeavesOnDisk`,
   `Answers.PostLeaves`, `Answers.DeleteLeaves`); no byte is stored when the digest is wrong
   (`Refinement.ChecksumGates`). All of it is said in terms of the stored record and the request's own fields.
   **Over runs**, an upload expires exactly when the time to live has passed since the POST that created it
   (`Histories.GoneIff`), and it can be joined exactly when that POST asked for a partial and the accepted chunks have
   the length declared by it or by a later PATCH (`Histories.FetchedAfterRun`).
5. **Concurrency** (`Concurrency.MutualExclusion`, `Concurrency.Serializable`, `Concurrency.HeadSeesPrefixIff`,
   `Concurrency.OffsetAcceptedOnce`). Any number of requests, interleaved file access by file access, come to what the
   serial run in the order of lock acquisition comes to. An unlocked HEAD reports offset and length after a prefix of it
   that has every answered request in it, with two exceptions that are stated exactly. One offset is accepted at most
   once. As long as released locks reach the shared set, an ID is held exactly while some task works on the upload
   (`Interleaving.HeldIff`), and from any moment on, any waiting task can be served next (`Progress.CanBeServed`).
6. **Crash points, for each upload by itself** (`Recovery.AlwaysRecoverable`, `Recovery.RecoveredFromDiskIff`). Files
   are emptied and filled byte by byte. At every moment of any interleaving, the bytes of such a prefix can be read back
   from parts or final object, and what is on disk is enough to tell which, except exactly while the record itself is
   being written, or while a DELETE has removed the data and not yet the record. Asked is only that the upload is well
   formed at first and that no PATCH to it reopens a sealed upload; other uploads, and DELETEs of this one, are free.
7. **Reassembly.** The S3 re-chunker (`S3.Multipart.UploadParts`), the Azure rounds (`Azure.AzureUpload.CommitMany`) and
   the GCS two-level compose (`Gcs.GcsUpload.ComposeAll`) produce the plain concatenation, with exact conditions for
   success; `Blobs.AssembledAlike` says the last two leave the same container. If joining fails, no
   bytes are lost (`Blobs.PartlyJoined`). `CloudStores` finalises, concatenates and completes final POSTs with them.
8. **Names** (`Names.NameInjective`, `Names.ListedIndexOfName`, `Directory.SlotsDetermineFiles`,
   `CloudKeys.BeginsLikePartIff`). Keys of valid IDs never coincide, so a listing in a shared directory returns one
   upload's parts and a delete removes one upload's files. An otherwise well-formed ID is refused exactly when it could
   be such a key (`Names.ValidIff`). For the cloud stores, which list by prefix, it is stated
   exactly whose keys a listing returns.
9. **Codecs.** Metadata round-trips exactly when the wire format can carry it (`Metadatas.RoundTripIff`), which covers
   everything that was parsed. Which headers parse, and to what, is told by a grammar (`HeaderGrammar.HeaderIff`) over
   base64 as the digits of one big number in the alphabet of RFC 4648 (`Rfc4648.EncodeIsSpelling`, `Rfc4648.DecodeIff`)
   and UTF-8 as the encoding of scalar values (`Rfc3629.ValidIff`). A Location gives its ID back exactly when the base
   path cannot be mistaken inside it (`Locations.LocationIff`), for any base path; and which ID is read from any other
   URL is `Locations.ExtractIff`.

## Where the code differs from what one would expect

- A zero-byte PATCH at the end of a finalised upload is accepted. On a part store it replaces the data by an empty
  object (crates/fileloft-core/src/handler/patch.rs:133-142, crates/fileloft-store-fs/src/store.rs:248-284).
- A final POST concatenates and then finalises. On a part store the second step finds no parts and replaces the joined
  data by an empty object, although the record keeps the joined length
  (crates/fileloft-core/src/handler/post.rs:181-185).
- PATCH may declare a length below the current offset; after that the upload can neither grow nor be downloaded
  (crates/fileloft-core/src/handler/patch.rs:79-89).
- The in-memory store's write ignores the stored offset, so a final POST with a body overwrites the beginning of the
  joined bytes and moves the offset back (crates/fileloft-store-memory/src/store.rs:86-120).
- An Azure or GCS concatenation that names one source in two different groups of 32 fails, because the first group has
  removed it; within one group repeats are fine (crates/fileloft-store-azure/src/store.rs:287-335).
- A GCS compose of more than 1024 sources fails after the sources have been replaced by temporaries
  (crates/fileloft-store-gcs/src/store.rs:408-435).
- Encoding metadata with an empty value does not round-trip: it comes back as a key without a value
  (crates/fileloft-core/src/info.rs:104-142). Parsing never yields such a value.
- An ID that properly begins with the one segment of the base path is not recovered from its own Location
  (crates/fileloft-core/src/handler/post.rs:219-254).
- A concatenation on Azure, GCS or S3 removes the partials' data and leaves their records, which still say that they are
  complete. Another final POST over one of them passes the checks and fails on the data
  (crates/fileloft-store-azure/src/store.rs:449-468, crates/fileloft-store-s3/src/store.rs:699-720). And since the
  POST goes on to finalise and finds no parts, a final POST that reports success there leaves none of the bytes
  (`CloudStores.FinalPostAzure`, `CloudStores.FinalPostGcs`, `CloudStores.FinalPostS3`).
- A prefix listing of `x` also returns the keys of an upload called `x_part_...`, and the parts and temporaries of one
  called `x_part`; both are accepted IDs (crates/fileloft-core/src/info.rs:31-69). Finalising `x` then takes them for
  its own and removes them (`CloudStores.GatheredIff`).
- A POST under the ID of an unsealed upload with bytes, which a pre-create hook can ask for, puts the old bytes in front
  of the new ones on a part store (crates/fileloft-core/src/handler/post.rs:105-120, `Refinement.PostOverParts`).
- A DELETE removes the data before the record, so in between the record promises bytes that are nowhere
  (crates/fileloft-store-fs/src/store.rs:286-294, `Recovery.GuttedIsLost`).
- A final POST does not take the partials' locks. While a PATCH is filling the final object of a partial, the record
  already says that it is complete, and the final POST would join what is there so far
  (crates/fileloft-core/src/handler/post.rs:256-280, `UnlockedReads.HalfSealedIsShort`).
- A final upload may be longer than the server's limit, which is not compared with the joined length
  (crates/fileloft-core/src/handler/post.rs:61-68, `Lengths.FinalLengthKeptIff`).
- The record is rewritten in place, so a HEAD or a crash may meet an unreadable one, and a HEAD during a PATCH that
  declares a length may see the new length with the old offset (crates/fileloft-store-fs/src/store.rs:151-156).

## Model

| member | source | states |
|---|---|---|
| Seqs.FlatOfFlats | crates/fileloft-store-azure/src/store.rs:318-331 | joining in groups and then joining the groups gives the plain concatenation |
| Decimal.ParseOfDec | crates/fileloft-store-fs/src/store.rs:159-187 | a part index printed in decimal parses back to itself, for every u32 |
| Decimal.DecInjective | crates/fileloft-store-azure/src/store.rs:325-326 | two numbers with the same decimal spelling are equal |
| Decimal.DecIff | crates/fileloft-store-fs/src/store.rs:159-187 | a number is printed as its one decimal numeral without leading zeros |
| Text.RFind | crates/fileloft-core/src/info.rs:56-69 | the last position where the token occurs, or none when it occurs nowhere |
| Names.TokenBeforeDigits | crates/fileloft-core/src/info.rs:56-69 | in `x_part_digits` the last token is the one before the digits, even when x contains the token |
| Names.OtherToken | crates/fileloft-core/src/info.rs:56-69 | a name ending in `_tmp_digits` has no numbered `_part_` suffix, and the other way round |
| Names.ParseOfName | crates/fileloft-store-fs/src/store.rs:118-142 | every storage key of a valid ID reads back as that ID, its role and its index |
| Names.ValidIff | crates/fileloft-core/src/info.rs:31-69 | an ID is accepted if and only if it has 1 to 128 letters, digits, `-`, `_` and `.`, is no single dot, has no two dots together, and is no string followed by `.info`, or by `_part_` or `_tmp_` and digits |
| Names.PlainIsValid | crates/fileloft-core/src/info.rs:13-51 | every string of 1 to 128 letters, digits and hyphens is accepted, hence every generated UUID |
| Names.KeysAreNotIds | crates/fileloft-core/src/info.rs:53-69 | the keys of record, parts and temporaries, spelled out, are never accepted as IDs |
| Names.NameInjective | crates/fileloft-core/src/info.rs:31-69 | keys of valid IDs coincide only for the same ID, role and index |
| Names.ListedIndexOfName | crates/fileloft-store-fs/src/store.rs:159-187 | among the keys of all valid IDs, the strip-prefix-and-parse filter accepts exactly this upload's parts and gets their index right |
| Listing.AscendingUnique | crates/fileloft-store-fs/src/store.rs:159-187 | a set of indices has only one ascending listing, so the order the directory was read in cannot matter |
| Listing.SortByIndex | crates/fileloft-store-fs/src/store.rs:159-187 | the result is ordered by index and is a permutation of the input |
| Listing.CollectedSorted | crates/fileloft-store-fs/src/store.rs:159-187 | sorting a complete collection of parts yields each part once, in ascending index order, under its own name |
| Directory.ViewAfter | crates/fileloft-store-fs/src/store.rs:118-157 | writing or removing one file of an upload changes that role of that upload and no other upload |
| Directory.OtherViewsKept | crates/fileloft-core/src/info.rs:53-69 | a change confined to one ID's keys leaves every other valid upload as it was |
| Directory.ListingAccepts | crates/fileloft-store-fs/src/store.rs:159-187 | in a directory holding many uploads, a file is listed for an upload exactly when it is one of its parts |
| Directory.SlotsDetermineFiles | crates/fileloft-store-fs/src/store.rs:286-294 | two directories that show the same uploads hold the same files, so an emptied upload leaves no file behind |
| FileStores.FileStore.ListPartsSorted | crates/fileloft-store-fs/src/store.rs:159-187 | returns this upload's part files in index order, whatever order the directory is enumerated in |
| FileStores.FileStore.CreateUpload | crates/fileloft-store-fs/src/store.rs:72-87 | an invalid ID changes nothing; a valid one gets its record and keeps whatever else was stored under it |
| FileStores.FileStore.GetUpload | crates/fileloft-store-fs/src/store.rs:89-100 | found exactly when the ID is valid and has a record |
| FileStores.FileStore.WriteChunk | crates/fileloft-store-fs/src/store.rs:199-242 | through all file accesses, adds one part and the new offset or changes nothing, and touches no other upload |
| FileStores.FileStore.CopyParts | crates/fileloft-store-fs/src/store.rs:248-276 | the loop leaves in the final file the parts' bytes in index order |
| FileStores.FileStore.Finalize | crates/fileloft-store-fs/src/store.rs:248-284 | the final file holds all parts in index order, no part is left, every other upload is unchanged |
| FileStores.FileStore.Delete | crates/fileloft-store-fs/src/store.rs:286-294 | nothing of this upload is left and every other upload is unchanged |
| FileStores.FileStore.DeclareLength | crates/fileloft-store-fs/src/store.rs:296-304 | the length is set once; a second declaration is an error and changes nothing |
| FileStores.FileStore.ReadContent | crates/fileloft-store-fs/src/store.rs:306-317 | the final object's bytes for a complete upload, an error otherwise |
| FileStores.FileStore.Concatenate | crates/fileloft-store-fs/src/store.rs:319-356 | copies the partials' final files in request order, repeats allowed, up to the first unreadable one; the record changes only on success |
| MemoryStores.MemoryStore.CreateUpload | crates/fileloft-store-memory/src/store.rs:50-64 | the entry under the ID is replaced by an empty one; no other entry changes |
| MemoryStores.MemoryStore.WriteChunk | crates/fileloft-store-memory/src/store.rs:86-120 | writes at the offset it is given, growing the buffer with zeros, or changes nothing |
| Entries.OverwriteAt | crates/fileloft-store-memory/src/store.rs:86-120 | byte by byte: the new bytes at the offset, the old ones around them, zeros in a gap |
| MemoryStores.MemoryStore.Delete | crates/fileloft-store-memory/src/store.rs:135-141 | removes exactly this entry; an error when there is none |
| MemoryStores.MemoryStore.DeclareLength | crates/fileloft-store-memory/src/store.rs:143-154 | the length is set once; a second declaration is an error and changes nothing |
| MemoryStores.MemoryStore.ReadContent | crates/fileloft-store-memory/src/store.rs:156-166 | the buffer of a complete upload, an error otherwise |
| MemoryStores.MemoryStore.Concatenate | crates/fileloft-store-memory/src/store.rs:168-191 | all buffers in request order, or no change when one is missing |
| Handlers.TusHandler.PatchWhileLocked | crates/fileloft-core/src/handler/patch.rs:56-142 | the sequence of store calls with its early returns has the effect and answer of the specified PATCH, on either store |
| Handlers.TusHandler.Patch | crates/fileloft-core/src/handler/patch.rs:20-160 | the whole handler: a request refused before the lock leaves the store untouched |
| Handlers.TusHandler.Get | crates/fileloft-core/src/handler/get.rs:13-65 | answers as specified and changes nothing |
| Handlers.TusHandler.Head | crates/fileloft-core/src/handler/head.rs:14-64 | answers as specified, without lock, and changes nothing |
| Handlers.TusHandler.Delete | crates/fileloft-core/src/handler/delete.rs:14-56 | removes the upload after hook and lock, or changes nothing |
| Handlers.TusHandler.FetchPartialInfos | crates/fileloft-core/src/handler/post.rs:256-280 | the loop returns the records in request order or the first error |
| Handlers.TusHandler.PostFinal | crates/fileloft-core/src/handler/post.rs:119-189 | create, fetch, concatenate, write and complete, stopping at the first error with the store as it then is |
| Handlers.TusHandler.Post | crates/fileloft-core/src/handler/post.rs:19-217 | the whole handler: a request that fails a check creates nothing |
| Handlers.TusHandler.Handle | crates/fileloft-core/src/handler/mod.rs:118-133 | dispatch by method amounts to one step of the specified state machine |
| Refinement.NextIsFresh | crates/fileloft-store-fs/src/store.rs:228-234 | in a contiguous upload the number of parts is an index no part has |
| Refinement.NextPartAppends | crates/fileloft-store-fs/src/store.rs:228-240 | the new part's bytes come behind those of all earlier parts, and the indices stay 0 to k-1 |
| Refinement.WriteAppends | crates/fileloft-store-fs/src/store.rs:199-242 | on either store a chunk at the stored offset is appended exactly when it arrives whole and fits; otherwise nothing changes |
| Refinement.ConcludeKeepsContent | crates/fileloft-core/src/handler/patch.rs:133-142 | completion changes where the bytes are and not what they are; a refused completion changes neither |
| Refinement.PatchUnsealed | crates/fileloft-core/src/handler/patch.rs:56-142 | before sealing, PATCH does to either store what it does to an append-only byte string, and keeps the store invariant |
| Refinement.PatchSucceedsIff | crates/fileloft-core/src/handler/patch.rs:56-142 | in any state of either store, the tus rules as one condition: PATCH succeeds if and only if upload open, offset equal, not expired, length within the limit, digest right, chunk within the length, and completion accepted if it comes to that; the answer is the offset behind the chunk |
| Refinement.PatchRecord | crates/fileloft-core/src/handler/patch.rs:56-142 | in any state of either store, PATCH leaves exactly the reference's record: length as declared, offset moved by an accepted chunk, nothing else touched |
| Refinement.PatchIff | crates/fileloft-core/src/handler/patch.rs:56-142 | PATCH refines the reference if and only if it does not add an empty chunk to a sealed upload that has content or whose completion is refused |
| Refinement.EmptyPatchErases | crates/fileloft-core/src/handler/patch.rs:123-142 | after an accepted empty PATCH on a sealed upload the part store serves no bytes while the memory store still serves them all |
| Refinement.SealedWrite | crates/fileloft-store-fs/src/store.rs:228-284 | what such a PATCH leaves: empty data if completion is accepted, a stray empty part if it is refused |
| Refinement.ChecksumGates | crates/fileloft-core/src/handler/patch.rs:91-124 | in any state, with a checksum the stored bytes and the offset change and success is reported only if the digest of the whole body is the expected one |
| Refinement.PostSucceedsIff | crates/fileloft-core/src/handler/post.rs:128-189 | in any state of either store, a non-final POST succeeds if and only if its body, if any, fits and completion is accepted if it comes to that, and answers with the number of bytes |
| Refinement.PostOverIff | crates/fileloft-core/src/handler/post.rs:105-189 | over whatever is stored under its ID, a non-final POST leaves the reference upload if and only if the store is memory, or nothing unsealed has bytes there, or what is sealed there is replaced by completion or is as empty as the new upload |
| Refinement.PostOverParts | crates/fileloft-core/src/handler/post.rs:105-151 | over an unsealed upload with bytes the new upload has the old bytes in front of its own |
| Refinement.CreateOverIff | crates/fileloft-store-fs/src/store.rs:72-87 | creating over an existing upload leaves a well-formed one exactly when the old one holds no bytes and, if sealed, the new one is declared empty |
| Worlds.StepElsewhere | crates/fileloft-core/src/handler/mod.rs:118-133 | a request to one upload, whatever it is, leaves every other upload as it is |
| Lengths.PatchIsLater | crates/fileloft-core/src/handler/patch.rs:56-142 | in any state of either store, PATCH never moves the offset back, keeps a length once set, caps a declared one by the limit and touches no other field of the record |
| Lengths.RunIsLater | crates/fileloft-core/src/handler/patch.rs:56-142 | over any run that does not delete or recreate the upload, its offset and length are never taken back |
| Lengths.LengthKeptIff | crates/fileloft-core/src/handler/patch.rs:79-89 | in any state, PATCH keeps offset within length and length within the limit if and only if it declares no length below the offset |
| Lengths.OutgrownIsStuck | crates/fileloft-core/src/handler/patch.rs:79-89 | every PATCH to an upload that has outgrown its declared length fails and changes nothing, and it cannot be downloaded |
| Lengths.FinalLengthKeptIff | crates/fileloft-core/src/handler/post.rs:119-189 | in any state, a final POST leaves offset within length and length within the limit if and only if the joined total is within it, or joining fails and a length was declared or deferred |
| Lengths.LengthsStayOk | crates/fileloft-core/src/handler/post.rs:50-82 | as long as the requests to an upload declare lengths honestly and join no more than the limit, it stays within its length and the limit, and a missing length means a deferred one, whatever is requested of other uploads |
| Reference.ContentIsChunks | crates/fileloft-core/src/handler/patch.rs:109-124 | the reference content of an upload is the list of bodies accepted since it was created, end to end |
| Answers.PatchAnswersIff | crates/fileloft-core/src/handler/patch.rs:20-160 | in any state, PATCH is answered Ok if and only if version, content type, offset header, ID and lock are in order, the upload exists, the rules of length, checksum and body are kept, and completion, if it comes to that, is accepted; the answer is then the end of the chunk |
| Answers.PatchNotAdmitted | crates/fileloft-core/src/handler/patch.rs:20-60 | each answer before the rules: a PATCH to an upload that does not exist is NotFound, and nothing changes |
| Answers.PatchTurnedAway | crates/fileloft-core/src/handler/patch.rs:59-77 | a final upload, another offset, or an expired upload: which answer is given exactly when, and that nothing changes |
| Answers.PatchRefusedBecause | crates/fileloft-core/src/handler/patch.rs:79-160 | on either store, every other refusal is answered with the first thing that speaks against the request, from length and checksum to bounds and hook |
| Answers.PatchLeavesOnDisk | crates/fileloft-core/src/handler/patch.rs:79-160 | the files that a PATCH leaves on a part store in any state: declared length, one more part, or the sealed object, and nothing else |
| Answers.PatchLeavesInMemory | crates/fileloft-core/src/handler/patch.rs:79-160 | the same in memory, where sealing changes nothing |
| Answers.HeadAnswersIff | crates/fileloft-core/src/handler/head.rs:14-64 | each answer of HEAD exactly, and that it reports offset and length of the record |
| Answers.GetAnswersIff | crates/fileloft-core/src/handler/get.rs:13-65 | each answer of GET exactly, and that it returns the stored bytes of a complete upload |
| Answers.DeleteAnswersIff | crates/fileloft-core/src/handler/delete.rs:14-56 | DELETE is answered Ok if and only if version, termination, ID, hook and lock allow it and the upload exists; every other answer exactly |
| Answers.DeleteLeaves | crates/fileloft-core/src/handler/delete.rs:14-56 | after Ok nothing of the upload is left and all others are as they were; a refused DELETE changes nothing |
| Answers.GoneForGood | crates/fileloft-core/src/handler/delete.rs:14-56 | after a DELETE that succeeded, HEAD, GET, PATCH and another DELETE answer NotFound |
| Answers.PostTurnedAway | crates/fileloft-core/src/handler/post.rs:19-104 | what a POST that is not in order is answered, and that it changes nothing |
| Answers.PostAnswersIff | crates/fileloft-core/src/handler/post.rs:19-217 | a POST that is not final is answered Ok if and only if it is in order, its body fits, and completion is accepted; the answer is the number of bytes it brought |
| Answers.PostFailsBecause | crates/fileloft-core/src/handler/post.rs:123-189 | a POST in order that fails does so for its body or the hook |
| Answers.PostLeaves | crates/fileloft-core/src/handler/post.rs:70-120 | whatever is answered, the record is the one that the request asks for: length or deferral, expiry, partial or not, and the bytes it brought |
| Answers.HeadAfterPost | crates/fileloft-core/src/handler/head.rs:14-64 | HEAD right after a POST reports the length it asked for and the bytes it brought |
| Answers.FetchAnswers | crates/fileloft-core/src/handler/post.rs:256-280 | the partials of a final POST are fetched, or the first one that cannot be used decides the error |
| Answers.FinalPostRefused | crates/fileloft-core/src/handler/post.rs:123-189 | a final POST over a partial that cannot be used is answered so, and leaves an empty record |
| Answers.JobIsHandler | crates/fileloft-core/src/handler/delete.rs:14-56 | a task of the interleaved system does to its upload, and answers, what the PATCH, GET or DELETE handler does |
| Histories.RecordIsCreators | crates/fileloft-core/src/handler/post.rs:70-104 | after any run, an upload is there if and only if it was created and not deleted since, and its expiry, kind and partials are those that its POST asked for |
| Histories.GoneIff | crates/fileloft-core/src/handler/get.rs:13-65 | after any run, GET, HEAD and PATCH answer Gone if and only if they are admitted and the time to live has passed since the POST that created the upload; without one it never expires |
| Histories.HistoryTold | crates/fileloft-core/src/handler/patch.rs:79-89 | along every reference run, the record tells what POST and PATCH declared: length, deferral and kind |
| Histories.UsablePartialIff | crates/fileloft-core/src/handler/post.rs:256-280 | an upload can be joined if and only if its POST asked for a partial and the accepted chunks have the length declared by that POST or a later PATCH |
| Histories.FetchedAfterRun | crates/fileloft-core/src/handler/post.rs:256-280 | on a server that has kept these uploads, fetching them succeeds exactly then |
| Histories.AnsweredChunk | crates/fileloft-core/src/handler/patch.rs:126-160 | a PATCH answered Ok adds exactly its body to the accepted chunks and reports their length; one answered otherwise adds nothing, unless only completion was refused |
| Concatenation.FetchIff | crates/fileloft-core/src/handler/post.rs:256-280 | fetching succeeds exactly when every named upload is a completed partial, and gives their records in order |
| Concatenation.SizesAddUp | crates/fileloft-store-fs/src/store.rs:350-354 | the sum of the declared sizes is the number of bytes of the partials together |
| Concatenation.ConcatenateInMemory | crates/fileloft-store-memory/src/store.rs:168-191 | joins the fetched partials' bytes in request order, repeats included, and always succeeds |
| Concatenation.ConcatenateOnDisk | crates/fileloft-store-fs/src/store.rs:319-356 | succeeds exactly when every partial is sealed, with the same bytes and total as the memory store; otherwise it leaves the data of the partials before the first unsealed one and no new record |
| Concatenation.TotalIff | crates/fileloft-store-fs/src/store.rs:350-354 | the recorded length is the real one exactly when it fits a u64 |
| Concatenation.FinalTailInMemory | crates/fileloft-core/src/handler/post.rs:128-189 | after the join, memory keeps the joined bytes unless a body that fits is written over their beginning, and success is as stated for every body and hook |
| Concatenation.FinalTailOnDiskIff | crates/fileloft-core/src/handler/post.rs:128-189 | after the join, a part store keeps the joined bytes if and only if there are none, completion is refused, or a body is refused first; otherwise it reports success and leaves empty data |
| Concatenation.TailKeepsInMemoryIff | crates/fileloft-core/src/handler/post.rs:128-189 | the exact condition for a well-formed upload of the joined bytes in memory |
| Concatenation.TailKeepsOnDiskIff | crates/fileloft-core/src/handler/post.rs:128-189 | the exact condition for a well-formed upload of the joined bytes on a part store |
| Concatenation.FinalPostUnusable | crates/fileloft-core/src/handler/post.rs:119-126 | if a partial cannot be used, the POST fails and leaves an empty record over what was there |
| Concatenation.FinalPostMemory | crates/fileloft-core/src/handler/post.rs:119-189 | a whole final POST in memory, with or without body and under any ID: the partials' bytes in request order, with the body over their beginning if it fits |
| Concatenation.FinalPostDisk | crates/fileloft-core/src/handler/post.rs:119-189 | the same POST on a part store: over unsealed partials it fails and leaves the data of those before the first unsealed one beside a record of no bytes; otherwise the rest of the POST runs on the joined data and whatever parts there were |
| Concatenation.FreshFinalPostDisk | crates/fileloft-core/src/handler/post.rs:119-189 | under a fresh ID and over sealed partials: the joined bytes if there are none, the hook refuses or a body is refused; otherwise a reported success with empty data |
| Concatenation.TailKeepsOverIff | crates/fileloft-core/src/handler/post.rs:128-189 | over leftover parts the joined bytes stay if and only if completion is accepted and the parts are those very bytes |
| Concatenation.FinalOverIff | crates/fileloft-core/src/handler/post.rs:119-189 | a final POST, under any ID and on either store, leaves the reference upload if and only if partials, hook, body and what was there before are as stated |
| Runs.BenignIff | crates/fileloft-core/src/handler/mod.rs:118-133 | as long as there is room for another part, any request leaves its upload as the reference has it if and only if it is benign |
| Runs.StepRefines | crates/fileloft-core/src/handler/mod.rs:118-133 | one request, to whatever upload, keeps each upload of a given set as the reference has it |
| Runs.RunRefines | crates/fileloft-store-fs/src/store.rs:199-317 | the same for every run and every set of uploads, on either store, final uploads included; only requests to the set are restricted |
| Runs.UploadRefines | crates/fileloft-store-fs/src/store.rs:199-317 | the same for one upload, with conditions only on the requests that go to it |
| Runs.StoresAgree | crates/fileloft-store-memory/src/store.rs:86-166 | the same run from empty stores leaves part store and memory store with the same uploads |
| Runs.DownloadIsContent | crates/fileloft-core/src/handler/get.rs:13-65 | a download from the part store returns the accepted bytes, the memory store returns the same, and it succeeds exactly for complete, unexpired, sealed uploads |
| Runs.DownloadAfterRun | crates/fileloft-core/src/handler/get.rs:13-65 | after any such run, a successful GET returns the concatenation of the list of accepted chunks, from both stores |
| Runs.HeadShowsLength | crates/fileloft-core/src/handler/head.rs:14-64 | HEAD reports exactly the number of bytes accepted so far |
| Runs.BytesOnlyGrow | crates/fileloft-core/src/handler/patch.rs:56-142 | over any run without deletion, the stored bytes of an upload only grow at their end |
| Runs.AnswersAgreeIff | crates/fileloft-core/src/handler/mod.rs:118-133 | any request gets the same answer from both stores, success or error, except exactly: a GET of a complete upload that is not sealed, and a final POST over unsealed partials or with a body for bytes that are not empty |
| Steps.RecordedEnds | crates/fileloft-store-fs/src/store.rs:248-284 | the file accesses of a first finalisation, run undisturbed, amount to the completion step |
| Steps.PatchEnds | crates/fileloft-core/src/handler/patch.rs:56-142 | the single file accesses of a PATCH, run undisturbed, amount to the handler |
| Steps.DeleteEnds | crates/fileloft-store-fs/src/store.rs:286-294 | the single file accesses of a DELETE, run undisturbed, amount to the handler |
| Steps.StepsAmountToHandler | crates/fileloft-core/src/handler/patch.rs:46-142 | the same for every request that takes the lock |
| Interleaving.AlwaysInv | crates/fileloft-store-memory/src/locker.rs:48-96 | under every schedule the holder of a lock is alone, is on course for its serial result, and idle uploads are what the serial run makes of them |
| Interleaving.HeldIff | crates/fileloft-store-memory/src/locker.rs:48-96 | for every schedule whose releases reach the set, an ID is held if and only if some running task has it |
| Interleaving.WaitingCanAcquire | crates/fileloft-store-memory/src/locker.rs:48-66 | hence a waiting task can acquire its lock if and only if nobody works on its upload |
| Concurrency.MutualExclusion | crates/fileloft-store-memory/src/locker.rs:48-66 | two tasks at work on one upload are the same task, and the upload's ID is held |
| Concurrency.Serializable | crates/fileloft-core/src/handler/patch.rs:46-142 | stored bytes and answers are those of the serial run in the order in which the locks were acquired |
| Concurrency.HeadSeesPrefixIff | crates/fileloft-core/src/handler/head.rs:14-64 | offset and length reported by an unlocked HEAD are those after a prefix of that order that has every answered request in it, if and only if no task is writing the record or has declared a length without having recorded the offset that comes with it |
| Concurrency.HeadOffsetIff | crates/fileloft-core/src/handler/head.rs:14-64 | the offset alone is that of such a prefix if and only if the record is not being written at that moment |
| Concurrency.PatchMovesOffset | crates/fileloft-core/src/handler/patch.rs:63-124 | in any state, a PATCH moves the offset by the length of its body if accepted and not at all otherwise |
| Concurrency.RecordsLater | crates/fileloft-core/src/handler/patch.rs:63-89 | in the serial order an upload's offset and length are never taken back |
| Concurrency.OffsetAcceptedOnce | crates/fileloft-core/src/handler/patch.rs:63-70 | two nonempty PATCHes claiming the same offset are never both accepted |
| Progress.CanFinishAfter | crates/fileloft-store-memory/src/locker.rs:48-96 | from any moment on, a task that has its lock can run to its end undisturbed, leaves and answers what it should, and gives the lock back |
| Progress.CanBeServed | crates/fileloft-store-memory/src/locker.rs:48-96 | from any moment on, a waiting task can be the next to work on its upload, and is answered what the serial run so far makes of its request |
| Recovery.MidRecoverable | crates/fileloft-store-fs/src/store.rs:235-284 | at every step of a PATCH, down to single bytes of a part or the final object, the old bytes or the old and the new can be read back, and the record says which unless it is being written |
| Recovery.AlwaysClean | crates/fileloft-core/src/handler/patch.rs:46-142 | an upload is well formed whenever nobody works on it, under every schedule in which no PATCH to it reopens a sealed upload, whatever happens to others |
| Recovery.DeleteHolds | crates/fileloft-store-fs/src/store.rs:286-294 | at every step of a DELETE the upload can be recovered as it was or as gone, unless the data is removed and the record is not |
| Recovery.GuttedIsLost | crates/fileloft-store-fs/src/store.rs:286-294 | in that case neither: the record promises bytes that are nowhere |
| Recovery.AlwaysRecoverable | crates/fileloft-store-fs/src/store.rs:235-294 | at every moment of every such schedule, all bytes of the upload after a prefix of the serial run that has every answered request in it can be read back from parts or final object |
| Recovery.RecoveredFromDiskIff | crates/fileloft-store-fs/src/store.rs:151-156 | a function of what is on disk alone returns those bytes, with the offset to match, if and only if the record is not being written at that moment and no DELETE has removed the data before it |
| UnlockedReads.StaysPut | crates/fileloft-store-memory/src/locker.rs:48-66 | an upload nobody works on stays as it is until somebody acquires its lock |
| UnlockedReads.ReadsOneMoment | crates/fileloft-core/src/handler/post.rs:123-126 | what a final POST reads of its partials, each at its own moment and without their locks, is what the serial run has made of them at one moment, if they are sealed then and left alone until they are read |
| UnlockedReads.HalfSealedIsShort | crates/fileloft-core/src/handler/post.rs:256-280 | while a PATCH fills the final object, the record counts more bytes than the object has |
| Lockers.MemoryLocker.Poll | crates/fileloft-store-memory/src/locker.rs:51-60 | one look under the mutex is the acquisition step of the interleaved system if the ID is free, and changes nothing otherwise |
| Lockers.MemoryLocker.Acquire | crates/fileloft-store-memory/src/locker.rs:48-66 | granted exactly when some poll before the deadline finds the ID free, and then by that step at the first such poll |
| Lockers.MemoryLock.Release | crates/fileloft-store-memory/src/locker.rs:77-83 | removes exactly this ID: the release step of the interleaved system |
| Lockers.MemoryLock.Drop | crates/fileloft-store-memory/src/locker.rs:85-96 | removes the ID unless released before or the set's mutex is taken, in which case it stays held |
| Locks.LocksMean | crates/fileloft-store-memory/src/locker.rs:48-96 | taking adds exactly this ID to the set, giving back removes exactly this ID, or nothing if the set cannot be reached |
| S3.CutCount | crates/fileloft-store-s3/src/store.rs:30-33 | a stream of n bytes makes max(1, n / 5 MiB rounded up) parts |
| S3.CutUnique | crates/fileloft-store-s3/src/store.rs:450-528 | the parts do not depend on how the bytes were spread over sources and reads |
| S3.LimitInBytes | crates/fileloft-store-s3/src/store.rs:30-33 | at most 10,000 parts means at most 10,000 times 5 MiB bytes, and conversely |
| S3.Multipart.UploadOnePart | crates/fileloft-store-s3/src/store.rs:530-574 | parts are numbered from 1 without gaps; part 10,001 is refused |
| S3.Multipart.DrainBuffer | crates/fileloft-store-s3/src/store.rs:450-528 | leaves less than a part in the buffer, or exactly one when nothing more comes; fails only beyond the limit |
| S3.Multipart.StreamSource | crates/fileloft-store-s3/src/store.rs:450-528 | for every way of splitting a source into reads, its bytes go behind those already taken |
| S3.Multipart.FlushRest | crates/fileloft-store-s3/src/store.rs:450-528 | the last part is 1 byte to 5 MiB, or a single empty part for an empty stream |
| S3.Multipart.UploadParts | crates/fileloft-store-s3/src/store.rs:450-528 | succeeds if and only if the sources exist and fit the limit; parts are well cut and join to the sources; the buffer never exceeds 5 MiB - 1 + 64 KiB |
| S3.Bucket.Assemble | crates/fileloft-store-s3/src/store.rs:353-448 | the destination holds the concatenation and the listed keys are gone, or the bucket is unchanged |
| Blobs.TmpKeyInjective | crates/fileloft-store-azure/src/store.rs:325-326 | temporaries with different numbers have different names |
| Blobs.DistinctIsDisjoint | crates/fileloft-store-azure/src/store.rs:318-331 | distinct sources never ask for one blob in two groups |
| Blobs.Container.Commit | crates/fileloft-store-azure/src/store.rs:287-305 | 1 to 32 sources are joined in order into the destination and removed, or nothing changes when one is missing |
| Blobs.Container.Round | crates/fileloft-store-azure/src/store.rs:318-331 | one temporary per group holds the group's bytes in order, the sources are gone, the rest is unchanged; succeeds exactly when no blob is missing or wanted twice; a failure leaves the finished groups in temporaries and all else as it was |
| Blobs.AssembledAlike | crates/fileloft-store-gcs/src/store.rs:408-435 | whatever number of temporaries they used, two assemblies of the same sources leave the same container |
| Azure.TempsNeeded | crates/fileloft-store-azure/src/store.rs:317-331 | all rounds together make at most n temporaries for n sources |
| Azure.TmpsAreLater | crates/fileloft-store-azure/src/store.rs:317-331 | no later round writes a temporary of an earlier one |
| Azure.NextReduced | crates/fileloft-store-azure/src/store.rs:318-331 | a further round keeps the bytes and leaves no temporary of the round before |
| Azure.AzureUpload.CommitMany | crates/fileloft-store-azure/src/store.rs:307-335 | terminates; succeeds if and only if all sources exist and none is wanted by two groups; then the destination is the concatenation and sources and temporaries are gone; a failure loses no bytes |
| Gcs.GcsUpload.ComposeChunk | crates/fileloft-store-gcs/src/store.rs:311-332 | an empty list is a no-op; otherwise the service's limit of 32 decides |
| Gcs.GcsUpload.ComposeAll | crates/fileloft-store-gcs/src/store.rs:408-435 | succeeds if and only if the sources can be joined in groups and are at most 1024; a failure leaves the finished groups in temporaries and loses no bytes |
| CloudKeys.PartIndexOfKey | crates/fileloft-store-azure/src/store.rs:512-517 | the index read from a part key is the one printed into it, for every prefix, ID and u32 |
| CloudKeys.KeysAreNames | crates/fileloft-store-azure/src/store.rs:317-331 | the keys of parts and temporaries are the prefix and the names of the same roles |
| CloudKeys.ListParts | crates/fileloft-store-gcs/src/store.rs:279-309 | the sorted listing has the listed keys, each once, in the order of the numbers they end with |
| CloudKeys.ListedInOrderIff | crates/fileloft-store-gcs/src/store.rs:279-309 | whatever order a prefix listing comes in, sorting gives the parts in the order of writing if and only if no other key in the store begins like a part of the upload |
| CloudKeys.BeginsLikePartIff | crates/fileloft-core/src/info.rs:31-69 | exactly whose keys a prefix listing returns: the upload's parts, all keys of owners whose ID begins that way, and parts and temporaries of an owner called `{id}_part` |
| CloudKeys.EqualLengthIsolates | crates/fileloft-core/src/info.rs:13-18 | among equally long IDs, as generated ones are, a prefix listing returns one upload's parts only |
| CloudKeys.NotATmp | crates/fileloft-core/src/info.rs:53-69 | no final object or part of a valid ID is a temporary of any upload |
| CloudKeys.FinalizeKeys | crates/fileloft-store-azure/src/store.rs:405-422 | part keys, temporaries and the final key of one upload never meet, and no part is wanted twice |
| CloudStores.FinalizeAzure | crates/fileloft-store-azure/src/store.rs:405-422 | always succeeds: the final blob holds whatever is listed, in part order, and what was listed is gone |
| CloudStores.FinalizeGcs | crates/fileloft-store-gcs/src/store.rs:408-435 | the same if and only if at most 1024 keys are listed; otherwise they are gone and their bytes are in the temporaries |
| CloudStores.FinalizeS3 | crates/fileloft-store-s3/src/store.rs:648-669 | the same if and only if what is listed has at most 10,000 times 5 MiB; otherwise nothing changes |
| CloudStores.GatheredIff | crates/fileloft-store-azure/src/store.rs:405-422 | what finalisation gathers is exactly the upload's parts, and nothing else of the store is touched, if and only if no other key begins like one of them |
| CloudStores.BodyRefusedIff | crates/fileloft-core/src/handler/post.rs:123-160 | the bodies that a final POST refuses are those that write_chunk does not take at offset zero of the joined upload |
| CloudStores.ConcatenateAzure | crates/fileloft-store-azure/src/store.rs:449-468 | succeeds if and only if every partial's data is there and none is wanted by two groups of 32; joins in request order, removes the sources, records the total |
| CloudStores.ConcatenateGcs | crates/fileloft-store-gcs/src/store.rs:475-505 | the same, with at most 1024 partials |
| CloudStores.ConcatenateS3 | crates/fileloft-store-s3/src/store.rs:699-720 | succeeds if and only if all data is there and fits the limit, repeats allowed; otherwise nothing changes |
| CloudStores.PartialsAreSpent | crates/fileloft-store-azure/src/store.rs:449-468 | afterwards the partials' data is gone while their records are untouched, so every further concatenation that names one of them fails |
| CloudStores.FinalPostAzure | crates/fileloft-core/src/handler/post.rs:123-189 | succeeds if and only if the partials can be joined, no body is refused and completion is accepted, and then none of the bytes are left; on failure the joined object stays, or, if joining failed, no bytes are lost |
| CloudStores.FinalPostGcs | crates/fileloft-store-gcs/src/store.rs:475-505 | the same, with at most 1024 partials |
| CloudStores.FinalPostS3 | crates/fileloft-store-s3/src/store.rs:699-720 | the same, within the size limit; if joining fails nothing changes |
| Base64.DecodeOfEncode | crates/fileloft-core/src/info.rs:133-142 | decoding inverts encoding on all byte strings (section 4 of RFC 4648) |
| Base64.EncodeOfDecode | crates/fileloft-core/src/info.rs:104-130 | a text that decodes is the encoding of what it decodes to, so each byte string has one spelling |
| Rfc4648.EncodeIsSpelling | crates/fileloft-core/src/info.rs:133-142 | an encoding is the base-64 digits of the big-endian number of the bytes, filled up with zero bits, each as the character at its place in the alphabet `A-Za-z0-9+/` written out, and padding (section 4 of RFC 4648) |
| Rfc4648.DecodeIff | crates/fileloft-core/src/info.rs:119-124 | a text decodes to some bytes if and only if it is their spelling |
| Rfc4648.DecodedNumber | crates/fileloft-core/src/info.rs:119-124 | a decoded text is letters of the alphabet and padding, and the number that their places are digits of is the bytes |
| Rfc3629.ValidIff | crates/fileloft-core/src/info.rs:120-124 | bytes are accepted as a string if and only if they are the encoding of a sequence of scalar values (section 3 of RFC 3629) |
| Metadatas.SpaceIff | crates/fileloft-core/src/info.rs:107-113 | trimming removes the code points with the property White_Space, listed one by one |
| HeaderGrammar.PairIff | crates/fileloft-core/src/info.rs:107-128 | a piece between commas gives a pair if and only if it is a key alone, or a key, white space with a space in it, and the base64 spelling of a text that is not empty, with white space around |
| HeaderGrammar.HeaderIff | crates/fileloft-core/src/info.rs:104-130 | a header parses if and only if every piece is such a pair or blank; every key then has the value of the last piece that has it |
| Metadatas.Parse | crates/fileloft-core/src/info.rs:104-130 | the loop enters the pairs in order, the last value of a repeated key wins, and the first bad pair is the error |
| Metadatas.ParsedIsEncodable | crates/fileloft-core/src/info.rs:104-130 | whatever parses has trimmed keys without comma or space and no empty value |
| Metadatas.RoundTripIff | crates/fileloft-core/src/info.rs:104-142 | in every iteration order, parsing an encoding gives the metadata back exactly for metadata of that kind |
| Metadatas.ParsedRoundTrip | crates/fileloft-core/src/info.rs:104-142 | whatever a header parsed to survives re-encoding in any order |
| Locations.LocationIff | crates/fileloft-core/src/handler/post.rs:219-254 | for any base path, an ID comes back from its Location if and only if the base path occurs in `base/id` only at the start, or also at the very end |
| Locations.OneSegmentIff | crates/fileloft-core/src/handler/post.rs:219-254 | for a base path of one segment, with or without trailing slashes: if and only if the segment is not a proper prefix of the ID |
| Locations.EmptyBase | crates/fileloft-core/src/handler/post.rs:219-254 | for an empty base path it always comes back |
| Locations.LocationIs | crates/fileloft-core/src/handler/post.rs:219-227 | a Location is the origin, the base path without the slashes at its end, a slash, and the ID |
| Locations.ExtractIff | crates/fileloft-core/src/handler/post.rs:238-254 | which ID is read from any URL: what follows the last occurrence of the base path but for slashes, or, if there is nothing, the last segment; anything that is not a valid ID is refused |
| ChannelReaders.ChannelReader.Receive | crates/fileloft-actix/src/scope.rs:118-150 | empty messages are skipped; it ends the stream only when the channel is closed and drained |
| ChannelReaders.ChannelReader.PollRead | crates/fileloft-actix/src/scope.rs:118-150 | nothing lost, repeated or reordered; with room, no bytes means the channel is closed and all was delivered, and conversely |
| ChecksumReaders.ChecksumReader.PollRead | crates/fileloft-core/src/checksum.rs:99-116 | what a read delivers is the front of the rest and goes through the hasher once |
| ChecksumReaders.ChecksumReader.ReadVerified | crates/fileloft-core/src/checksum.rs:89-115 | however the reads are split, the verdict is that of the one-shot digest of the whole body |
| ChecksumReaders.GatePayload | crates/fileloft-core/src/handler/patch.rs:110-124 | the streamed checksum gate yields the payload the specified PATCH writes |

## Left out

- Failed or cancelled calls: an I/O error in the middle of a store operation is not modelled. `Recovery` covers what is on disk at every such moment, not what later retries make of it; the code leaves a part that a retry does not remove, and a record that was being written stays unreadable.
- File system caches: a byte counts as on disk once it is written; nothing is said about what a power failure takes back.
- Record contents: records are values, so JSON serialisation is not modelled, and of their fields the metadata and storage maps are absent.
- Paths: one flat directory of names; the optional key prefix with its nested directories and directory creation are not modelled.
- Fresh IDs: ID generation is an input. Results hold for IDs in use as well, with the exact conditions of `Runs.BenignIff`.
- More than 2^32 parts: part indices wrap at u32 as in the code, and results about writing need room for one more (`Refinement.HasRoom`). Azure results need fewer than 2^32 temporaries.
- Wrapping total: the sum of declared sizes wraps at 64 bits as an optimised build does; a checked build stops instead.
- Reopened uploads in a crash: `Recovery` asks that no PATCH to the upload reopens a sealed one; what such a PATCH leaves is `Refinement.SealedWrite`, as a whole step.
- Cloud records: a refused or accepted body is decided on the record, which is passed in and returned, not stored.
- cleanup_concat_partials: removing partials after a final POST.
- POST's test of the bytes written against the declared length (crates/fileloft-core/src/handler/post.rs:146-153): every store has refused such a write before, so it never fires.
- FileLocker: only the in-memory lock is modelled.
- Lock liveness: a dropped lock may leave its ID held for ever; `Interleaving` allows that, and safety is proved for every schedule, but progress (`Progress`) only as long as releases reach the set. No fairness is assumed: a task may still poll in vain until its deadline.
- Interleaved POST: tasks in `Interleaving` are PATCH, GET and DELETE on the part store, with HEAD looking on, which reads the record at one moment. A POST writes under an ID nobody else knows yet; but a final POST reads its partials without their locks, so it can race with a PATCH or DELETE of one. `UnlockedReads` says when what it reads is the state of one moment, and that it can read a half-filled object; the POST itself is not cut into steps.
- Interleaved memory store: each of its operations holds the map's lock throughout, and only the part store is cut into steps.
- Clock within one request: one reading per request; a PATCH compares it with the expiry once.
- GET's response: the content is returned as one value; streaming it after the lock is gone is not modelled.
- Hooks: accept or reject inputs; the pre-create hook's new ID is the request's ID. Events, status codes, headers, CORS and OPTIONS are absent.
- Header parsing: version, content type, offset, length and checksum headers enter parsed; splitting the URL list of a final POST is absent.
- Digest functions: a parameter; the incremental hasher is assumed to be incremental.
- FileStores.FileStore.Concatenate: requires that no partial is the upload itself. The store method would then read the file it is writing; the handler never asks for that, since the new upload is not a partial (`Concatenation.NotItsOwnPart`).
- Cloud clients: ETags, block IDs, pagination, retries and error mapping. Best-effort deletes succeed.
- Cloud chunks: the S3, GCS and Azure stores keep records and parts as the filesystem store does, and only their listing, assembly and finalisation are modelled.
- HTTP adapters: of the actix adapter only the body reader, of the others nothing.
