# A verified model of htvend

htvend records what a build downloads and replays it offline. Its promise is that what `build` recorded,
`offline` answers again. This project models the machinery behind that promise in Dafny and proves it over
whole runs: the manifest file, the request handlers of the proxy, the three blob stores, the parallel exporter,
`verify`, the registry token cache and the image name parser. `dafny verify dfyconfig.toml` checks everything.

## How the model is built

- SHA-256 is a parameter `hash: Bytes -> Bytes`. Nothing assumes that it has no collisions; the replay theorem
  names the two colliding contents instead.
- Everything that the environment decides (upstream answers, failing reads and writes, lost clients, names of
  temporary files, clock readings, the order of map iteration) is a parameter or a nondeterministic choice.
- Concurrent parts are transition systems. A run is any sequence of labels; a label that does not fit the
  current state changes nothing, so theorems over all sequences are theorems over all interleavings.
- Objects that the program updates in place are classes. Their methods are proved equal to functions that the
  transition systems use too, so both views share one definition.

| module | what it holds |
|---|---|
| `Basics`, `Hex` | bytes, blob maps, the one contract of all three stores (`Basics.Puts`), hex in both cases |
| `LockSpec`, `LockFile` | the manifest file as a value, and as a class with map objects that may be aliased |
| `Listener`, `ListenerInvariant` | the request handlers as a transition system, and what every step keeps |
| `BuildTheorems`, `Replay` | pins, races, the exact saved manifest, rebuilding; record then replay |
| `ListenerAlone` | one handler driven by a fixed environment: a path of the transition system, with closed forms for its end |
| `ListenerMethods` | the handler as methods, which end exactly where the environment drives it |
| `DirectoryStore`, `RegistryStore`, `S3Store` | the three stores; the directory also with many concurrent writers |
| `MultiTasker`, `Export` | the wait group and channel protocol, and the export that runs under it |
| `Verify` | the tee chain, the two passes of `verify`, and the command with its flags |
| `TokenCache`, `ImageName` | bearer tokens with expiry; image references |

## Where code and documentation differ

The model follows the code.

- `verify --repair` is documented to imply `--fetch`, but only `--fetch` opens the store for writing. With a store
  that heeds this (directory and registry; the S3 store is always writable) a repair alone gets through exactly when
  every missing URL answers, with something that is not saved and whose body can be closed (last `ensures` of
  `Verify.DoValidate`); `Verify.RepairAloneStops` is a repair that works with `--fetch` and stops without it.
- `verify --fetch` may return nil with assets still missing, because an answer other than 200 and an answer for a
  no-cache URL are not saved. `Verify.FetchCovers` gives the exact condition, `Verify.FetchCanLeaveGap` a run of the
  command that reports no error and leaves its entry missing.
- `ContentAddressableFile.Cleanup` collects an error and then returns nil.
- A failed write leaves a directory or S3 writer whose digest and content differ. Committing it would spoil the
  store (`DirectoryStore.CommitAfterFailedWrite`); no caller does.
- In a reference with one slash, the part before it is the organisation even when it looks like a host with a port
  (`ImageName.Forms`).

## Model

| member | source | states |
|---|---|---|
| `Replay.RecordThenReplay` | cli/internal/htvend/flags_listener.go:147-317 | For every interleaving of build handlers around the close, every request answered without error before it, whatever else the manifest lacks, every store that lost nothing, and every interleaving of offline handlers: the saved manifest opens, a finished offline request for the same URL is never refused, gets the recorded entry (with the filtered headers of the recorded reply) and the same content or a hash collision, and without I/O faults is served |
| `Replay.Handover` | cli/internal/lockfile/lock_file.go:226-292 | The manifest written at the close is the one in memory then; late handlers neither change it nor lose a blob; the store at the end covers it when the build was forced to refresh or the store covered the old manifest |
| `Replay.OfflineAnswers` | cli/internal/htvend/command_offline.go:39-58 | Offline, the manifest alone decides: 404 exactly for URLs outside it, never an upstream request, the recorded entry and content of the recorded digest otherwise; without I/O faults a URL whose blob is there is served |
| `Replay.OfflineProgress` | cli/internal/htvend/flags_listener.go:295-317 | From every reachable offline state an unfinished request for a recorded URL, waiting, opening or copying, can be served by steps of its own |
| `ListenerInvariant.RunCovers` | cli/internal/htvend/flags_listener.go:247-282 | Commit before record: from a store that covers the manifest, under every interleaving and fault, the store stays well-formed, loses no blob and covers every current and previous entry |
| `ListenerInvariant.BuildCovers` | cli/internal/htvend/command_build.go:45-76 | The same for a build from its start; with force-refresh from any well-formed store, whatever the old manifest |
| `ListenerInvariant.RunPins` | cli/internal/lockfile/lock_file.go:99-157 | Whatever the store holds: entries only appear, none changes, none contradicts the previous run or is for a no-cache URL, the disk agrees when not dirty, and each handler's entry stays in the manifest |
| `ListenerInvariant.RunContents` | cli/internal/htvend/flags_listener.go:247-282 | Whatever the manifest holds: the store stays well-formed, loses no blob, and every committed, recorded or served content is in it under its digest |
| `ListenerInvariant.CommitStores` | cli/internal/htvend/flags_listener.go:253-272 | A commit, successful or not, only adds content under its own digest, since a writer that failed never commits |
| `BuildTheorems.PinsNeverMove` | cli/internal/lockfile/lock_file.go:99-157 | A key in both the old and the new manifest keeps its old entry, and an entry of this run never changes, for every upstream behaviour |
| `BuildTheorems.RaceLost` | cli/internal/lockfile/lock_file.go:144-157 | Over any run, a fetch that committed something else than what was recorded first is never recorded, ends in failure, and changes nothing |
| `BuildTheorems.AnswersAgree` | cli/internal/htvend/flags_listener.go:274-282 | Two successful answers for one URL in a build have one entry, and one content or a collision |
| `BuildTheorems.SavedManifest` | cli/internal/lockfile/lock_file.go:180-196 | The saved key set is exactly the requested cacheable URLs of the previous manifest plus those whose fetch was recorded |
| `BuildTheorems.ApplyExact` | cli/internal/lockfile/lock_file.go:110-125 | Each step keeps the key set exact, in both directions |
| `BuildTheorems.Rebuild` | cli/internal/htvend/flags_listener.go:156-177 | Rebuilding with known URLs never turns to the upstream and saves the old manifest restricted to the URLs asked for, in any order |
| `LockSpec.RunKeepsSound` | cli/internal/lockfile/lock_file.go:248-277 | After any sequence of operations, failed writes included, a file that is not dirty equals what is on disk |
| `LockSpec.CloseThenLoad` | cli/internal/lockfile/lock_file.go:228-292 | Open, do anything, close: whoever opens the file next sees exactly the entries held at the close; a missing file exists afterwards |
| `LockSpec.ReadOnlyNeverWrites` | cli/internal/lockfile/lock_file.go:255-258 | No sequence of operations of a read-only session changes the disk |
| `LockFile.RunClient` | cli/internal/lockfile/lock_file.go:180-196 | Every client of the file whose two maps may be one object gets the answers of the specification with two independent maps |
| `LockFile.File.GetBlob` | cli/internal/lockfile/lock_file.go:99-129 | Current entry, else promotion of the previous one, else missing; never for a no-cache key |
| `LockFile.File.InternalAddBlob` | cli/internal/lockfile/lock_file.go:144-157 | Same entry: nothing; different: conflict unless overwriting; a read-only file changes in memory and then reports the error |
| `LockFile.File.RemoveEntry` | cli/internal/lockfile/lock_file.go:160-178 | Removes from the current map only |
| `LockFile.File.Reset` | cli/internal/lockfile/lock_file.go:180-196 | The current entries become the previous ones, or are forgotten; aliasing the maps is not observable |
| `LockFile.File.ForEach` | cli/internal/lockfile/lock_file.go:209-224 | Visits every entry once, in an arbitrary order |
| `LockFile.File.Close` | cli/internal/lockfile/lock_file.go:228-277 | Writes the final manifest when dirty and writable, and nothing else |
| `LockFile.File.NewMapFile` | cli/internal/lockfile/lock_file.go:280-292 | A file that parses gives its entries; a missing one is empty and dirty for a writer and an error for a reader; one that does not parse is an error and stays |
| `LockFile.OpenForBuild` | cli/internal/htvend/command_build.go:54-71 | A build begins without entries, its previous run being what the file held, or nothing when there was no file or a refresh is forced |
| `LockFile.BuildOfNothing` | cli/internal/lockfile/lock_file.go:226-292 | Opened without a file and closed, the manifest is there and read back without entries |
| `ListenerMethods.HandleMainServerRequest` | cli/internal/htvend/flags_listener.go:147-185 | Manifest and store end exactly where the environment drives the transition system from the arrival, an error is returned exactly when that ends in one, and the client got the status and content of that end: recorded headers when served, all values of all upstream headers when fetched |
| `ListenerMethods.AddHeaders` | cli/internal/htvend/flags_listener.go:229-236 | Every value of every upstream header is added, in order |
| `ListenerAlone.RequestEnds` | cli/internal/htvend/flags_listener.go:147-185 | A request is answered without error exactly when it is a dummy, its current or promoted entry is readable, or there is none and the fetch works or refusing is wanted |
| `ListenerMethods.FetchAndSaveBlob` | cli/internal/htvend/flags_listener.go:190-283 | The same from an upstream request on, for a client and for verify; the client's body is a prefix of the answer, and all of it on success |
| `ListenerAlone.FetchEnds` | cli/internal/htvend/flags_listener.go:216-282 | The end of a fetch, faults included: unless the answer is a 200 for a cacheable URL, passed on exactly when it reached the client and its body could be closed, without a trace in store or manifest; else stored exactly when the whole body was taken and committed, and recorded exactly when moreover nobody recorded another entry |
| `ListenerAlone.FetchSucceeds` | cli/internal/htvend/flags_listener.go:190-283 | The exact condition, on answer, store, client and manifest, under which a fetch returns no error |
| `ListenerAlone.FetchWithoutFaults` | cli/internal/htvend/flags_listener.go:216-282 | Without faults only a missing answer, or an answer that is to be saved, differs from the entry and may not replace it, stops a fetch |
| `ListenerMethods.StreamBody` | cli/internal/htvend/flags_listener.go:259-267 | Works exactly when at no position that it visits the upstream breaks off, the blob cannot be written or the client, if there is one, is lost; and then client, blob file and digest all received exactly the upstream body |
| `ListenerAlone.StreamDecides` | cli/internal/htvend/flags_listener.go:253-272 | In whatever chunks: such a fault, one at the very end included, ends in failure with manifest and store as they were, and any other copy reaches the commit with the whole body in file and digest |
| `Basics.ReadsAdvance` | cli/internal/htvend/flags_listener.go:259-267 | The positions visited begin at the start, move on by what each read returned, and end at the end |
| `ListenerMethods.ServeFoundBlob` | cli/internal/htvend/flags_listener.go:295-317 | Ends where the environment drives a found entry; on success the client got 200, the stored content, every recorded header with its value, and keeps its other headers |
| `ListenerAlone.ServeEnds` | cli/internal/htvend/flags_listener.go:295-317 | A found entry is served exactly when its digest is hex, the blob is there, and opening and copying work |
| `ListenerMethods.FilterHeadersLoop` | cli/internal/htvend/flags_listener.go:285-293 | Keeps the first value of exactly the desired headers |
| `ListenerAlone.AloneInSession` | cli/internal/htvend/flags_listener.go:102-107 | A handler left alone in a session reaches its driven end by steps of its own, which change only the shared state and that handler |
| `ListenerAlone.RequestInSession` | cli/internal/htvend/flags_listener.go:102-107 | So does a request that arrives in any session |
| `DirectoryStore.PerformAllOk` | cli/internal/blobstore/directory/caf/caf.go:64-122 | Over any interleaving of the system calls of any writers: canonical names only show bytes that hash to them, no blob is lost, temporary files are exactly those of open writers |
| `DirectoryStore.PerformAllRefines` | cli/internal/blobstore/directory/caf/caf.go:56-122 | Over any interleaving, failures included, readers see exactly the contents of the successful renames, put one after the other into the map from digests to contents: nothing that nobody committed appears |
| `DirectoryStore.RenameOk` | cli/internal/blobstore/directory/caf/caf.go:93-105 | The rename of an intact writer makes exactly its bytes readable under their digest, changes no other lookup and disturbs no other writer |
| `DirectoryStore.CommittedStays` | cli/internal/blobstore/directory/caf/caf.go:64-122 | Committed content stays readable under its digest over every later interleaving, or a collision of it was committed |
| `DirectoryStore.TempIsNotCanonical` | cli/internal/blobstore/directory/caf/caf.go:73-75 | A temporary name is never the name of a digest |
| `DirectoryStore.WriteIsCalls` | cli/internal/blobstore/directory/caf/caf.go:56-82 | One Write is one or two of the interleaved system calls |
| `DirectoryStore.CommitIsCalls` | cli/internal/blobstore/directory/caf/caf.go:84-106 | One Commit is a sequence of the interleaved system calls |
| `DirectoryStore.CommitAfterFailedWrite` | cli/internal/blobstore/directory/caf/caf.go:79-105 | Committing after a failed write keeps the directory well-formed exactly when the hash does not see the kept bytes |
| `DirectoryStore.CommitHolds` | cli/internal/blobstore/directory/caf/caf.go:84-106 | A writer that received the content, empty content included, turns the directory into the old one plus that blob |
| `DirectoryStore.StoreAll` | cli/internal/blobstore/directory/caf/caf.go:56-122 | Any chunks, then commit and cleanup: the digest of the concatenation, readable under it, all other keys as before (`Basics.Puts`), so the directory refines one update of the map from digests to contents; no temporary file left |
| `DirectoryStore.ContentAddressableFile.Write` | cli/internal/blobstore/directory/caf/caf.go:56-82 | Creates the file on the first byte; the file gets all bytes and the digest too, or the file some and the digest none |
| `DirectoryStore.ContentAddressableFile.Commit` | cli/internal/blobstore/directory/caf/caf.go:84-106 | Exactly when it works, the file, or an empty one when nothing was written, gets the name of its digest; else everything stays but for an empty file it may have created |
| `DirectoryStore.ContentAddressableFile.Cleanup` | cli/internal/blobstore/directory/caf/caf.go:110-122 | Removes the file of an uncommitted writer and clears the writer, does nothing to the directory after a commit, and never reports an error |
| `DirectoryStore.CleanupRemoves` | cli/internal/blobstore/directory/caf/caf.go:110-122 | Among many writers, a cleanup takes away exactly this writer's temporary file |
| `DirectoryStore.OnlyStaleRemain` | cli/internal/blobstore/directory/caf/caf.go:64-122 | After any interleaving at whose end every writer has committed or cleaned up, no new temporary file is left |
| `DirectoryStore.Store.RemoveExcept` | cli/internal/blobstore/directory/directory_store.go:87-109 | Removes only names that are not kept; succeeds exactly when the listing and every removal needed work, and then leaves exactly the kept ones |
| `RegistryStore.TilesExactly` | cli/internal/blobstore/registry/reg_store.go:156 | Contiguous ranges put every position below the total, and no other, in exactly one of them |
| `RegistryStore.BlobBeingUploaded.Write` | cli/internal/blobstore/registry/reg_store.go:145-173 | Every delivered chunk is accepted by a server that checks positions; client and server stay in step and the ranges tile what the server holds |
| `RegistryStore.BlobBeingUploaded.Commit` | cli/internal/blobstore/registry/reg_store.go:175-197 | After any writes, lost ones that moved the upload included: the digest sent is that of what the server holds, or nothing is created |
| `RegistryStore.BlobBeingUploaded.Cleanup` | cli/internal/blobstore/registry/reg_store.go:199-220 | No-op after a commit, otherwise the upload is deleted |
| `RegistryStore.StoreAll` | cli/internal/blobstore/registry/reg_store.go:89-220 | Any chunks, then commit and cleanup, the upload moving wherever the server likes after each chunk: the same `Basics.Puts` and refinement, and all other uploads as before |
| `S3Store.TbUploaded.Commit` | cli/internal/blobstore/s3store/s3_store.go:116-135 | A digest is returned only when the object is stored and the spool file removed; an error may leave that object and no other |
| `S3Store.StoreAll` | cli/internal/blobstore/s3store/s3_store.go:90-147 | Any chunks, then commit and cleanup: the same `Basics.Puts` and refinement, no spool file left |
| `S3Store.KeyToNameInjective` | cli/internal/blobstore/s3store/s3_store.go:58-60 | Two digests never share an object name |
| `MultiTasker.WaitConserves` | cli/internal/jobs/multitasker.go:30-51 | No schedule panics; when Wait returns, all tasks have finished, the results received are theirs as a multiset, and the value returned is nil iff all were nil, else the first error received, given once to the callback |
| `MultiTasker.WaitTerminates` | cli/internal/jobs/multitasker.go:30-51 | A schedule of n tasks has at most 4n + 5 effective steps, and one that cannot go on has returned from Wait |
| `MultiTasker.Enabled` | cli/internal/jobs/multitasker.go:38-51 | Until Wait returns, some step can happen |
| `MultiTasker.ApplyDecreases` | cli/internal/jobs/multitasker.go:30-51 | Every effective step decreases one measure over workers, closer and caller |
| `MultiTasker.ApplySync` | cli/internal/jobs/multitasker.go:30-51 | Wait group, closer and channel stay consistent, so no send meets a closed channel |
| `Export.ExportComplete` | cli/internal/htvend/command_export.go:39-134 | Over any scheduling and failures no destination blob is lost or spoilt, corrupt sources included; nil means every needed digest is there with content that hashes to it |
| `Export.ExportIdempotent` | cli/internal/htvend/command_export.go:39-48 | A second export, its digests queued in any order, writes nothing: no task gets beyond its check |
| `Export.ExportSucceeds` | cli/internal/htvend/command_export.go:39-83 | Without faults and with intact sources an export that returns, returns nil |
| `Export.ExportProgress` | cli/internal/htvend/command_export.go:119-134 | Until Wait returns, some task or the tasker can move without a failure |
| `Export.ExportFinishes` | cli/internal/htvend/command_export.go:119-134 | A fault-free schedule that nothing fault-free can extend has returned nil with the export complete |
| `Export.ExportTerminates` | cli/internal/htvend/command_export.go:119-134 | Every schedule of an export has a bounded number of effective steps |
| `Export.RunProjects` | cli/internal/htvend/command_export.go:119-134 | What the tasker sees of an export is a schedule of the MultiTasker alone |
| `Export.EnsureBlobExported` | cli/internal/htvend/command_export.go:39-83 | The copy of one blob ends where its environment drives the task: nil exactly when the blob was there, or the copy was made, committed and closed and hashes to the digest asked for |
| `Export.DriveEnds` | cli/internal/htvend/command_export.go:39-83 | Driving the task act by act, whatever the chunks, has that closed form |
| `Export.AloneInExport` | cli/internal/htvend/command_export.go:119-134 | A task left alone in an export reaches its driven end by steps of its own |
| `Export.NeededKeys` | cli/internal/htvend/command_export.go:106-129 | Each digest of the manifest, in either hex case, is queued once; the second decoding cannot fail |
| `Verify.DoValidate` | cli/internal/htvend/command_verify.go:108-187 | Plain verify is exact and changes nothing; whatever happens no key is added or removed, only missing entries can change, and each changed one has its blob; a fetch stops exactly when some missing URL's fetch does not work, and otherwise covers the manifest exactly under the condition of FetchCovers; on a read-only store it gets through exactly when every missing URL answers, with something that is not saved and whose body can be closed |
| `Verify.Execute` | cli/internal/htvend/command_verify.go:46-75 | The command with its flags: it reports no error exactly when every digest is hex, every blob opens, those there can be read and closed and hash to their digests, each missing one is fetched or repaired successfully (plain verify: none is missing), and a changed manifest could be written; and what the manifest on disk then is, a stopped repair included: the old one, or one with the same keys whose changed entries have their blobs |
| `Verify.UnknownExactly` | cli/internal/htvend/command_verify.go:115-160 | The first pass stops exactly at a digest that is not hex, a failing open, or a failing read or close of a blob that is there |
| `Verify.ListedExactly` | cli/internal/htvend/command_verify.go:115-160 | Otherwise missing are exactly the entries without a blob, and wrong those whose blob hashes to something else |
| `Verify.RepairAloneStops` | cli/internal/htvend/command_verify.go:61 | A concrete repair that works with fetch and fails without it |
| `Verify.NothingFound` | cli/internal/htvend/command_verify.go:115-160 | With working reads, nothing is found exactly when every blob is present and hashes to its recorded digest |
| `Verify.FetchedIsStored` | cli/internal/htvend/command_verify.go:166-180 | A missing entry whose answer was saved is stored under the digest it now has, which without repair is the recorded one |
| `Verify.FetchCovers` | cli/internal/htvend/command_verify.go:166-180 | After a fetch the manifest is covered exactly when each missing entry's answer was savable or somebody's answer was its content |
| `Verify.FetchCanLeaveGap` | cli/internal/htvend/flags_listener.go:238-245 | A concrete run of the command that reports no error and leaves its only entry missing |
| `Verify.CopyToWriters` | cli/internal/htvend/command_verify.go:92-106 | Every writer gets the full content as often as it is listed; with no writer nothing is read |
| `Verify.FetchMissing` | cli/internal/htvend/command_verify.go:164-180 | The fetching loop works exactly when each fetch would by itself; with its frames for an early stop, replaced entries stored |
| `TokenCache.AttachedIsValid` | cli/internal/registryauthclient/wrapping_registry_auth_client.go:66-80 | Over any interleaving and monotone clock, an attached cached token answered a challenge on the same key, and its expiry was checked at most its lifetime less ten seconds after it was stored |
| `TokenCache.ReusedHadLifetime` | cli/internal/registryauthclient/wrapping_registry_auth_client.go:140-145 | A token with a lifetime below ten seconds is never reused, one of exactly ten only while the clock stands still |
| `TokenCache.StoredIsReused` | cli/internal/registryauthclient/wrapping_registry_auth_client.go:66-80 | A stored token is attached to every request on its key that is checked within its lifetime less ten seconds, whatever others do in between, unless they store a newer one |
| `TokenCache.Client.RoundTrip` | cli/internal/registryauthclient/wrapping_registry_auth_client.go:57-154 | Among any other requests, an undisturbed call leaves the cache as the steps of the transition system do, and answers as its request ends there; a token with time left is reused, and one fetched instead is stored with its lifetime less ten seconds |
| `ImageName.RoundTrip` | cli/cmd/download-image/download_image_main.go:165-199 | Printing a parsed reference in full and parsing it again gives the same name |
| `ImageName.PrintText` | cli/cmd/download-image/download_image_main.go:165-199 | The full form that is parsed again is host/org/name:tag |
| `ImageName.Rejected` | cli/cmd/download-image/download_image_main.go:172-192 | Rejected are exactly references with more than two slashes or more than one colon after the last |
| `ImageName.Forms` | cli/cmd/download-image/download_image_main.go:165-199 | All six written forms with their defaults; a host keeps its port |
| `ImageName.ManifestURLInjective` | cli/cmd/download-image/download_image_main.go:43-45 | Different names never share a manifest URL |
| `ImageName.URLParts` | cli/cmd/download-image/download_image_main.go:43-45 | What the manifest URL consists of |
| `Hex.DecodeEncode` | cli/internal/htvend/flags_listener.go:276-296 | Decoding undoes encoding |
| `Hex.EncodeDecode` | cli/internal/htvend/command_export.go:109-113 | Decoding and encoding again only folds the case |
| `Hex.EncodeAt` | cli/internal/htvend/flags_listener.go:276 | Two digits a byte, the high one first |
| `Hex.Decodable` | cli/internal/htvend/command_export.go:109-113 | Decoding accepts exactly texts of even length made of digits |
| `Hex.Digits` | cli/internal/htvend/command_export.go:109-113 | Digits are written in lower case and read in both |

## Left out

- TLS certificates, CONNECT handling, environment variables, sub-processes and signals: foreign libraries and I/O.
- Shutdown of the proxy server: it rests on net/http; handlers may outlive the close in the model, as they may in the program.
- The file lock between processes, and the error path of NewMapFile while holding it: a single writer is assumed.
- CloseAndDestroy of the manifest and Destroy of the stores: they remove whole files or directories.
- JSON, URL parsing and redaction, regular expressions: a codec with a round-trip law, opaque keys, and arbitrary predicates for no-cache and dummy-ok.
- HTTP methods and request headers: a request is its URL, which is all that lookups use.
- A response header without any value: Go's HTTP client does not produce one.
- The registry's Location and query strings, the Docker URL pattern and the parsing of challenges: the key of a request and the completeness of a challenge are inputs. Content-Range is a pair of positions, not its text.
- ListenerMethods.HandleMainServerRequest: the headers of a 404 and the 500 that follows an error are net/http's.
- Verify.Execute: opening the store is taken to work; every later fault is a parameter.
- S3 Get does not report a missing object as such; in the model of verify that is a failing read, which aborts.
- Overflow of Go's 64-bit durations in the token cache: only lifetimes of centuries reach it.
- TokenCache.AttachedIsValid: bounds the expiry check, not the moment at which the request is sent, which the client does not look at.
- Export.EnsureBlobExported: source and destination are two stores; exporting a store onto itself finds every blob present and is not modelled.
- DirectoryStore.PerformAllOk: assumes that unlink succeeds and that RemoveExcept does not run beside writers, because it would remove their temporary files.
- Metrics, logging, flags, Bazel rules, scripts, and the platform choice of download-image.
