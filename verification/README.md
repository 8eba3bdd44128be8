# Models and proofs for catalyst-forge-libs

These Dafny modules model the parts of the repository that carry algorithms and state, and prove what those parts are
for. They verify together: `dafny verify dfyconfig.toml`.

| component | modules | shape of the model |
|---|---|---|
| shared | Text, Lists, Optional | Go's string helpers, facts about sequences, optional values |
| reference patterns (`git/refs.go`) | Glob, GlobFaithful | methods with the scanning loops, against declarative matching relations |
| eviction (`oci/internal/cache/eviction.go`) | Lru, SizeEviction, CompositeEviction, Sums | classes; LRU keeps its map and its list of elements on the heap |
| cache storage (`oci/internal/cache/storage.go`) | Framing, StorageProtocol, CachePaths, CacheStorage | a state machine of lock, create, write, rename and crash steps; the path arithmetic of the caches; and the storage as one caller sees it |
| blob cache (`oci/internal/cache/blob.go`) | BlobRefText, BlobCache, BlobHistory | a class over the storage, and runs of its operations |
| tag cache (`oci/internal/cache/tags.go`) | TagHistory, TagCache | a class over the same storage |
| cache index (`oci/internal/cache/index.go`) | StringOrder, IndexText, CacheIndex | a class with its file, runs, and the iterator |
| extraction paths (`oci/archive_targz_helpers.go`, `oci/internal/validate/path.go`) | LexicalPath, PathValidation, ArchivePaths, ArchiveExtract, ArchiveLimits, LinkTree, ArchiveTree, TreeArchiver, PlainArchives | lexical path functions; the header loop with its counters and its calls on the filesystem as a class; a tree in which links are followed |
| atomic extraction (`oci/client.go`) | TreeFs, TreeMoves, ArchiveInPlace, AtomicExtract | methods over a filesystem object that follows links and whose calls may fail |
| multipart copy (`aws/s3/internal/operations/copy`) | PartRanges, MultipartCopy | byte ranges; workers, semaphore and channel as steps in any order |
| batch delete (`aws/s3/internal/operations/delete`) | BatchDelete, BatchProtocols | sequential loops; the parallel and streaming forms as steps in any order |
| client pool (`aws/s3/internal/pool`) | ClientPool | channel operations and locked updates as separate steps |
| Earthfile (`earthly/earthfile`) | EarthfileAst, EarthfileWalk, DependencyRefs, EarthfileDependencies, EarthfileConvert, TargetIndex | recursion over one tree for the three traversals; a class for the collected and cached dependencies |
| secrets (`secrets/core`, `secrets/providers/memory`) | Secrets, MemoryProvider | heap classes with byte arrays and ownership |

Conventions. Strings hold one char per byte. Time is a parameter of each operation. A call that can fail for reasons
outside the model (I/O, the network, the encoder) fails nondeterministically; where a contract says what happens when
nothing fails, a ghost counter `faults` (or `faultless`, `clean`) says that nothing did. SHA-256 and JSON are function
values with stated laws. Loops over Go maps visit the keys in any order, and library sorts give any sorted reordering.

## Where the code and its documentation differ

- Patterns: the documentation gives `*` and `?` their glob meaning. The code takes `?` literally as soon as the pattern
  has a `*`, takes inner stars literally when there is a star at an end, and lets the last piece overlap the scan, so
  that `ab` matches `ab*b`. `GlobFaithful.FaithfulExactly` says for which patterns code and documentation agree.
- Stream writers: `Close` is documented to finish the write atomically. When it fails it returns with the file lock held, and
  the next operation on that file waits until the process ends (`StorageProtocol.FailedCloseBlocks`,
  `StorageProtocol.StrandedForGood`); `StorageProtocol.NoDeadlock` says that nothing else makes all operations wait.
- Blob cache: `HasBlob` and `DeleteBlob` do not validate the digest, and `filepath.Join` cleans the path. A hash with a
  detour reaches another hash's files (`CachePaths.DetourNamesAnother`; `CachePaths.SameFilesExactly` says which do). One
  that climbs out can reach a blob where a reference is meant (`CachePaths.ClimbingStrays`). Exactly such a check or delete
  can leave a reference without its blob (`BlobHistory.HasSafeExactly`, `BlobHistory.DeleteSafeExactly`), and a delete can
  write the blob anew, so that a get does not return what was put. Over all runs counts balance and gets are right exactly
  when no digest in use does that (`BlobHistory.BalanceHoldsExactly`, `BlobHistory.GetsAreRightExactly`). Digests without a
  slash never do (`CachePaths.SlashFree`).
- Storage: `Remove` means to let a missing file pass, but the filesystem of `fs/billy` wraps its error, and `os.IsNotExist`
  does not unwrap it. So `DeleteTagMapping`, documented to be idempotent, fails for a missing entry
  (`TagCache.TagCache.DeleteTwice`).
- Tags: references that differ only in `/`, `:`, `@` and `_` share one entry, `a/b:1` and `a_b:1` for instance
  (`TagCache.SameEntryExactly`, `TagCache.SharedEntry`); the digest form `name@digest` is accepted only as if it were
  `name:tag` (`TagCache.ValidExactly`); a negative `MaxHistorySize` is not repaired by `NewTagCache` and makes the first
  change of a digest slice out of range (`TagCache.NegativeHistoryPanics`).
- Index: `Load` files each entry under the key it carries, `persist` takes the keys of the map; the two are inverse exactly
  when these are the same (`IndexText.LoadUndoesPersist`), and an entry stored under another key moves
  (`IndexText.MisfiledEntryMoves`).
- Extraction: the running total is an int64. `MaxSize` bounds the sizes of every archive exactly when the options leave the
  sum room in 64 bits (`ArchiveLimits.LimitHoldsExactly`); with a limit of ten bytes and none on single files two entries
  pass it (`ArchiveLimits.TenByteLimit`). With a target of `/` every member but the root itself is rejected
  (`ArchivePaths.SafeJoinAtSlash`).
- Atomic extraction: a target that is a link to an empty directory is let through. When the move then fails, the rollback
  removes the link, and the files already moved stay behind it (`AtomicExtract.LinkIsEmptyTarget`,
  `AtomicExtract.RollbackExactly`). In a target that is not empty, a link to a directory where the archive has a directory
  is followed (`TreeFs.MadeExactly`, `TreeFs.ThroughLink`); `Pull` only extracts into empty ones.
- Multipart copy: after an abort workers that wait for the semaphore still send their parts. An aborted upload never has a
  part in flight exactly when there is no second part (`MultipartCopy.AbortsQuietlyExactly`, `MultipartCopy.PartAfterAbort`;
  `MultipartCopy.QuietExactly` for one state).
- Memory provider: deleting and closing wipe a secret, storing over it does not (`MemoryProvider.Provider.StoreOver`).
- Dependencies: the key `source:target` can merge two references when one target name is another one, a colon and more
  (`DependencyRefs.KeysTellApartExactly`), and then an Earthfile loses a dependency
  (`EarthfileDependencies.MergedDependencies`). The parser's grammar is not part of this model, so whether it lets a target
  name hold a colon is open.
- Flattening: `convertBlock` drops TRY statements with everything in them
  (`EarthfileConvert.ConversionKeepsPlains`, `EarthfileConvert.TryLosesItsCommands`).
- Parallel delete: a failed batch is reported by one error without a key, so its keys are in no list of the result
  (`BatchProtocols.ParallelAccountsForAll`).
- A one-time `SecretString` never caches, so the branch that hands out its cached secret is dead.

## Model

| member | source | states |
|---|---|---|
| Glob.MatchesRefPattern | git/refs.go:140-157 | the matcher decides the relation RefMatch: empty pattern matches all, then star, question and plain forms |
| Glob.MatchesStarPattern | git/refs.go:160-210 | the four branches decide: contains, has suffix, has prefix, or first piece in front, middles in order without overlap, last piece at the end |
| Glob.MatchesPieces | git/refs.go:178-210 | the loop over pieces with its moving position decides whether some placement of the pieces exists |
| Glob.GreedyStep | git/refs.go:196-205 | taking the leftmost occurrence of a piece never loses a match |
| Glob.ScanLeftmost | git/refs.go:180-208 | the greedy scan finds all pieces within the first m bytes exactly when some placement fits there |
| GlobFaithful.PiecesAndFit | git/refs.go:178-210 | a name is the pieces with anything between exactly when the pieces match and scan end plus last piece fits in the name |
| GlobFaithful.InnerStars | git/refs.go:178-210 | with stars only inside, true glob matches are exactly the accepted names whose last piece fits behind the scan; all of them are accepted |
| GlobFaithful.OverlapIsAccepted | git/refs.go:186-190 | `ab` is accepted for `ab*b` and is no glob match |
| GlobFaithful.NoOverlapFits | git/refs.go:178-210 | when no end of the last scanned piece begins the last piece, nor lies in it, an accepted name always fits |
| GlobFaithful.OverlapWitness | git/refs.go:178-210 | otherwise there is an accepted name that does not fit |
| GlobFaithful.EndStarFaithful | git/refs.go:160-177 | with a star at an end and none left inside, the branch decides glob matching |
| GlobFaithful.QuestionIsGlob | git/refs.go:213-228 | without stars, question patterns decide glob matching |
| GlobFaithful.LiteralIsIn | git/refs.go:160-210 | a `?` or star that the code compares literally is in every accepted name |
| GlobFaithful.FaithfulMatch | git/refs.go:59-78 | for faithful patterns the matcher has the documented meaning on every name |
| GlobFaithful.UnfaithfulName | git/refs.go:160-210 | for every other pattern there is a name on which it has not |
| GlobFaithful.FaithfulExactly | git/refs.go:140-228 | agreement on all names is equivalent to a condition on the pattern alone |
| Lru.LRUEviction.OnAccess | oci/internal/cache/eviction.go:57-71 | stamps the entry, and the order of keys becomes this key in front of the others |
| Lru.LRUEviction.OnAdd | oci/internal/cache/eviction.go:75-95 | an untracked key gets a list element and goes to the front |
| Lru.LRUEviction.OnRemove | oci/internal/cache/eviction.go:99-108 | map and list lose the key together |
| Lru.LRUEviction.SelectForEviction | oci/internal/cache/eviction.go:34-53 | the list from its back, restricted to present keys |
| Lru.OrderIsRecency | oci/internal/cache/eviction.go:15-30 | after any legal run of add, access and remove the list holds the tracked keys once each, latest touch first |
| Lru.SelectionIsOldestFirst | oci/internal/cache/eviction.go:32-53 | selection after any run is the tracked present keys, longest untouched first |
| SizeEviction.SizeEviction.SelectForEviction | oci/internal/cache/eviction.go:123-169 | of what is picked nothing that has not expired comes before what has, nor a smaller entry before an equally expired larger one, and so for picked and unpicked; removing the picks brings the total to the limit, dropping the last pick leaves it above; and no smaller set of keys does when nothing is expired |
| SizeEviction.SortCandidates | oci/internal/cache/eviction.go:143-156 | a duplicate-free reordering that the comparator does not contradict, ties in any order |
| SizeEviction.PickUntilFreed | oci/internal/cache/eviction.go:158-168 | the loop stops at the first prefix that frees enough |
| SizeEviction.SelectedFirst | oci/internal/cache/eviction.go:143-168 | if an unexpired key is picked all expired ones are, and among equals no larger one is left |
| SizeEviction.SelectedEnough | oci/internal/cache/eviction.go:158-168 | the picks free enough and are minimal as a prefix |
| SizeEviction.SelectedFewest | oci/internal/cache/eviction.go:123-169 | with nothing expired, any set of keys that frees enough is at least as large |
| Sums.TopSum | oci/internal/cache/eviction.go:143-168 | no m keys weigh more than the first m in largest-first order |
| CompositeEviction.CompositeEviction.SelectForEviction | oci/internal/cache/eviction.go:264-299 | the picks of the strategies in priority order, each key where it first comes |
| CompositeEviction.Merge | oci/internal/cache/eviction.go:285-297 | the merge loop is the first-occurrence de-duplication of the concatenated picks |
| CompositeEviction.CompositeIsUnion | oci/internal/cache/eviction.go:264-299 | no duplicates, and exactly the keys that some strategy picks |
| CompositeEviction.CompositeBeginsWith | oci/internal/cache/eviction.go:264-299 | begins with the picks of a strategy that no other one outranks, each once, in their order |
| CompositeEviction.CompositeOrder | oci/internal/cache/eviction.go:285-297 | a key picked at a higher priority comes before one first picked later |
| Framing.UnframeFrame | oci/internal/cache/storage.go:266-330 | reading undoes writing for every byte string, newlines included |
| Framing.UnframeExactly | oci/internal/cache/storage.go:295-330 | data is read exactly from the line of its checksum and itself |
| Framing.DamageIsNoticed | oci/internal/cache/storage.go:295-330 | whatever stands in the first line, the rest is read as data exactly when that line is its checksum, and is reported as corrupted otherwise |
| StorageProtocol.RunKeeps | oci/internal/cache/storage.go:59-189 | the lock, temp-file and file invariant of writes, streams, reads and removes holds after every event of every interleaving, crashes included |
| StorageProtocol.FinalPathsWhole | oci/internal/cache/storage.go:68-121 | a final path is absent or holds the complete frame of the data of one write or stream begun for it |
| StorageProtocol.OutcomesTrue | oci/internal/cache/storage.go:124-189 | a finished read returns the data of the last committed rename or absence, never corruption; finished writes, streams and removes took effect, or there was nothing to remove; an operation ends as failed exactly when one of its own steps failed that may, or its temp file was taken |
| StorageProtocol.EndsAsAsked | oci/internal/cache/storage.go:68-189 | without such trouble, told from the events alone, a write or stream ends as written, a read with data or absence, a remove as removed or absent |
| StorageProtocol.RunFailsRightly | oci/internal/cache/storage.go:68-189 | at every moment of every run exactly the operations in trouble have failed or are about to |
| StorageProtocol.OperationsEnd | oci/internal/cache/storage.go:68-189 | no operation takes more than ten actions |
| StorageProtocol.TempsGoAway | oci/internal/cache/storage.go:89-121 | without failures and crashes every temp file belongs to an operation under way |
| StorageProtocol.CleanAfterCrash | oci/internal/cache/storage.go:227-235 | what a crash has left is removed by the cleanup, and no other file |
| StorageProtocol.LockOrder | oci/internal/cache/storage.go:68-80 | who holds the global lock holds its file lock and waits for nothing |
| StorageProtocol.NoDeadlock | oci/internal/cache/storage.go:59-189 | some operation can step exactly when some unfinished one does not wait for a file lock that a failed Close has kept |
| StorageProtocol.StrandedForGood | oci/internal/cache/storage.go:441-468 | until a crash a failed Close keeps its file lock, and what is committed under its name stays |
| StorageProtocol.FailedCloseBlocks | oci/internal/cache/storage.go:382-468 | a run in which a stream's Close fails and a reader of the same file waits behind it |
| CachePaths.SameFileExactly | oci/internal/cache/storage.go:68-74 | two paths given to the storage are the same file exactly when the cleaned full paths are the same |
| CachePaths.EntryPaths | oci/internal/cache/blob.go:231-252 | a hash that names an entry leads to the two files of that entry |
| CachePaths.NoEntryPaths | oci/internal/cache/blob.go:231-252 | any other hash leads outside the files of entries, or with both paths to the same place |
| CachePaths.SlashFree | oci/internal/cache/blob.go:231-252 | a hash without a slash names itself, or nothing when it begins with two dots |
| CachePaths.SameFilesExactly | oci/internal/cache/blob.go:231-252 | a hash leads to the files of a slash-free one exactly when that is the entry it names |
| CachePaths.DetourNamesAnother | oci/internal/cache/blob.go:231-252 | every slash-free hash has another spelling that leads to its files |
| CachePaths.ClimbingStrays | oci/internal/cache/blob.go:231-252 | every slash-free hash has a spelling whose two paths are both its blob |
| CacheStorage.Storage.WriteAtomically | oci/internal/cache/storage.go:68-121 | all or nothing on one path, as a single caller sees it |
| CacheStorage.Storage.ReadWithIntegrity | oci/internal/cache/storage.go:124-148 | returns what was stored, or absence, and never reports corruption for what it stored itself |
| CacheStorage.Storage.Remove | oci/internal/cache/storage.go:168-189 | removes one path; a missing one is an error, as fs/billy wraps its errors |
| CacheStorage.StreamWriter.Write | oci/internal/cache/storage.go:431-438 | appends to the buffer |
| CacheStorage.StreamWriter.Close | oci/internal/cache/storage.go:441-468 | commits exactly the bytes written, or nothing |
| BlobRefText.ParseBlobRef | oci/internal/cache/blob.go:387-426 | the line-cutting loop equals splitting at newlines and reading four fields |
| BlobRefText.ParseMarshal | oci/internal/cache/blob.go:378-426 | the lines are digest, time, time to live and count, and parsing undoes marshalling for every newline-free digest and all int64 fields, negative ones included |
| BlobRefText.ParsedIsStorable | oci/internal/cache/blob.go:387-444 | what is accepted has exactly four lines, its fields in their order, fits, and survives being written again |
| BlobRefText.ParseIntItoa | oci/internal/cache/blob.go:429-444 | reading an integer undoes writing it |
| BlobCache.ValidDigestExactly | oci/internal/cache/manifest.go:277-322 | a digest is valid exactly when it reads algorithm, colon, and as many hexadecimal digits as one of three algorithms has |
| BlobCache.BlobCache.PutBlob | oci/internal/cache/blob.go:105-159 | a further put counts up without reading; a new one stores the reader's bytes and then a reference of one; a failed reader leaves no reference |
| BlobCache.BlobCache.GetBlob | oci/internal/cache/blob.go:60-100 | the stored bytes of an unexpired reference |
| BlobCache.BlobCache.HasBlob | oci/internal/cache/blob.go:162-212 | for any digest: of the entry that its hash names, reference and blob present and unexpired, an expired reference goes and its blob stays; for one that names none, what happens to the file it leads to |
| BlobCache.BlobCache.DeleteBlob | oci/internal/cache/blob.go:216-227 | for any digest: of the entry that its hash names, counts down, and the last delete removes reference, then blob; for one that names none, what happens to the file it leads to |
| BlobCache.BlobCache.AddReference | oci/internal/cache/blob.go:256-303 | one more count, or a new reference of one with the current time |
| BlobCache.BlobCache.RemoveReference | oci/internal/cache/blob.go:307-367 | one count less; at zero reference and blob go, and at every step between a reference has its blob unless the digest strays into a blob; the last delete fails when the blob is not there |
| BlobHistory.AlwaysConsistent | oci/internal/cache/blob.go:105-367 | over every run in which no digest strays into a blob references have their blobs and counts of at least one |
| BlobHistory.RefIsAccounted | oci/internal/cache/blob.go:256-367 | a count is the puts minus the deletes, whatever the spelling of their digests, since the put that created the reference |
| BlobHistory.GetReturnsCreation | oci/internal/cache/blob.go:60-159 | a get returns the bytes of the put that created the current reference, whose reader did not fail |
| BlobHistory.CreatedStays | oci/internal/cache/blob.go:105-367 | what a put has created stays until its time has run out or something tries to take its last count |
| BlobHistory.PutIsFound | oci/internal/cache/blob.go:60-212 | so within its time a blob deleted less often than put is found, and read as it was put |
| BlobHistory.DeleteRemovesLast | oci/internal/cache/blob.go:307-367 | the balancing delete removes both, an earlier one keeps both |
| BlobHistory.HasSafeExactly | oci/internal/cache/blob.go:162-212 | asking for a digest keeps every reference with its blob, whatever is stored, exactly when the digest does not stray into a blob |
| BlobHistory.DeleteSafeExactly | oci/internal/cache/blob.go:307-367 | so does deleting with a digest |
| BlobHistory.BalanceHoldsExactly | oci/internal/cache/blob.go:105-367 | over all runs every count balances exactly when no digest in use strays into a blob |
| BlobHistory.GetsAreRightExactly | oci/internal/cache/blob.go:60-367 | over all runs every get returns the bytes of the creating put exactly when no digest in use strays into a blob |
| BlobHistory.LosingRun | oci/internal/cache/blob.go:162-212 | a run in which a check removes a blob that reads like an expired reference |
| BlobHistory.OverwritingRun | oci/internal/cache/blob.go:307-367 | a run in which a delete writes a blob anew, and a get returns that |
| TagHistory.SupersededIsCollapsed | oci/internal/cache/tags.go:104-126 | superseded digests and the current one are the digests put, without immediate repeats |
| TagHistory.NeighboursDiffer | oci/internal/cache/tags.go:106-121 | neighbours in the history differ, and the newest differs from the current digest |
| TagHistory.TimesInOrder | oci/internal/cache/tags.go:106-121 | times never go back and lie between the first and last put |
| TagHistory.ReplacedAt | oci/internal/cache/tags.go:106-121 | each superseded digest was put, and the next put, of another digest, was at the time kept with it |
| TagHistory.LastOfSnoc | oci/internal/cache/tags.go:113-120 | cutting after each append keeps what one cut at the end would |
| TagCache.TagCache.PutTagMapping | oci/internal/cache/tags.go:77-158 | a put joins the puts of a live mapping or starts anew, live being told by the time of its first put; only its entry changes; every stored entry reflects its puts |
| TagCache.TagCache.GetTagMapping | oci/internal/cache/tags.go:43-73 | the digest of the last put of a mapping whose first put has not expired, however often it was asked for; marks it accessed, removes an expired one |
| TagCache.TagCache.GetTagHistory | oci/internal/cache/tags.go:203-233 | the last MaxHistorySize digests superseded since the live mapping was created |
| TagCache.TagCache.DeleteTagMapping | oci/internal/cache/tags.go:189-199 | removes the entry; without faults it succeeds exactly when the reference is valid and its entry is there |
| TagCache.TagCache.DeleteTwice | oci/internal/cache/tags.go:187-199 | after a delete that succeeded the next one fails |
| TagCache.HistoryIsRecent | oci/internal/cache/tags.go:106-121 | a stored history has the stated length, order and differing neighbours |
| TagCache.UpdatedReflects | oci/internal/cache/tags.go:104-126 | updating an entry keeps it in step with its puts |
| TagCache.SameEntryExactly | oci/internal/cache/tags.go:236-246 | which references share an entry |
| TagCache.SharedEntry | oci/internal/cache/tags.go:236-246 | two valid references of different repositories that do |
| TagCache.TagPathOf | oci/internal/cache/tags.go:236-246 | the path of a valid reference leads to the one file of its entry |
| TagCache.NegativeHistoryPanics | oci/internal/cache/tags.go:104-121 | with a negative history size the first put is stored and the next one of another digest panics |
| TagCache.ValidExactly | oci/internal/cache/tags.go:301-335 | a reference is valid exactly when its last part has one colon with something behind it |
| IndexText.LoadUndoesPersist | oci/internal/cache/index.go:133-262 | loading a persisted index into an empty one rebuilds the map exactly when every entry carries its own nonempty key |
| IndexText.MisfiledEntryMoves | oci/internal/cache/index.go:133-262 | an entry stored under another key than its own is loaded under its own |
| IndexText.LinesAreLoaded | oci/internal/cache/index.go:153-182 | the lines written are read back one entry each, put under the keys they carry |
| StringOrder.SortedKeys | oci/internal/cache/index.go:221-226 | the keys of the map, once each, in byte order |
| StringOrder.ListingUnique | oci/internal/cache/index.go:221-226 | there is one such listing, whatever the iteration order |
| StringOrder.LessExactly | oci/internal/cache/index.go:221-226 | the order is decided where two keys first differ |
| CacheIndex.Index.Get | oci/internal/cache/index.go:58-72 | the entry with its access marked |
| CacheIndex.Index.Put | oci/internal/cache/index.go:75-87 | sets one key; persists when the maximum is reached, and an error leaves the file as it was |
| CacheIndex.Index.Delete | oci/internal/cache/index.go:90-102 | removes one key; below 0.75 of the maximum nothing expired is left and the rest is persisted, otherwise nothing else changes |
| CacheIndex.Index.PersistEntries | oci/internal/cache/index.go:199-262 | the file holds the entries in key order, or is unchanged by an error at any point |
| CacheIndex.Index.CompactEntries | oci/internal/cache/index.go:272-285 | exactly the expired entries go, then the rest is persisted |
| CacheIndex.Index.Compact | oci/internal/cache/index.go:265-269 | a forced compaction removes exactly the expired entries |
| CacheIndex.Index.Cleanup | oci/internal/cache/index.go:324-350 | exactly the expired entries go, and none that has no time to live; persists when forced, sparse or a day after the last compaction |
| CacheIndex.Index.Load | oci/internal/cache/index.go:133-189 | adds the decodable lines over what is there; an error leaves those read so far |
| CacheIndex.UnexpiredStays | oci/internal/cache/index.go:75-102 | over every run an unexpired entry stays unless its own key is deleted or overwritten |
| CacheIndex.PutIsKept | oci/internal/cache/index.go:58-102 | what was put is there until it expires or its key is written again, and counts how often it was got since |
| CacheIndex.LostInRun | oci/internal/cache/index.go:90-102 | over every run a key that is gone was deleted, or compacted away after the expiry of the entry put last under it |
| CacheIndex.Reopen | oci/internal/cache/index.go:133-262 | writing an index and loading the file into a new one gives the same entries exactly when they carry their own keys |
| CacheIndex.Iterator.Next | oci/internal/cache/index.go:380-391 | moves to the next accepted key still present, touching those it passes, and never hands out a key twice or out of order |
| CacheIndex.Drain | oci/internal/cache/index.go:361-391 | going through an iterator hands out exactly the keys at which it stops, and touches every present key |
| CacheIndex.StoppingIsListing | oci/internal/cache/index.go:361-391 | the keys it stops at are the accepted present ones, once each, sorted |
| PathValidation.TraversalFreeHasNoParent | oci/internal/validate/path.go:74-140 | a path that passes has no parent component |
| PathValidation.TraversalFreeExactly | oci/internal/validate/path.go:74-140 | a relative path is free of traversal exactly when no part is `..`, cut at slashes or backslashes, its first component does not begin with two dots, and it has none of the encoded forms |
| PathValidation.OrdinaryPasses | oci/internal/validate/path.go:34-66 | relative paths of visible characters without backslash, percent sign and colon pass, when no component begins with a dot |
| LexicalPath.CleanComps | oci/archive_targz_helpers.go:122-123 | cleaning a path resolves its components |
| LexicalPath.JoinResolved | oci/archive_targz_helpers.go:122-123 | joining a member leads where the member leads from the directory |
| LexicalPath.BeneathByPrefix | oci/archive_targz_helpers.go:127-129 | the string prefix test with a separator is the component test |
| ArchivePaths.SafeJoinIsBeneath | oci/archive_targz_helpers.go:121-131 | safeJoin accepts exactly the members that lead to the root or beneath it |
| ArchivePaths.SafeJoinAtSlash | oci/archive_targz_helpers.go:121-131 | with the root "/" only the root itself is accepted |
| ArchivePaths.AcceptedIsBeneath | oci/archive_targz_helpers.go:178-200 | an accepted header leads to the root or beneath it for any prefix to strip |
| ArchivePaths.ValidatedIsAccepted | oci/archive_targz_helpers.go:178-200 | with an empty prefix, or one that ends at a component boundary, a validated name is placed at its components beneath the root, without those of the prefix when it begins with it |
| ArchivePaths.RejectedExactly | oci/archive_targz_helpers.go:178-200 | which validated names safeJoin rejects |
| ArchivePaths.SymlinkPrefixTestRedundant | oci/internal/validate/path.go:182-240 | the final string prefix test of the link validator rejects nothing that the other tests let through |
| ArchivePaths.SymlinkStaysBeneath | oci/archive_targz_helpers.go:285-299 | an accepted link leads beneath the root from the directory it is made in, but for one in the place of the root, and for that exactly when it does |
| ArchiveExtract.Extraction.HandleHeader | oci/archive_targz_helpers.go:142-175 | one header passes exactly when it is placed, sets no id, is no refused link and keeps within the limits with its number and the running total; then its parent directory and the directory, file with its content, or link have been asked for; otherwise the calls planned up to the one that failed |
| ArchiveExtract.Extraction.Extract | oci/archive_targz.go:264-319 | the loop handles headers up to the first that does not pass; after a success the calls are the target directory and then, header after header, the parent directory and what the header describes, and no others |
| ArchiveExtract.PlanFulfils | oci/archive_targz_helpers.go:142-299 | so do the planned calls for every archive whose headers all pass |
| ArchiveExtract.ConfigIsSound | oci/archive_targz_helpers.go:178-200 | whatever header passes the path tests leads to the root or beneath it, and no accepted link target leads up |
| ArchiveExtract.CallsStayBeneath | oci/archive_targz.go:304-316 | every call of a complete or stopped extraction is at or beneath the target or makes a directory above it that is there; its links lead down |
| LinkTree.FollowInside | oci/archive_targz_helpers.go:263-299 | following a path without a way up through links that lead down never leaves the directory it starts from |
| ArchiveTree.ExtractionStaysInside | oci/archive_targz_helpers.go:142-299 | over the whole run nothing outside the target changes, also through the links that the archive makes |
| ArchiveTree.AllStand | oci/archive_targz_helpers.go:235-299 | when all calls succeed, every directory, link and file is there in the end, a file with its content unless a later call writes it |
| ArchiveTree.ExtractionDelivers | oci/archive_targz.go:264-319 | after a successful extraction every header is delivered: a directory, a link with its target, or a file with its content unless a later header is a file there |
| TreeArchiver.Archiver.Extract | oci/archive_targz.go:264-319 | in an empty directory the calls of an extraction change nothing outside it; after a success every header is delivered; without faults it succeeds exactly when all headers pass and no call is stopped by what it finds |
| PlainArchives.CanExtractExactly | oci/archive_targz.go:264-319 | without links that is exactly when no file is in the place of the target or where some header needs a directory |
| ArchiveLimits.TotalIsSum | oci/archive_targz_helpers.go:203-232 | with room in 64 bits the running total is the sum of the sizes and within the limit |
| ArchiveLimits.CountHolds | oci/archive_targz_helpers.go:203-232 | the number of headers is within its limit |
| ArchiveLimits.LimitHoldsExactly | oci/archive_targz_helpers.go:203-232 | no archive gets past the size limit exactly when the largest total before the last header and one largest file fit in 64 bits |
| ArchiveLimits.TenByteLimit | oci/archive_targz_helpers.go:203-232 | two entries that pass a limit of ten bytes, with a negative total |
| TreeFs.FileSystem.Walk | oci/client.go:627-637 | the order of a walk: each place of the subtree once, parents first, a link not entered |
| TreeFs.MadeExactly | oci/client.go:573-576 | after MkdirAll a directory is in that place exactly when no link was |
| TreeFs.ThroughLink | oci/client.go:573-624 | where a link to a directory was, nothing is made, and what is put there goes through the link |
| AtomicExtract.RemoveAll | oci/client.go:627-642 | deleting backwards removes the whole subtree and nothing else when no call fails, and never anything else; of a link only the link |
| AtomicExtract.NextIsEmpty | oci/client.go:638-640 | each directory is empty when its turn comes |
| AtomicExtract.MoveFiles | oci/client.go:588-624 | on success every node of the source tree is at its place under the destination; nothing elsewhere changes; without faults only a clash of a directory with something else stops it |
| AtomicExtract.ExtractAtomically | oci/client.go:553-585 | the temp tree goes; a failed extraction leaves the filesystem as it was, and without faults only an archive that cannot be extracted fails; a failed move removes what has the name of the target; success overlays the directory that the target leads to with the extracted tree |
| AtomicExtract.RollbackExactly | oci/client.go:577-582 | a failed move leaves no trace exactly when the target is no link |
| AtomicExtract.LinkIsEmptyTarget | oci/client.go:348-358 | a link to an empty directory passes for an empty target |
| AtomicExtract.ExtractIntoEmpty | oci/client.go:348-358 | into an empty or missing target: without faults it fails only if the archive cannot be extracted, and otherwise the target holds exactly the extracted tree, with every header delivered |
| ArchiveInPlace.AllDeliveredAlike | oci/client.go:588-624 | what is delivered in one directory is delivered wherever its tree is moved to, also where paths lead through links of the archive |
| TreeMoves.MovePruned | oci/client.go:553-624 | moving and then removing the temp tree leaves the overlay |
| TreeMoves.EmptyTargetHoldsExtracted | oci/client.go:553-585 | an empty or missing target ends up with exactly the extracted tree |
| PartRanges.PartsRoundUp | aws/s3/internal/operations/copy/copy.go:219-225 | the number of parts is the size over the part size, rounded up |
| PartRanges.PartFits | aws/s3/internal/operations/copy/copy.go:383-394 | ranges are non-empty, at most one part long, and the last ends with the object |
| PartRanges.PartsAdjoin | aws/s3/internal/operations/copy/copy.go:383-394 | each range begins where the one before ends |
| PartRanges.PartsTile | aws/s3/internal/operations/copy/copy.go:383-394 | every byte is in exactly one range |
| MultipartCopy.RunInv | aws/s3/internal/operations/copy/copy.go:173-367 | the invariant of workers, semaphore, channel and requests over every interleaving |
| MultipartCopy.AnswersAreReplies | aws/s3/internal/operations/copy/copy.go:376-421 | a worker reports what the service replied for its part |
| MultipartCopy.AtMostFiveInFlight | aws/s3/internal/operations/copy/copy.go:370-373 | never more than five parts in flight |
| MultipartCopy.CompleteListsAllParts | aws/s3/internal/operations/copy/copy.go:424-446 | Complete is sent only when all parts succeeded, listing 1 to n in order with their own ETags |
| MultipartCopy.ListedPartsCoverObject | aws/s3/internal/operations/copy/copy.go:173-446 | every byte of the object lies in exactly one listed part, whose copy was answered |
| MultipartCopy.EveryUploadEnds | aws/s3/internal/operations/copy/copy.go:173-210 | a created upload ends in one Complete without Abort or in exactly one Abort |
| MultipartCopy.RequestsAreEvents | aws/s3/internal/operations/copy/copy.go:173-210 | the requests sent are those that were answered |
| MultipartCopy.SucceedsExactly | aws/s3/internal/operations/copy/copy.go:173-446 | over every run the copy succeeds exactly when the service accepts the Complete, and aborts only after a refused part was collected or the Complete was refused |
| MultipartCopy.AllAcceptedSucceeds | aws/s3/internal/operations/copy/copy.go:173-446 | when the service accepts everything, a finished copy has succeeded without an Abort |
| MultipartCopy.NeverStuck | aws/s3/internal/operations/copy/copy.go:288-367 | an unfinished copy can always go on |
| MultipartCopy.RunsEnd | aws/s3/internal/operations/copy/copy.go:288-367 | no run takes more than eight steps for each part and four for the upload |
| MultipartCopy.QuietExactly | aws/s3/internal/operations/copy/copy.go:288-367 | once aborted, no part will be in flight exactly when every worker has its answer |
| MultipartCopy.AbortsQuietlyExactly | aws/s3/internal/operations/copy/copy.go:173-210 | aborted uploads never have a part in flight exactly when there are no two parts |
| MultipartCopy.PartAfterAbort | aws/s3/internal/operations/copy/copy.go:288-367 | a run in which a part is sent after the abort |
| MultipartCopy.FailedCompleteIsQuiet | aws/s3/internal/operations/copy/copy.go:424-446 | an abort after a failed Complete finds no part in flight |
| BatchDelete.SplitIntoBatches | aws/s3/internal/operations/delete/batch.go:308-320 | the batches concatenate to the keys, are non-empty and full but perhaps the last |
| BatchDelete.BatchDeleter.DeleteLargeBatch | aws/s3/internal/operations/delete/batch.go:88-124 | sends the batches of a split in order; deleted is what the answers confirm, and errors are those of the answers and one for each key of a request that was not answered |
| BatchDelete.OutcomeIs | aws/s3/internal/operations/delete/batch.go:88-124 | merging the answers one by one gives that |
| BatchDelete.ConfirmedBySome | aws/s3/internal/operations/delete/batch.go:103-121 | a key is reported deleted exactly when some answer confirms it |
| BatchDelete.LargeBatchAccountsForAll | aws/s3/internal/operations/delete/batch.go:88-124 | then every key is in Deleted or Errors once, if each successful answer reports its own keys once |
| BatchDelete.BatchDeleter.DeleteBatch | aws/s3/internal/operations/delete/batch.go:44-56 | the same for any number of keys; no result only when a single request fails |
| BatchProtocols.ParallelRunInv | aws/s3/internal/operations/delete/batch.go:127-197 | keys waiting, under way, reported and failed add up to all keys in every interleaving |
| BatchProtocols.ParallelSaysSo | aws/s3/internal/operations/delete/batch.go:171-196 | in any order of replies every key is asked for; deleted is what the answers confirm, and errors are theirs and one without a key for each failed request |
| BatchProtocols.ParallelAccountsForAll | aws/s3/internal/operations/delete/batch.go:171-196 | at the end the result reports each key of the batches that succeeded once, and for each failed batch one error without a key in place of its keys |
| BatchProtocols.ParallelWithinLimit | aws/s3/internal/operations/delete/batch.go:148-169 | never more requests than slots |
| BatchProtocols.ParallelEnds | aws/s3/internal/operations/delete/batch.go:152-174 | some step is possible until the end, and every step is progress |
| BatchProtocols.StreamRunInv | aws/s3/internal/operations/delete/batch.go:200-276 | keys to come, collected, under way and reported add up in every interleaving; batches are within their size |
| BatchProtocols.StreamSaysSo | aws/s3/internal/operations/delete/batch.go:200-276 | in any order of replies and merges every key of the channel is asked for as often as it came; deleted is what the answers confirm, and errors are theirs and one for each key of a failed request |
| BatchProtocols.StreamAccountsForAll | aws/s3/internal/operations/delete/batch.go:257-276 | each key of the channel is reported as often as it came |
| BatchProtocols.StreamEnds | aws/s3/internal/operations/delete/batch.go:257-276 | some step is possible until everything is drained, and every step is progress |
| BatchProtocols.NothingLostOrRepeated | aws/s3/internal/operations/delete/batch.go:343-375 | in any interleaving of Add and Flush the keys added are those handed out and those pending, in order |
| BatchProtocols.OptimizedDeleter.Flush | aws/s3/internal/operations/delete/batch.go:350-361 | hands everything pending to the deleter and empties the buffer |
| BatchProtocols.OptimizedDeleter.DeleteWithAutoFlush | aws/s3/internal/operations/delete/batch.go:364-375 | flushes exactly when the buffer has reached its size |
| ClientPool.RunInv | aws/s3/internal/pool/client.go:61-127 | in every interleaving created = active + idle + destroyed, and idle is channel length plus uncounted receives minus uncounted sends |
| ClientPool.QuiescentCounts | aws/s3/internal/pool/client.go:61-134 | at rest idle is the channel length and at most the size, and active the clients handed out |
| ClientPool.QuiescentTells | aws/s3/internal/pool/client.go:61-134 | at rest Created, Reused and Destroyed count what has happened: clients made, found healthy, and found unhealthy or thrown away |
| ClientPool.HandedOutOnce | aws/s3/internal/pool/client.go:61-97 | a client is never handed to two callers |
| ClientPool.NeverAgain | aws/s3/internal/pool/client.go:61-127 | a client found unhealthy or thrown away is never handed out or pooled again |
| ClientPool.ChoicesExactly | aws/s3/internal/pool/client.go:61-127 | a healthy client put back goes to the channel exactly when that has room, and a Get finds none exactly when it is empty |
| EarthfileWalk.WalkCallsPreorder | earthly/earthfile/earthfile.go:217-419 | the walk calls for the commands of the tree in pre-order, depth being the nesting |
| EarthfileWalk.WalkStopsAtFirstError | earthly/earthfile/earthfile.go:217-256 | it makes all calls, or the shortest prefix that ends in an error |
| EarthfileWalk.WalkStatementCalls | earthly/earthfile/earthfile.go:261-419 | one statement: every field in turn, each control command before its body |
| EarthfileDependencies.Earthfile.Dependencies | earthly/earthfile/dependencies.go:19-38 | the first call computes the list, later calls return the same one |
| EarthfileDependencies.Earthfile.ParseDependencies | earthly/earthfile/dependencies.go:41-103 | the first reference with each key, of those met by walking base recipe and targets |
| EarthfileDependencies.Collector.AddDep | earthly/earthfile/dependencies.go:51-65 | keeps the list in step with all references offered |
| EarthfileDependencies.Collector.ProcessCopyCommand | earthly/earthfile/dependencies.go:175-193 | one reference for each argument that names a target |
| EarthfileDependencies.Collector.ProcessStatement | earthly/earthfile/dependencies.go:106-152 | collects what a walk of the statement meets, through all nested bodies |
| DependencyRefs.CollectIsWalk | earthly/earthfile/dependencies.go:84-130 | collecting over nested blocks meets the references of the pre-order walk, in its order |
| DependencyRefs.RefsByType | earthly/earthfile/dependencies.go:68-82 | going by command name and going by the type the walk hands out find the same references |
| DependencyRefs.ExtractExactly | earthly/earthfile/dependencies.go:223-261 | an argument is an artifact exactly when it reads file, plus, name, slash, path, and then file, plus, name is extracted |
| DependencyRefs.KeysTellApartExactly | earthly/earthfile/dependencies.go:60-64 | keys merge no two references exactly when no source name is another one, a colon and more |
| DependencyRefs.ColonFreeNamesAreApart | earthly/earthfile/dependencies.go:60-64 | colon-free names are always told apart |
| EarthfileDependencies.MergedDependencies | earthly/earthfile/dependencies.go:41-103 | an Earthfile with targets b and b:c whose two references become one dependency |
| DependencyRefs.DependenciesAreDedup | earthly/earthfile/dependencies.go:41-103 | the result is then the first-occurrence de-duplication of all references |
| EarthfileConvert.ConvertBlock | earthly/earthfile/parser.go:230-240 | the loop gives the flattened commands of the block |
| EarthfileConvert.ConvertStatement | earthly/earthfile/parser.go:245-357 | one statement's commands: WITH, IF and FOR before their bodies, END after a WAIT body, nothing for TRY |
| EarthfileConvert.BlockAgrees | earthly/earthfile/parser.go:230-357 | the walk has as many plain commands as the conversion keeps and TRY loses, and the same ones in order when nothing is lost |
| EarthfileConvert.ConversionKeepsPlains | earthly/earthfile/parser.go:230-357 | conversion and walk have the same plain commands in the same order exactly when none is under a TRY |
| EarthfileConvert.TryLosesItsCommands | earthly/earthfile/parser.go:230-357 | a block of one TRY around one command, which the walk meets and the conversion does not keep |
| TargetIndex.BuildIndex | earthly/earthfile/parser.go:197-207 | for every type the index gives what a scan would |
| TargetIndex.ConvertTarget | earthly/earthfile/parser.go:186-207 | a target's flattened commands with their index, none when there are no commands |
| TargetIndex.FindCommands | earthly/earthfile/target.go:4-17 | with or without an index, the commands of the type in order |
| TargetIndex.FoundByName | earthly/earthfile/target.go:4-17 | these are the commands of that name, and the control commands of that type; for IF and WAIT also their other names |
| EarthfileAst.TypeOfTypeName | earthly/earthfile/parser.go:396-474 | the type of a type's name is that type |
| EarthfileAst.NameOfType | earthly/earthfile/parser.go:396-474 | a name with a type is the name of that type, but for ELSE IF, ELSE and END |
| TargetIndex.HasCommand | earthly/earthfile/target.go:50-60 | whether there is one |
| TargetIndex.GetFromBase | earthly/earthfile/target.go:20-27 | the first FROM command |
| Secrets.Secret.Clear | secrets/core/secret.go:181-190 | zeroes the bytes in place and lets go of them |
| Secrets.Secret.String | secrets/core/secret.go:113-125 | the bytes; with AutoClear the buffer is zero afterwards |
| Secrets.Secret.Bytes | secrets/core/secret.go:130-144 | a copy that shares nothing; with AutoClear the buffer is zero afterwards |
| Secrets.SecretString.Resolve | secrets/core/secret_string.go:86-126 | gives what is cached, or asks the resolver for its reference and gives that answer; one-time: at most one success over any run, failures consume nothing; cached: asked at most once successfully between clears, and results disjoint from what is kept |
| Secrets.SecretString.String | secrets/core/secret_string.go:129-141 | the bytes of what is cached or of the resolver's answer, in every mode |
| Secrets.SecretString.IsConsumed | secrets/core/secret_string.go:155-159 | over any run true exactly when a one-time secret has been handed out or Clear has been called |
| Secrets.SecretString.Clear | secrets/core/secret_string.go:163-175 | zeroes and forgets a cached secret, uses up a one-time one |
| Secrets.SecretString.Bytes | secrets/core/secret_string.go:144-152 | the bytes of what is cached or of the resolver's answer, in every mode, in a fresh array, the cached ones untouched by AutoClear |
| Secrets.CallersCannotReachCache | secrets/core/secret_string.go:104-118 | overwriting and clearing a result does not change the next one, which is the same without asking again |
| Secrets.CopySecret | secrets/core/secret_string.go:184-203 | a deep copy |
| MemoryProvider.Provider.Store | secrets/providers/memory/provider.go:181-213 | sets one (path, version) of the flat map to a copy of the value; every other secret is the same object, and no stored object or buffer changes |
| MemoryProvider.Provider.StoreOver | secrets/providers/memory/provider.go:204-211 | a secret that is stored over is let go with its bytes |
| MemoryProvider.Provider.Resolve | secrets/providers/memory/provider.go:69-103 | a fresh copy of the stored secret, or none exactly when the flat map has none |
| MemoryProvider.SameKeyExactly | secrets/providers/memory/provider.go:69-103 | two references name the same secret exactly when their paths are the same and their versions too, the empty one being the latest |
| MemoryProvider.Provider.ResolveBatch | secrets/providers/memory/provider.go:107-150 | for each path the last of its references that is stored |
| MemoryProvider.Provider.Delete | secrets/providers/memory/provider.go:217-253 | removes one version, zeroes its bytes, drops an empty path, and changes no other secret |
| MemoryProvider.Provider.Rotate | secrets/providers/memory/provider.go:257-315 | adds one version as long as the latest and returns a copy; every other version is the same object, and no stored object or buffer changes |
| MemoryProvider.Provider.Close | secrets/providers/memory/provider.go:51-65 | zeroes and drops every secret |
| MemoryProvider.InsertRefines | secrets/providers/memory/provider.go:193-211 | inserting keeps the nested maps a picture of the flat one, with disjoint buffers |

## Left out

- Network, registry and SDK calls, go-git, ORAS, gzip and tar encoding, and HTTP transports are nondeterministic outcomes.
- `git/branch.go`, `git/sync.go`, `git/worktree.go`, `git/tag.go`, `executor`, `fs`, option setters and examples: thin wrappers.
- Context cancellation, logging and latency recording.
- `Refs` itself, reference kinds and `Resolve` in `git/refs.go`: calls into go-git around the matcher.
- Lru.LRUEviction.OnAdd: only for keys not tracked yet, because for a tracked key the code locks its own mutex a second time and stops.
- SizeEviction.SizeEviction.SelectForEviction: sums are unbounded integers where the code adds int64 values; an entry's metadata counts by its total length.
- The TTL strategy and the coordinator in `oci/internal/cache/manager.go`, whose size estimates give no clean bound.
- StorageProtocol.RunKeeps: listing and size computation are not operations of the protocol, and the writes into a stream's buffer before Close are one step.
- CacheStorage.StreamWriter.Close: the file lock that a failed Close keeps is in StorageProtocol, not in the view of one caller.
- CacheStorage.Storage.WriteAtomically: the storage's root path is absolute; files that are none of the caches' may hold anything, and changes to them are not followed.
- BlobCache.BlobCache.AddReference: counts are below the largest int64.
- BlobHistory.RefIsAccounted: for runs in which no digest strays into a blob; BlobHistory.BalanceHoldsExactly says that there the balance ends.
- IndexText.LoadUndoesPersist: lines longer than the scanner's limit and encoder failures aside; JSON keeps every entry as it is; white space outside ASCII around a line of a file edited by hand.
- CacheIndex.Index.Get: entries are values, so one entry object stored under two keys is not shared; statistics are left out as easy.
- CacheIndex.Index.Delete: 0.75 of the maximum is computed exactly, where the code uses float64.
- TagCache.TagCache.PutTagMapping: HasTagMapping is left out as it adds nothing to GetTagMapping.
- ArchivePaths.ValidatedIsAccepted: Unix paths only, lower-casing of ASCII letters only, and an absolute working directory.
- ArchiveLimits.LimitHoldsExactly: permissions and the default limits; sizes are not negative, and a file's content need not have its size.
- ArchiveTree.ExtractionStaysInside: a path beneath the target is followed from the directory that the target is; nothing else changes the tree meanwhile, and links that were in the target before lead down.
- PlainArchives.CanExtractExactly: for archives without links; with links a success still delivers every header, and TreeArchiver.Archiver.Extract says when there is one.
- ArchiveExtract.Extraction.Extract: at most 2^63 - 1 headers.
- AtomicExtract.MoveFiles: what it leaves is said for a source and a destination of which neither is in the other, with no way to one through what lies in the other, and no link in the place of a directory that is moved.
- AtomicExtract.ExtractAtomically: what a move leaves is said under the same conditions on the temp directory and the target; file modes and times.
- AtomicExtract.ExtractIntoEmpty: the temp directory does not lie in the target, and the way to it does not lead through the target's name; a walk lists the tree at its start.
- MultipartCopy.EveryUploadEnds: the choice between simple and multipart copy by size; part numbers are unbounded, and aborting is one request whose outcome is ignored, as in the code.
- BatchProtocols.ParallelAccountsForAll: error messages; a batch that fails is remembered in the model although the code keeps only its error.
- ClientPool.QuiescentCounts: use after Close, the shared client manager, the connection manager and the request batcher.
- EarthfileWalk.WalkCallsPreorder: source locations, the visitor walk, and nil callbacks and trees.
- EarthfileDependencies.Earthfile.Dependencies: functions of the Earthfile are not processed, as in the code; the field Local, which is computed from the target alone, is left out.
- EarthfileConvert.ConversionKeepsPlains: no statement has a WITH beside an IF or a FOR, as the parser sets one field of each statement.
- TargetIndex.BuildIndex: the maps from names to targets and functions, and strict validation.
- Secrets.SecretString.Resolve: a resolver that answers with neither a secret nor an error, and concurrent use beyond the mutex; resolvers hand out fresh secrets, as the memory provider does.
- MemoryProvider.Provider.Close: a path goes with its last version instead of after its inner loop; the random bytes and the version name of Rotate are parameters, and the random source does not fail.
- The S3 sync planner, scanner, comparator and executor, diff filters, log iterators, tag sorting, metrics and buffer pools.
