/** The reference-counting blob cache of oci/internal/cache/blob.go over the storage. */
module BlobCache {
  import opened Text
  import opened Framing
  import opened LexicalPath
  import opened BlobRefText
  import opened CachePaths
  import opened CacheStorage
  import opened Optional

  const SHA256_PREFIX := "sha256:"

  function ExtractHash(digest: string): string {
    TrimPrefix(digest, SHA256_PREFIX)
  }

  /******* The cache as references and blobs, by hash *******/

  datatype Store = Store(refs: map<string, BlobRef>, blobs: map<string, Bytes>)

  predicate Expired(ref: BlobRef, now: int) {
    now - ref.createdAt > ref.ttl
  }

  /** HasBlob removes an expired reference, and only the reference. */
  function Purge(s: Store, hash: string, now: int): Store {
    if hash in s.refs && Expired(s.refs[hash], now) then s.(refs := s.refs - {hash}) else s
  }

  /** One more put: the count goes up, or a new reference starts at one. */
  function WithPut(s: Store, hash: string, digest: string, now: int, ttl: int): Store {
    s.(refs := s.refs[hash :=
      if hash in s.refs then s.refs[hash].(digest := digest, refCount := s.refs[hash].refCount + 1)
      else BlobRef(digest, now, ttl, 1)])
  }

  function WithBlob(s: Store, hash: string, data: Bytes): Store {
    s.(blobs := s.blobs[hash := data])
  }

  /** What a step did: failed steps may have stopped half way. */
  datatype Step =
    | Put(hash: string, digest: string, data: Bytes, complete: bool, ok: bool)  // `complete`: the reader did not fail
    | Delete(hash: string, ok: bool)
    | Has(hash: string, found: bool, ok: bool)
    | Get(hash: string, data: Bytes, ok: bool)
    | StrayHas(file: Path, found: bool, ok: bool)  // with a digest that names no entry: both its paths lead to this file
    | StrayDelete(file: Path, ok: bool)

  ghost predicate Does(s: Store, step: Step, now: int, ttl: int, t: Store) {
    match step
    case Put(hash, digest, data, complete, ok) => DoesPut(s, hash, digest, data, complete, ok, now, ttl, t)
    case Delete(hash, ok) => DoesDelete(s, hash, ok, t)
    case Has(hash, found, ok) => DoesHas(s, hash, found, ok, now, t)
    case Get(hash, data, ok) => DoesGet(s, hash, data, ok, now, t)
    case StrayHas(file, found, ok) => DoesStrayHas(s, file, found, ok, now, t)
    case StrayDelete(file, ok) => DoesStrayDelete(s, file, ok, t)
  }

  predicate Present(s: Store, hash: string) {
    hash in s.refs && hash in s.blobs
  }

  ghost predicate DoesPut(s: Store, hash: string, digest: string, data: Bytes, complete: bool, ok: bool, now: int, ttl: int, t: Store) {
    var p := Purge(s, hash, now);
    var streamed := WithBlob(p, hash, data);
    if ok && Present(p, hash) then t == WithPut(p, hash, digest, now, ttl)
    else if ok then complete && t == WithPut(streamed, hash, digest, now, ttl)
    else t == s || t == p || (!Present(p, hash) && t == streamed)
  }

  function Decremented(ref: BlobRef): BlobRef {
    ref.(refCount := ref.refCount - 1)
  }

  function WithRef(s: Store, hash: string, ref: BlobRef): Store {
    s.(refs := s.refs[hash := ref])
  }

  function WithoutRef(s: Store, hash: string): Store {
    s.(refs := s.refs - {hash})
  }

  ghost predicate DoesDelete(s: Store, hash: string, ok: bool, t: Store) {
    if hash !in s.refs then t == s
    else if s.refs[hash].refCount > 1 then t == if ok then WithRef(s, hash, Decremented(s.refs[hash])) else s
    else if ok then hash in s.blobs && t == Store(s.refs - {hash}, s.blobs - {hash})
    else t == s || t == WithoutRef(s, hash)
  }

  ghost predicate DoesHas(s: Store, hash: string, found: bool, ok: bool, now: int, t: Store) {
    var p := Purge(s, hash, now);
    if ok then t == p && (found <==> Present(p, hash)) else t == s
  }

  ghost predicate DoesGet(s: Store, hash: string, data: Bytes, ok: bool, now: int, t: Store) {
    var p := Purge(s, hash, now);
    if ok then t == s == p && Present(p, hash) && data == p.blobs[hash] else t == s || t == p
  }

  /** A reference file is taken for the blob as well; a blob is taken for a reference; other files are none of the store's. */
  ghost predicate DoesStrayHas(s: Store, file: Path, found: bool, ok: bool, now: int, t: Store) {
    match file
    case RefFile(hash) =>
      var p := Purge(s, hash, now);
      if ok then t == p && (found <==> hash in p.refs) else t == s
    case BlobFile(hash) =>
      if ok && hash in s.blobs && ExpiredText(s.blobs[hash], now) then t == WithoutBlob(s, hash) && !found
      else t == s && (ok ==> (found <==> hash in s.blobs))
    case _ => t == s
  }

  ghost predicate DoesStrayDelete(s: Store, file: Path, ok: bool, t: Store) {
    match file
    case RefFile(hash) =>
      if hash !in s.refs then t == s
      else if s.refs[hash].refCount > 1 then t == if ok then WithRef(s, hash, Decremented(s.refs[hash])) else s
      else !ok && (t == s || t == WithoutRef(s, hash))
    case BlobFile(hash) =>
      if hash !in s.blobs then t == s
      else if Parse(s.blobs[hash]).Invalid? then !ok && t == s
      else
        var left := Decremented(Parse(s.blobs[hash]).value);
        if left.refCount > 0 then t == if ok then WithBlob(s, hash, MarshalText(left)) else s
        else !ok && (t == s || t == WithoutBlob(s, hash))
    case _ => t == s
  }

  function WithoutBlob(s: Store, hash: string): Store {
    s.(blobs := s.blobs - {hash})
  }

  predicate ExpiredText(text: Bytes, now: int) {
    Parse(text).Ok? && Expired(Parse(text).value, now)
  }

  /** The step leaves blobs alone that are under references: it is no operation with a digest that strays into a blob. */
  predicate Harmless(step: Step) {
    (step.StrayHas? || step.StrayDelete?) ==> !step.file.BlobFile?
  }

  ghost predicate Counted(s: Store) {
    forall h :: h in s.refs ==> s.refs[h].refCount >= 1
  }

  /** Every reference has its blob and counts at least one put. */
  ghost predicate Consistent(s: Store) {
    s.refs.Keys <= s.blobs.Keys && Counted(s)
  }

  /******* The files that hold the store *******/

  ghost predicate Holds(contents: map<Path, Bytes>, s: Store) {
    && (forall h :: RefFile(h) in contents <==> h in s.refs)
    && (forall h :: BlobFile(h) in contents <==> h in s.blobs)
    && (forall h :: h in s.refs ==> contents[RefFile(h)] == MarshalText(s.refs[h]) && Storable(s.refs[h]))
    && (forall h :: h in s.blobs ==> contents[BlobFile(h)] == s.blobs[h])
  }

  /** A reference file is never without its blob file. */
  ghost predicate RefsHaveBlobs(contents: map<Path, Bytes>) {
    forall h :: RefFile(h) in contents ==> BlobFile(h) in contents
  }

  lemma HoldsPutRef(contents: map<Path, Bytes>, s: Store, hash: string, ref: BlobRef, text: Bytes)
    requires Holds(contents, s) && Storable(ref) && text == MarshalText(ref)
    ensures Holds(contents[RefFile(hash) := text], s.(refs := s.refs[hash := ref]))
  {
  }

  lemma RefWritten(c: map<Path, Bytes>, s: Store, hash: string, ref: BlobRef)
    requires Holds(c, s) && Counted(s) && hash in s.blobs && Storable(ref) && ref.refCount >= 1
    ensures var d, t := c[RefFile(hash) := MarshalText(ref)], WithRef(s, hash, ref);
            && Holds(d, t) && Counted(t)
            && (s.refs.Keys <= s.blobs.Keys ==> t.refs.Keys <= t.blobs.Keys && RefsHaveBlobs(d))
  {
    HoldsPutRef(c, s, hash, ref, MarshalText(ref));
    SafeExactly(c[RefFile(hash) := MarshalText(ref)], WithRef(s, hash, ref));
  }

  lemma HoldsPutBlob(contents: map<Path, Bytes>, s: Store, hash: string, data: Bytes)
    requires Holds(contents, s)
    ensures Holds(contents[BlobFile(hash) := data], WithBlob(s, hash, data))
  {
  }

  lemma SafeExactly(contents: map<Path, Bytes>, s: Store)
    requires Holds(contents, s)
    ensures RefsHaveBlobs(contents) <==> s.refs.Keys <= s.blobs.Keys
  {
  }

  /******* The operations *******/

  /** Digests are an algorithm name and a hexadecimal hash of its length. */
  predicate ValidDigest(digest: string) {
    var parts := Split(digest, ':');
    && digest != ""
    && |parts| == 2
    && (parts[0] == "sha256" || parts[0] == "sha384" || parts[0] == "sha512")
    && (forall i :: 0 <= i < |parts[1]| ==> HexDigit(parts[1][i]))
    && |parts[1]| == (if parts[0] == "sha256" then 64 else if parts[0] == "sha384" then 96 else 128)
  }

  /** One of three algorithms, a colon, and as many hexadecimal digits as its hash has. */
  lemma ValidDigestExactly(algorithm: string, hash: string)
    requires ':' !in algorithm && ':' !in hash
    ensures ValidDigest(algorithm + [':'] + hash) <==>
              && (forall i :: 0 <= i < |hash| ==> HexDigit(hash[i]))
              && ((algorithm == "sha256" && |hash| == 64) || (algorithm == "sha384" && |hash| == 96)
                  || (algorithm == "sha512" && |hash| == 128))
  {
    SplitAppend(algorithm, hash, ':');
    SplitOne(algorithm, ':');
    SplitOne(hash, ':');
  }

  predicate HexDigit(c: char) {
    '0' <= c <= '9' || 'a' <= c <= 'f' || 'A' <= c <= 'F'
  }

  /******* What asking for a digest does to the files at its two paths *******/

  /** The digest is not refused as empty or too short. */
  predicate Fits(digest: string) {
    digest != "" && |ExtractHash(digest)| >= 4
  }

  /** A file that is not there, or holds a reference. */
  ghost predicate Readable(c: map<Path, Bytes>, refPath: Path) {
    refPath in c ==> Parse(c[refPath]).Ok?
  }

  ghost predicate RawHas(c: map<Path, Bytes>, refPath: Path, blobPath: Path, now: int, found: bool, ok: bool, d: map<Path, Bytes>) {
    if refPath.Elsewhere? || !ok then d == c
    else if refPath !in c then d == c && !found
    else
      && Parse(c[refPath]).Ok?
      && if Expired(Parse(c[refPath]).value, now) then d == c - {refPath} && !found
         else d == c && (!blobPath.Elsewhere? ==> (found <==> blobPath in c))
  }

  datatype ReadRef = NotThere | Unreadable | ReadRef(ref: BlobRef)

  ghost predicate IsRead(c: map<Path, Bytes>, refPath: Path, read: ReadRef) {
    match read
    case NotThere => refPath !in c
    case Unreadable => true
    case ReadRef(ref) => refPath in c && Parse(c[refPath]) == Ok(ref)
  }

  ghost predicate RawDelete(c: map<Path, Bytes>, refPath: Path, blobPath: Path, ok: bool, d: map<Path, Bytes>) {
    if refPath.Elsewhere? then d == c || d == c - {blobPath}
    else if refPath !in c then d == c
    else if Parse(c[refPath]).Invalid? then d == c && !ok
    else
      var left := Decremented(Parse(c[refPath]).value);
      if left.refCount > 0 then d == if ok then c[refPath := MarshalText(left)] else c
      else (d == c && !ok) || RawBoth(c, refPath, blobPath, ok, d)
  }

  ghost predicate RawBoth(c: map<Path, Bytes>, refPath: Path, blobPath: Path, ok: bool, d: map<Path, Bytes>) {
    if refPath.Elsewhere? then d == c
    else if ok then (!blobPath.Elsewhere? ==> blobPath in c && blobPath != refPath) && d == c - {refPath} - {blobPath}
    else d == c || d == c - {refPath}
  }

  /** The reference is to go with its blob, and there is no blob, or none any more once the reference is gone. */
  ghost predicate BlobGone(c: map<Path, Bytes>, refPath: Path, blobPath: Path) {
    && refPath in c && Parse(c[refPath]).Ok? && Parse(c[refPath]).value.refCount <= 1
    && (blobPath !in c || blobPath == refPath)
  }

  /** References have their blobs before, after and between the steps of a removal. */
  ghost predicate AllSafe(c: map<Path, Bytes>, d: map<Path, Bytes>, refPath: Path) {
    RefsHaveBlobs(c) && RefsHaveBlobs(d) && RefsHaveBlobs(c - {refPath})
  }

  /** The two paths that a digest leads to, and the entry that it names. */
  datatype Address = Address(refPath: Path, blobPath: Path, entry: Option<string>)

  function AddressOf(root: string, hash: string): Address
    requires |hash| >= 4
  {
    Address(RefPath(root, hash), BlobPath(root, hash), EntryOf(hash))
  }

  /** The files of an entry; or nowhere among the files of entries, unless it is one and the same place. */
  predicate Sound(at: Address) {
    match at.entry
    case Some(hash) => at.refPath == RefFile(hash) && at.blobPath == BlobFile(hash)
    case None => at.refPath == at.blobPath || (at.refPath.Elsewhere? && at.blobPath.Elsewhere?)
  }

  predicate Stray(at: Address) {
    at.entry.None? && !at.refPath.Elsewhere?
  }

  lemma AddressIsSound(root: string, hash: string)
    requires IsAbs(root) && |hash| >= 4
    ensures Sound(AddressOf(root, hash))
    ensures Stray(AddressOf(root, hash)) <==> Strays(root, hash)
  {
    if EntryOf(hash).Some? {
      EntryPaths(root, hash);
    } else {
      NoEntryPaths(root, hash);
    }
  }

  lemma ValidAddress(root: string, digest: string)
    requires IsAbs(root) && ValidDigest(digest)
    ensures Fits(digest)
    ensures var hash := ExtractHash(digest); AddressOf(root, hash) == Address(RefFile(hash), BlobFile(hash), Some(hash))
  {
    ValidDigestFits(digest);
    SlashFree(root, ExtractHash(digest));
    EntryPaths(root, ExtractHash(digest));
  }

  predicate IntoBlob(at: Address) {
    Stray(at) && at.refPath.BlobFile?
  }

  /** The step that a check is: of the entry, if there is one. */
  function HasStep(at: Address, found: bool, ok: bool): Step {
    match at.entry
    case Some(hash) => Has(hash, found, ok)
    case None => StrayHas(at.refPath, found, ok)
  }

  function DeleteStep(at: Address, ok: bool): Step {
    match at.entry
    case Some(hash) => Delete(hash, ok)
    case None => StrayDelete(at.refPath, ok)
  }

  /** The store that goes with the files after a check. */
  ghost function AfterHas(c: map<Path, Bytes>, s: Store, at: Address, now: int, found: bool, ok: bool, d: map<Path, Bytes>): (t: Store)
    requires Sound(at) && Holds(c, s) && RawHas(c, at.refPath, at.blobPath, now, found, ok, d)
    ensures Does(s, HasStep(at, found, ok), now, 0, t) && Holds(d, t)
  {
    match at.entry
    case Some(hash) => AfterRefHas(c, s, hash, BlobFile(hash), now, found, ok, d)
    case None => AfterStrayHas(c, s, at.refPath, at.blobPath, now, found, ok, d)
  }

  ghost function AfterStrayHas(c: map<Path, Bytes>, s: Store, file: Path, blobPath: Path, now: int, found: bool, ok: bool,
                               d: map<Path, Bytes>): (t: Store)
    requires blobPath == file || (file.Elsewhere? && blobPath.Elsewhere?)
    requires Holds(c, s) && RawHas(c, file, blobPath, now, found, ok, d)
    ensures DoesStrayHas(s, file, found, ok, now, t) && Holds(d, t)
  {
    match file
    case RefFile(hash) => AfterRefHas(c, s, hash, file, now, found, ok, d)
    case BlobFile(hash) => AfterBlobHas(c, s, hash, now, found, ok, d)
    case _ => s
  }

  ghost function AfterRefHas(c: map<Path, Bytes>, s: Store, hash: string, blobPath: Path, now: int, found: bool, ok: bool, d: map<Path, Bytes>): (t: Store)
    requires Holds(c, s) && RawHas(c, RefFile(hash), blobPath, now, found, ok, d)
    requires blobPath == BlobFile(hash) || blobPath == RefFile(hash)
    ensures if blobPath.BlobFile? then DoesHas(s, hash, found, ok, now, t) else DoesStrayHas(s, RefFile(hash), found, ok, now, t)
    ensures Holds(d, t)
  {
    if !ok || hash !in s.refs then s
    else
      ParseMarshal(s.refs[hash]);
      HoldsWithoutRef(c, s, hash);
      Purge(s, hash, now)
  }

  ghost function AfterBlobHas(c: map<Path, Bytes>, s: Store, hash: string, now: int, found: bool, ok: bool, d: map<Path, Bytes>): (t: Store)
    requires Holds(c, s) && RawHas(c, BlobFile(hash), BlobFile(hash), now, found, ok, d)
    ensures DoesStrayHas(s, BlobFile(hash), found, ok, now, t) && Holds(d, t)
  {
    HoldsWithoutBlob(c, s, hash);
    if ok && hash in s.blobs && ExpiredText(s.blobs[hash], now) then WithoutBlob(s, hash) else s
  }

  /** The store that goes with the files after a delete. */
  ghost function AfterDelete(c: map<Path, Bytes>, s: Store, at: Address, ok: bool, d: map<Path, Bytes>): (t: Store)
    requires Sound(at) && Holds(c, s) && RawDelete(c, at.refPath, at.blobPath, ok, d)
    ensures Does(s, DeleteStep(at, ok), 0, 0, t) && Holds(d, t)
  {
    match at.entry
    case Some(hash) => AfterRefDelete(c, s, hash, BlobFile(hash), ok, d)
    case None => AfterStrayDelete(c, s, at.refPath, at.blobPath, ok, d)
  }

  ghost function AfterStrayDelete(c: map<Path, Bytes>, s: Store, file: Path, blobPath: Path, ok: bool, d: map<Path, Bytes>): (t: Store)
    requires blobPath == file || (file.Elsewhere? && blobPath.Elsewhere?)
    requires Holds(c, s) && RawDelete(c, file, blobPath, ok, d)
    ensures DoesStrayDelete(s, file, ok, t) && Holds(d, t)
  {
    match file
    case RefFile(hash) => AfterRefDelete(c, s, hash, file, ok, d)
    case BlobFile(hash) => AfterBlobDelete(c, s, hash, ok, d)
    case _ => s
  }

  /** The reference counts down, or goes, with its blob when the other path is the blob's. */
  ghost function AfterRefDelete(c: map<Path, Bytes>, s: Store, hash: string, blobPath: Path, ok: bool, d: map<Path, Bytes>): (t: Store)
    requires Holds(c, s) && RawDelete(c, RefFile(hash), blobPath, ok, d)
    requires blobPath == BlobFile(hash) || blobPath == RefFile(hash)
    ensures if blobPath.BlobFile? then DoesDelete(s, hash, ok, t) else DoesStrayDelete(s, RefFile(hash), ok, t)
    ensures Holds(d, t)
  {
    if hash !in s.refs then s
    else
      ParseMarshal(s.refs[hash]);
      var ref := Decremented(s.refs[hash]);
      if ref.refCount > 0 then
        HoldsPutRef(c, s, hash, ref, MarshalText(ref));
        if ok then WithRef(s, hash, ref) else s
      else
        HoldsDropped(c, s, hash);
        HoldsWithoutRef(c, s, hash);
        if ok then Store(s.refs - {hash}, s.blobs - {hash})
        else if d == c then s
        else WithoutRef(s, hash)
  }

  ghost function AfterBlobDelete(c: map<Path, Bytes>, s: Store, hash: string, ok: bool, d: map<Path, Bytes>): (t: Store)
    requires Holds(c, s) && RawDelete(c, BlobFile(hash), BlobFile(hash), ok, d)
    ensures DoesStrayDelete(s, BlobFile(hash), ok, t) && Holds(d, t)
  {
    OneFileDelete(c, BlobFile(hash), ok, d);
    if d == c then s
    else
      var left := Decremented(Parse(s.blobs[hash]).value);
      if left.refCount > 0 then
        HoldsPutBlob(c, s, hash, MarshalText(left)); WithBlob(s, hash, MarshalText(left))
      else
        HoldsWithoutBlob(c, s, hash); WithoutBlob(s, hash)
  }

  /** A delete whose two paths are one file: the second removal does not find it any more. */
  lemma OneFileDelete(c: map<Path, Bytes>, file: Path, ok: bool, d: map<Path, Bytes>)
    requires RawDelete(c, file, file, ok, d) && !file.Elsewhere?
    ensures d != c ==>
              && file in c && Parse(c[file]).Ok?
              && var left := Decremented(Parse(c[file]).value);
                 if left.refCount > 0 then ok && d == c[file := MarshalText(left)] else !ok && d == c - {file}
    ensures file in c && Parse(c[file]).Invalid? ==> !ok
    ensures file in c && Parse(c[file]).Ok? && ok ==>
              var left := Decremented(Parse(c[file]).value); left.refCount > 0 && d == c[file := MarshalText(left)]
  {
  }

  lemma HoldsWithoutBlob(c: map<Path, Bytes>, s: Store, hash: string)
    requires Holds(c, s)
    ensures Holds(c - {BlobFile(hash)}, WithoutBlob(s, hash))
  {
  }

  lemma AfterHasKeeps(c: map<Path, Bytes>, s: Store, at: Address, now: int, found: bool, ok: bool, d: map<Path, Bytes>)
    requires Sound(at) && Holds(c, s) && Counted(s) && RawHas(c, at.refPath, at.blobPath, now, found, ok, d)
    ensures var t := AfterHas(c, s, at, now, found, ok, d);
            Counted(t) && (s.refs.Keys <= s.blobs.Keys && !IntoBlob(at) ==> t.refs.Keys <= t.blobs.Keys && RefsHaveBlobs(d))
  {
    var t := AfterHas(c, s, at, now, found, ok, d);
    DoesKeeps(s, HasStep(at, found, ok), now, 0, t);
    SafeExactly(d, t);
  }

  lemma AfterDeleteKeeps(c: map<Path, Bytes>, s: Store, at: Address, ok: bool, d: map<Path, Bytes>)
    requires Sound(at) && Holds(c, s) && Counted(s) && RawDelete(c, at.refPath, at.blobPath, ok, d)
    ensures var t := AfterDelete(c, s, at, ok, d);
            && Counted(t)
            && (s.refs.Keys <= s.blobs.Keys && !IntoBlob(at) ==>
                  t.refs.Keys <= t.blobs.Keys && AllSafe(c, d, at.refPath))
  {
    var t := AfterDelete(c, s, at, ok, d);
    DoesKeeps(s, DeleteStep(at, ok), 0, 0, t);
    SafeExactly(d, t);
    if s.refs.Keys <= s.blobs.Keys && !IntoBlob(at) {
      RemovalSafe(c, s, at.refPath);
    }
  }

  lemma HoldsWithoutRef(c: map<Path, Bytes>, s: Store, hash: string)
    requires Holds(c, s)
    ensures Holds(c - {RefFile(hash)}, WithoutRef(s, hash))
  {
  }

  lemma HoldsDropped(c: map<Path, Bytes>, s: Store, hash: string)
    requires Holds(c, s)
    ensures Holds(c - {RefFile(hash)} - {BlobFile(hash)}, Store(s.refs - {hash}, s.blobs - {hash}))
  {
  }

  /** What a caller passes to PutBlob: bytes, ending normally or with an error. */
  datatype Reader = NilReader | Reader(data: Bytes, complete: bool)

  class BlobCache {
    const storage: Storage
    const defaultTTL: int
    ghost var store: Store

    /** What the storage is told to watch. */
    ghost predicate Watched()
      reads storage
    {
      storage.Valid() && forall contents :: storage.safe(contents) <==> RefsHaveBlobs(contents)
    }

    ghost predicate Valid()
      reads this, storage
    {
      && Watched()
      && Int64(defaultTTL)
      && Holds(storage.contents, store)
      && Counted(store)
    }

    /** After every single change of the files so far, a crash there included, references had their blobs. */
    ghost predicate Whole()
      reads this, storage
    {
      storage.alwaysSafe && store.refs.Keys <= store.blobs.Keys
    }

    /** The filesystem has not failed during the call. */
    twostate predicate Faultless()
      reads this, storage
    {
      storage.faults == old(storage.faults)
    }

    constructor (storage: Storage, defaultTTL: int)
      requires storage.Valid() && storage.contents == map[] && Int64(defaultTTL)
      requires storage.alwaysSafe && forall contents :: storage.safe(contents) <==> RefsHaveBlobs(contents)
      ensures Valid() && Whole() && this.storage == storage && store == Store(map[], map[])
      ensures this.defaultTTL == if defaultTTL <= 0 then 24 * 3600 * 1_000_000_000 else defaultTTL
    {
      this.storage := storage;
      this.defaultTTL := if defaultTTL <= 0 then 24 * 3600 * 1_000_000_000 else defaultTTL;
      store := Store(map[], map[]);
    }

    /** Any digest, valid or not, may be asked for. One that names an entry, in whatever spelling, asks for that entry. */
    method HasBlob(digest: string, now: int) returns (found: bool, ok: bool)
      requires Valid()
      modifies this, storage
      ensures Valid() && storage.faults >= old(storage.faults)
      ensures !Fits(digest) ==> store == old(store) && !ok && (old(Whole()) ==> Whole())
      ensures Fits(digest) ==> HasDone(AddressOf(storage.root, ExtractHash(digest)), now, found, ok)
    {
      if !Fits(digest) {
        return false, false;
      }
      AddressIsSound(storage.root, ExtractHash(digest));
      found, ok := HasEntry(AddressOf(storage.root, ExtractHash(digest)), now);
    }

    /** What a check has done; only one that strays into a blob can take it from its reference. */
    twostate predicate HasDone(at: Address, now: int, found: bool, ok: bool)
      reads this, storage
    {
      && Does(old(store), HasStep(at, found, ok), now, 0, store)
      && (old(Whole()) && !IntoBlob(at) ==> Whole())
      && (at.entry.Some? && Faultless() ==> ok)
    }

    method HasEntry(at: Address, now: int) returns (found: bool, ok: bool)
      requires Valid() && Sound(at)
      modifies this, storage
      ensures Valid() && storage.faults >= old(storage.faults) && HasDone(at, now, found, ok)
    {
      ghost var before := storage.contents;
      found, ok := HasAt(at.refPath, at.blobPath, now);
      if at.entry.Some? {
        HeldIsReadable(before, store, at.entry.value);
      }
      AfterHasKeeps(before, store, at, now, found, ok, storage.contents);
      store := AfterHas(before, store, at, now, found, ok, storage.contents);
    }

    /** HasBlob for a valid digest, which names the entry of its own hash. */
    method HasValid(digest: string, now: int) returns (found: bool, ok: bool)
      requires Valid() && ValidDigest(digest)
      modifies this, storage
      ensures Valid() && DoesHas(old(store), ExtractHash(digest), found, ok, now, store)
      ensures old(Whole()) ==> Whole()
      ensures storage.faults >= old(storage.faults) && (Faultless() ==> ok)
    {
      ValidAddress(storage.root, digest);
      found, ok := HasBlob(digest, now);
      NamedHas(old(store), AddressOf(storage.root, ExtractHash(digest)), ExtractHash(digest), found, ok, now, store);
    }

    /** HasBlob once the paths are known. */
    method HasAt(refPath: Path, blobPath: Path, now: int) returns (found: bool, ok: bool)
      requires Watched()
      modifies storage
      ensures Watched() && storage.faults >= old(storage.faults)
      ensures RawHas(old(storage.contents), refPath, blobPath, now, found, ok, storage.contents)
      ensures old(storage.alwaysSafe) && RefsHaveBlobs(storage.contents) ==> storage.alwaysSafe
      ensures !refPath.Elsewhere? && !blobPath.Elsewhere? && Faultless() && Readable(old(storage.contents), refPath) ==> ok
    {
      var read := ReadAt(refPath);
      if read.NotThere? {
        return false, true;
      }
      if read.Unreadable? {
        return false, false;
      }
      if Expired(read.ref, now) {
        ok := storage.Remove(refPath);
        return false, ok;
      }
      var there := storage.CheckExists(blobPath);
      return there.Exists?, !there.ExistsError?;
    }

    /** What both operations begin with: whether there is a reference file, and what it holds. */
    method ReadAt(refPath: Path) returns (read: ReadRef)
      requires storage.Valid()
      modifies storage`faults
      ensures storage.Valid() && storage.faults >= old(storage.faults)
      ensures !refPath.Elsewhere? ==> IsRead(storage.contents, refPath, read)
      ensures !refPath.Elsewhere? && Readable(storage.contents, refPath) ==> (read.Unreadable? <==> !Faultless())
    {
      var there := storage.CheckExists(refPath);
      if there.ExistsError? {
        return Unreadable;
      }
      if there.NotExists? {
        return NotThere;
      }
      var data := storage.ReadWithIntegrity(refPath);
      if !data.Content? {
        return Unreadable;
      }
      var ref := ParseBlobRef(data.data);
      return if ref.Ok? then ReadRef(ref.value) else Unreadable;
    }

    /** Reads and parses the reference file. */
    method ReadReference(hash: string) returns (ref: Parsed<BlobRef>)
      requires Valid() && hash in store.refs
      modifies storage`faults
      ensures ref.Ok? ==> ref.value == store.refs[hash]
      ensures storage.faults >= old(storage.faults) && (Faultless() <==> ref.Ok?)
    {
      var data := storage.ReadWithIntegrity(RefFile(hash));
      if !data.Content? {
        return Invalid;
      }
      ParseMarshal(store.refs[hash]);
      ref := ParseBlobRef(data.data);
    }

    method WriteReference(hash: string, ref: BlobRef) returns (ok: bool)
      requires Valid() && hash in store.blobs && Storable(ref) && ref.refCount >= 1
      modifies this, storage
      ensures Valid() && (old(Whole()) ==> Whole())
      ensures store == if ok then WithRef(old(store), hash, ref) else old(store)
      ensures storage.faults >= old(storage.faults) && (Faultless() <==> ok)
    {
      RefWritten(storage.contents, store, hash, ref);
      var text := MarshalText(ref);
      ghost var written := WithRef(store, hash, ref);
      ok := WriteText(hash, text);
      if ok {
        store := written;
      }
    }

    method WriteText(hash: string, text: Bytes) returns (ok: bool)
      requires Watched()
      modifies storage
      ensures Watched()
      ensures storage.contents == if ok then old(storage.contents)[RefFile(hash) := text] else old(storage.contents)
      ensures storage.alwaysSafe <==> old(storage.alwaysSafe) && (ok ==> RefsHaveBlobs(storage.contents))
      ensures storage.faults == old(storage.faults) + if ok then 0 else 1
    {
      ok := storage.WriteAtomically(RefFile(hash), text);
    }

    /** Streams the reader's bytes into the blob file. A reader that fails still gets its bytes so far committed. */
    method StreamBlob(hash: string, reader: Reader) returns (ok: bool)
      requires Valid() && reader.Reader?
      modifies this, storage
      ensures Valid() && (old(Whole()) ==> Whole())
      ensures ok ==> reader.complete
      ensures store == old(store) || store == WithBlob(old(store), hash, reader.data)
      ensures ok || Faultless() ==> store == WithBlob(old(store), hash, reader.data)
      ensures storage.faults >= old(storage.faults) && (Faultless() && reader.complete <==> ok)
    {
      ghost var before := storage.contents;
      var closed := StreamInto(hash, reader.data);
      if closed {
        HoldsPutBlob(before, store, hash, reader.data);
        store := WithBlob(store, hash, reader.data);
        SafeExactly(storage.contents, store);
      }
      return closed && reader.complete;
    }

    method StreamInto(hash: string, data: Bytes) returns (closed: bool)
      requires Watched()
      modifies storage
      ensures Watched()
      ensures storage.contents == if closed then old(storage.contents)[BlobFile(hash) := data] else old(storage.contents)
      ensures storage.alwaysSafe <==> old(storage.alwaysSafe) && (closed ==> RefsHaveBlobs(storage.contents))
      ensures storage.faults == old(storage.faults) + if closed then 0 else 1
    {
      var streamWriter := new StreamWriter(storage, BlobFile(hash));
      streamWriter.Write(data);
      assert streamWriter.buffer == data;
      closed := streamWriter.Close();
    }

    /** The counter is an int64; it is far from its end. */
    ghost predicate Countable(hash: string)
      reads this
    {
      hash in store.refs ==> store.refs[hash].refCount < MAX_INT64
    }

    method AddReference(hash: string, digest: string, now: int) returns (ok: bool)
      requires Valid() && Int64(now) && '\n' !in digest && hash in store.blobs && Countable(hash)
      modifies this, storage
      ensures Valid() && (old(Whole()) ==> Whole())
      ensures store == if ok then WithPut(old(store), hash, digest, now, defaultTTL) else old(store)
      ensures storage.faults >= old(storage.faults) && (Faultless() <==> ok)
    {
      var next := NextReference(hash, digest, now);
      if next.Invalid? {
        return false;
      }
      ok := WriteReference(hash, next.value);
    }

    /** The reference to write: counting one more when there is one already, else a new one. */
    method NextReference(hash: string, digest: string, now: int) returns (next: Parsed<BlobRef>)
      requires Valid() && Int64(now) && '\n' !in digest && Countable(hash)
      modifies storage`faults
      ensures storage.faults >= old(storage.faults) && (Faultless() <==> next.Ok?)
      ensures next.Ok? ==>
                && Storable(next.value) && next.value.refCount >= 1
                && next.value == WithPut(store, hash, digest, now, defaultTTL).refs[hash]
    {
      var ref := BlobRef(digest, now, defaultTTL, 1);
      var there := storage.CheckExists(RefFile(hash));
      if there.ExistsError? {
        return Invalid;
      }
      if there.Exists? {
        var existing := ReadReference(hash);
        if existing.Invalid? {
          return Invalid;
        }
        ref := ref.(refCount := existing.value.refCount + 1, createdAt := existing.value.createdAt, ttl := existing.value.ttl);
      }
      return Ok(ref);
    }

    method RemoveReference(digest: string) returns (ok: bool)
      requires Valid()
      modifies this, storage
      ensures Valid() && storage.faults >= old(storage.faults)
      ensures |ExtractHash(digest)| < 4 ==> store == old(store) && !ok && (old(Whole()) ==> Whole())
      ensures |ExtractHash(digest)| >= 4 ==> DeleteDone(AddressOf(storage.root, ExtractHash(digest)), ok)
    {
      if |ExtractHash(digest)| < 4 {
        return false;
      }
      AddressIsSound(storage.root, ExtractHash(digest));
      ok := RemoveEntry(AddressOf(storage.root, ExtractHash(digest)));
    }

    /** What a delete has done; only one that strays into a blob can take it from its reference. */
    twostate predicate DeleteDone(at: Address, ok: bool)
      reads this, storage
    {
      && Does(old(store), DeleteStep(at, ok), 0, 0, store)
      && (old(Whole()) && !IntoBlob(at) ==> Whole())
      && (at.entry.Some? ==> (ok <==> Faultless() && !old(LacksBlob(store, at.entry.value))))
    }

    method RemoveEntry(at: Address) returns (ok: bool)
      requires Valid() && Sound(at)
      modifies this, storage
      ensures Valid() && storage.faults >= old(storage.faults) && DeleteDone(at, ok)
    {
      ghost var before := storage.contents;
      if at.entry.Some? {
        HeldIsReadable(before, store, at.entry.value);
        GoneExactly(before, store, at.entry.value);
      }
      ok := RemoveAt(at.refPath, at.blobPath);
      AfterDeleteKeeps(before, store, at, ok, storage.contents);
      store := AfterDelete(before, store, at, ok, storage.contents);
    }

    /** removeReference once the paths are known. */
    method RemoveAt(refPath: Path, blobPath: Path) returns (ok: bool)
      requires Watched() && (refPath.Elsewhere? ==> blobPath.Elsewhere?)
      modifies storage
      ensures Watched() && storage.faults >= old(storage.faults)
      ensures RawDelete(old(storage.contents), refPath, blobPath, ok, storage.contents)
      ensures !refPath.Elsewhere? && !blobPath.Elsewhere? && Readable(old(storage.contents), refPath) ==>
                (ok <==> Faultless() && !BlobGone(old(storage.contents), refPath, blobPath))
      ensures old(storage.alwaysSafe) && AllSafe(old(storage.contents), storage.contents, refPath) ==> storage.alwaysSafe
      ensures refPath.Elsewhere? && old(storage.alwaysSafe) ==> storage.alwaysSafe
    {
      var read := ReadAt(refPath);
      if read.NotThere? {
        return true;
      }
      if read.Unreadable? {
        return false;
      }
      var ref := Decremented(read.ref);
      if ref.refCount <= 0 {
        ok := RemoveBoth(refPath, blobPath);
        return;
      }
      ok := storage.WriteAtomically(refPath, MarshalText(ref));
    }

    /** The reference goes first, then the blob. */
    method RemoveBoth(refPath: Path, blobPath: Path) returns (ok: bool)
      requires Watched() && (refPath.Elsewhere? ==> blobPath.Elsewhere?)
      requires !refPath.Elsewhere? ==> refPath in storage.contents
      modifies storage
      ensures Watched() && storage.faults >= old(storage.faults)
      ensures RawBoth(old(storage.contents), refPath, blobPath, ok, storage.contents)
      ensures !refPath.Elsewhere? && !blobPath.Elsewhere? ==>
                (ok <==> Faultless() && blobPath in old(storage.contents) && blobPath != refPath)
      ensures old(storage.alwaysSafe) && AllSafe(old(storage.contents), storage.contents, refPath) ==> storage.alwaysSafe
      ensures refPath.Elsewhere? && old(storage.alwaysSafe) ==> storage.alwaysSafe
    {
      ok := storage.Remove(refPath);
      if ok {
        ok := storage.Remove(blobPath);
      }
    }

    method PutBlob(digest: string, reader: Reader, now: int) returns (ok: bool)
      requires Valid() && Int64(now) && Countable(ExtractHash(digest))
      modifies this, storage
      ensures Valid() && (old(Whole()) ==> Whole())
      ensures ok ==> ValidDigest(digest) && reader.Reader?
      ensures var data, complete := if reader.Reader? then reader.data else "", reader.Reader? && reader.complete;
              DoesPut(old(store), ExtractHash(digest), digest, data, complete, ok, now, defaultTTL, store)
      ensures Faultless() && ValidDigest(digest) && reader.Reader? ==>
                var hash := ExtractHash(digest);
                var p := Purge(old(store), hash, now);
                if Present(p, hash) || reader.complete then ok else !ok && store == WithBlob(p, hash, reader.data)
    {
      if digest == "" || reader.NilReader? || !ValidDigest(digest) {
        return false;
      }
      ok := PutValid(digest, reader, now);
    }

    /** Putting once the arguments have been looked at. */
    method PutValid(digest: string, reader: Reader, now: int) returns (ok: bool)
      requires Valid() && Int64(now) && Countable(ExtractHash(digest)) && ValidDigest(digest) && reader.Reader?
      modifies this, storage
      ensures Valid() && (old(Whole()) ==> Whole())
      ensures DoesPut(old(store), ExtractHash(digest), digest, reader.data, reader.complete, ok, now, defaultTTL, store)
      ensures Faultless() ==>
                var hash := ExtractHash(digest);
                var p := Purge(old(store), hash, now);
                if Present(p, hash) || reader.complete then ok else !ok && store == WithBlob(p, hash, reader.data)
    {
      ValidDigestFits(digest);
      var hash := ExtractHash(digest);
      var found, checked := HasValid(digest, now);
      ghost var p := store;
      ok := false;
      if checked {
        if found {
          ok := AddReference(hash, digest, now);
        } else {
          ok := PutNew(digest, reader, now);
        }
      }
      PutSettles(old(store), p, store, hash, digest, reader, found, checked, ok, now, defaultTTL);
    }

    /** The rest of PutBlob when the blob is not there: the blob first, then its reference. */
    method PutNew(digest: string, reader: Reader, now: int) returns (ok: bool)
      requires Valid() && Int64(now) && '\n' !in digest && reader.Reader? && Countable(ExtractHash(digest))
      modifies this, storage
      ensures Valid() && (old(Whole()) ==> Whole())
      ensures ok ==> reader.complete
      ensures var hash, s := ExtractHash(digest), old(store);
              var streamed := WithBlob(s, hash, reader.data);
              if ok then store == WithPut(streamed, hash, digest, now, defaultTTL) else store == s || store == streamed
      ensures storage.faults >= old(storage.faults)
      ensures Faultless() && |ExtractHash(digest)| >= 4 ==>
                (ok <==> reader.complete) && store.blobs == old(store).blobs[ExtractHash(digest) := reader.data]
    {
      var hash := ExtractHash(digest);
      if |hash| < 4 {
        return false;
      }
      ok := StreamBlob(hash, reader);
      if ok {
        ok := AddReference(hash, digest, now);
      }
    }

    method GetBlob(digest: string, now: int) returns (data: Bytes, ok: bool)
      requires Valid()
      modifies this, storage
      ensures Valid() && (old(Whole()) ==> Whole())
      ensures DoesGet(old(store), ExtractHash(digest), data, ok, now, store)
      ensures Faultless() ==>
                (ok <==> ValidDigest(digest) && Present(Purge(old(store), ExtractHash(digest), now), ExtractHash(digest)))
    {
      if digest == "" || !ValidDigest(digest) {
        return "", false;
      }
      data, ok := GetValid(digest, now);
    }

    /** Getting once the digest has been looked at. */
    method GetValid(digest: string, now: int) returns (data: Bytes, ok: bool)
      requires Valid() && ValidDigest(digest)
      modifies this, storage
      ensures Valid() && (old(Whole()) ==> Whole())
      ensures DoesGet(old(store), ExtractHash(digest), data, ok, now, store)
      ensures Faultless() ==> (ok <==> Present(Purge(old(store), ExtractHash(digest), now), ExtractHash(digest)))
    {
      var hash := ExtractHash(digest);
      var found, checked := HasValid(digest, now);
      if !checked || !found {
        GetSettles(old(store), hash, "", found, checked, false, now, store);
        return "", false;
      }
      data, ok := ReadBlob(hash);
      GetSettles(old(store), hash, data, found, checked, ok, now, store);
    }

    /** Opening the blob of a valid digest. */
    method ReadBlob(hash: string) returns (data: Bytes, ok: bool)
      requires Valid() && hash in store.blobs
      modifies storage`faults
      ensures Valid() && storage.faults >= old(storage.faults) && store == old(store) && (old(Whole()) ==> Whole())
      ensures ok <==> Faultless()
      ensures ok ==> data == store.blobs[hash]
    {
      var read := storage.ReadWithIntegrity(BlobFile(hash));
      return if read.Content? then read.data else "", read.Content?;
    }

    method DeleteBlob(digest: string) returns (ok: bool)
      requires Valid()
      modifies this, storage
      ensures Valid()
      ensures !Fits(digest) ==> store == old(store) && !ok && (old(Whole()) ==> Whole())
      ensures Fits(digest) ==> DeleteDone(AddressOf(storage.root, ExtractHash(digest)), ok)
    {
      if digest == "" {
        return false;
      }
      ok := RemoveReference(digest);
    }
  }

  lemma HeldIsReadable(c: map<Path, Bytes>, s: Store, hash: string)
    requires Holds(c, s)
    ensures Readable(c, RefFile(hash))
  {
    if hash in s.refs {
      ParseMarshal(s.refs[hash]);
    }
  }

  lemma RemovalSafe(c: map<Path, Bytes>, s: Store, path: Path)
    requires Holds(c, s) && s.refs.Keys <= s.blobs.Keys && !path.BlobFile?
    ensures RefsHaveBlobs(c) && RefsHaveBlobs(c - {path})
  {
  }

  /** Counts stay positive, and a harmless step keeps references with their blobs. */
  lemma DoesKeeps(s: Store, step: Step, now: int, ttl: int, t: Store)
    requires Does(s, step, now, ttl, t)
    ensures Counted(s) ==> Counted(t)
    ensures Harmless(step) && s.refs.Keys <= s.blobs.Keys ==> t.refs.Keys <= t.blobs.Keys
  {
  }

  lemma NamedHas(s: Store, at: Address, hash: string, found: bool, ok: bool, now: int, t: Store)
    requires at.entry == Some(hash) && Does(s, HasStep(at, found, ok), now, 0, t)
    ensures DoesHas(s, hash, found, ok, now, t)
  {
  }

  /** The last delete of a reference whose blob is not there fails. */
  predicate LacksBlob(s: Store, hash: string) {
    hash in s.refs && s.refs[hash].refCount <= 1 && hash !in s.blobs
  }

  lemma GoneExactly(c: map<Path, Bytes>, s: Store, hash: string)
    requires Holds(c, s)
    ensures BlobGone(c, RefFile(hash), BlobFile(hash)) <==> LacksBlob(s, hash)
  {
    if hash in s.refs {
      ParseMarshal(s.refs[hash]);
    }
  }

  lemma PutSettles(s: Store, p: Store, t: Store, hash: string, digest: string, reader: Reader, found: bool, checked: bool, ok: bool,
                   now: int, ttl: int)
    requires DoesHas(s, hash, found, checked, now, p) && reader.Reader?
    requires !checked ==> t == p && !ok
    requires checked && found ==> t == if ok then WithPut(p, hash, digest, now, ttl) else p
    requires var streamed := WithBlob(p, hash, reader.data);
             checked && !found ==>
               if ok then reader.complete && t == WithPut(streamed, hash, digest, now, ttl) else t == p || t == streamed
    ensures DoesPut(s, hash, digest, reader.data, reader.complete, ok, now, ttl, t)
    ensures checked ==> p == Purge(s, hash, now) && (found <==> Present(p, hash))
  {
  }

  lemma GetSettles(s: Store, hash: string, data: Bytes, found: bool, checked: bool, ok: bool, now: int, p: Store)
    requires DoesHas(s, hash, found, checked, now, p)
    requires ok ==> checked && found && hash in p.blobs && data == p.blobs[hash]
    ensures DoesGet(s, hash, data, ok, now, p)
    ensures checked ==> (found <==> Present(Purge(s, hash, now), hash))
  {
  }

  lemma ValidDigestFits(digest: string)
    requires ValidDigest(digest)
    ensures '\n' !in digest && Fits(digest) && Plain(ExtractHash(digest))
  {
    JoinSplit(digest, ':');
    var parts := Split(digest, ':');
    assert Join(parts, ':') == parts[0] + [':'] + Join(parts[1..], ':');
    NotInParts(digest, '\n');
    NotInParts(digest, '/');
    NotInParts(digest, '.');
    var hash := ExtractHash(digest);
    assert hash[..2][0] in digest;
  }

  lemma NotInParts(digest: string, x: char)
    requires ValidDigest(digest) && x in ['\n', '/', '.']
    ensures x !in digest
  {
    if x in digest {
      SplitKeeps(digest, ':', x);
    }
  }
}
