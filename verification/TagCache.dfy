/** The tag cache of oci/internal/cache/tags.go over the storage. */
module TagCache {
  import opened BlobCache
  import opened CachePaths
  import opened CacheStorage
  import opened LexicalPath
  import opened Framing
  import opened Optional
  import opened TagHistory
  import opened Text

  datatype TagMapping = TagMapping(
    reference: string, digest: string, createdAt: int, updatedAt: int, accessCount: int, history: seq<PastDigest>)

  datatype TagEntry = TagEntry(mapping: TagMapping, createdAt: int, accessedAt: int)

  datatype Config = Config(defaultTTL: int, maxHistorySize: int, enableHistory: bool)

  /** What NewTagCache makes of a configuration; a negative history size stays. */
  function Effective(c: Config): Config {
    if c.defaultTTL <= 0 || c.maxHistorySize < 0
    then Config(c.defaultTTL, if c.maxHistorySize == 0 then 10 else c.maxHistorySize, true)
    else c
  }

  /** encoding/json for tag entries: what was encoded decodes to the same. */
  datatype Codec = Codec(encode: TagEntry -> Bytes, decode: Bytes -> Option<TagEntry>)

  ghost predicate Faithful(codec: Codec) {
    forall e :: codec.decode(codec.encode(e)) == Some(e)
  }

  /******* References *******/

  predicate IsSeparator(c: char) {
    c == '/' || c == ':' || c == '@'
  }

  function SafeChar(c: char): char {
    if IsSeparator(c) then '_' else c
  }

  /** The file name for a reference. */
  function SafeName(reference: string): (name: string)
    ensures |name| == |reference|
    ensures forall i :: 0 <= i < |name| ==> name[i] == SafeChar(reference[i])
  {
    if reference == "" then "" else [SafeChar(reference[0])] + SafeName(reference[1..])
  }

  predicate Alike(x: char, y: char) {
    x == y || ((IsSeparator(x) || x == '_') && (IsSeparator(y) || y == '_'))
  }

  lemma SameChar(x: char, y: char)
    ensures SafeChar(x) == SafeChar(y) <==> Alike(x, y)
  {
  }

  /** Two references share an entry exactly when they are alike but for separators and underscores. */
  lemma {:induction false} SameEntryExactly(a: string, b: string)
    ensures SafeName(a) == SafeName(b) <==> |a| == |b| && forall i :: 0 <= i < |a| ==> Alike(a[i], b[i])
  {
    if |a| == |b| && a != "" {
      SameChar(a[0], b[0]);
      SameEntryExactly(a[1..], b[1..]);
      assert SafeName(a) == [SafeChar(a[0])] + SafeName(a[1..]) && SafeName(b) == [SafeChar(b[0])] + SafeName(b[1..]);
      assert SafeName(a)[1..] == SafeName(a[1..]) && SafeName(b)[1..] == SafeName(b[1..]);
      AlikeTail(a, b);
    }
  }

  lemma AlikeTail(a: string, b: string)
    requires |a| == |b| && a != ""
    ensures (forall i :: 0 <= i < |a| ==> Alike(a[i], b[i])) <==>
            Alike(a[0], b[0]) && forall i :: 0 <= i < |a[1..]| ==> Alike(a[1..][i], b[1..][i])
  {
    if Alike(a[0], b[0]) && forall i :: 0 <= i < |a[1..]| ==> Alike(a[1..][i], b[1..][i]) {
      forall i | 0 <= i < |a|
        ensures Alike(a[i], b[i])
      {
        if i > 0 {
          assert Alike(a[1..][i - 1], b[1..][i - 1]);
        }
      }
    }
  }

  /** tagPath leads to the file of that name. */
  lemma TagPathOf(root: string, reference: string)
    requires IsAbs(root) && ValidReference(reference)
    ensures PathOf(root, "tags/" + SafeName(reference)) == TagFile(SafeName(reference))
  {
    ValidHasColon(reference);
    var i :| 0 <= i < |reference| && reference[i] == ':';
    assert SafeName(reference)[i] == '_';
    assert '/' !in SafeName(reference);
    TagPathLeads(root, SafeName(reference));
  }

  lemma ValidHasColon(reference: string)
    requires ValidReference(reference)
    ensures ':' in reference
  {
    ValidExactly(reference);
    var last := LastPart(reference);
    if ':' !in last {
      SplitOne(last, ':');
    }
    if ':' !in reference {
      PartsWithout(reference, '/', ':', |Split(reference, '/')| - 1);
    }
  }

  predicate Simple(s: string) {
    '/' !in s && ':' !in s
  }

  /** Valid references of different repositories that share an entry, such as a/b:1 and a_b:1. */
  lemma SharedEntry(a: string, b: string, tag: string)
    requires Simple(a) && Simple(b) && Simple(tag) && tag != ""
    ensures var r, s := a + ['/'] + (b + ":" + tag), a + ['_'] + (b + ":" + tag);
            r != s && ValidReference(r) && ValidReference(s) && SafeName(r) == SafeName(s)
  {
    var last := b + ":" + tag;
    SlashedIsValid(a, b, tag, last);
    assert a + ['_'] + last == (a + ['_'] + b) + ":" + tag;
    IsValidTag(a + ['_'] + last, a + ['_'] + b, tag);
    OneSeparator(a, '/', '_', last);
  }

  lemma SlashedIsValid(a: string, b: string, tag: string, last: string)
    requires Simple(a) && Simple(b) && Simple(tag) && tag != "" && last == b + ":" + tag
    ensures ValidReference(a + ['/'] + last)
  {
    assert '/' !in last;
    SplitAppend(a, last, '/');
    SplitOne(a, '/');
    SplitOne(last, '/');
    IsValidTag(a + ['/'] + last, b, tag);
  }

  lemma OneSeparator(front: string, x: char, y: char, rest: string)
    requires Alike(x, y) && x != y
    ensures SafeName(front + [x] + rest) == SafeName(front + [y] + rest) && front + [x] + rest != front + [y] + rest
  {
    var r, s := front + [x] + rest, front + [y] + rest;
    SameEntryExactly(r, s);
    assert r[|front|] == x && s[|front|] == y;
  }

  lemma IsValidTag(reference: string, name: string, tag: string)
    requires ':' !in name && ':' !in tag && tag != "" && '/' !in name && '/' !in tag
    requires LastPart(reference) == name + ":" + tag || reference == name + ":" + tag
    ensures ValidReference(reference)
  {
    if reference == name + ":" + tag {
      SplitOne(reference, '/');
    }
    OneTag(name, tag);
    ValidExactly(reference);
  }

  lemma OneTag(name: string, tag: string)
    requires ':' !in name && ':' !in tag
    ensures Split(name + ":" + tag, ':') == [name, tag]
  {
    SplitAppend(name, tag, ':');
    SplitOne(name, ':');
    SplitOne(tag, ':');
  }

  function LastPart(reference: string): string {
    var parts := Split(reference, '/');
    parts[|parts| - 1]
  }

  predicate ValidReference(reference: string) {
    var last := LastPart(reference);
    if reference == "" then false
    else if ':' in last then
      var tagParts := Split(last, ':'); |tagParts| == 2 && tagParts[1] != ""
    else if '@' in last then
      var digestParts := Split(last, '@'); |digestParts| == 2 && ValidDigest(digestParts[1])
    else false
  }

  /** The digest case accepts nothing, as a digest has a colon itself: valid is one colon with something behind it. */
  lemma ValidExactly(reference: string)
    ensures ValidReference(reference) <==>
            var tagParts := Split(LastPart(reference), ':'); |tagParts| == 2 && tagParts[1] != ""
  {
    var last := LastPart(reference);
    if ':' !in last {
      SplitOne(last, ':');
      if '@' in last {
        var digestParts := Split(last, '@');
        if |digestParts| == 2 {
          PartsWithout(last, '@', ':', 1);
          SplitOne(digestParts[1], ':');
        }
      }
    }
  }

  lemma {:induction false} PartsWithout(s: string, c: char, x: char, i: nat)
    requires x !in s && i < |Split(s, c)|
    ensures x !in Split(s, c)[i]
  {
    if s != "" {
      var rest := Split(s[1..], c);
      if s[0] == c {
        if i > 0 {
          PartsWithout(s[1..], c, x, i - 1);
        }
      } else {
        PartsWithout(s[1..], c, x, i);
      }
    }
  }

  /******* What an entry is after its puts *******/

  /** The history that is kept of the superseded digests. */
  function Kept(c: Config, past: seq<PastDigest>): seq<PastDigest> {
    if !c.enableHistory then [] else if c.maxHistorySize < 0 then past else LastOf(past, c.maxHistorySize)
  }

  /** An entry reflects the puts since it was created. */
  ghost predicate Reflects(c: Config, e: TagEntry, log: seq<TagPut>) {
    && log != [] && InTime(log)
    && e.createdAt == e.mapping.createdAt == log[0].at
    && e.mapping.digest == log[|log| - 1].digest
    && e.mapping.updatedAt == log[|log| - 1].at
    && e.mapping.history == Kept(c, Superseded(log))
    && (c.enableHistory && c.maxHistorySize < 0 ==> Superseded(log) == [])
  }

  /** Slicing off the oldest with a negative maximum starts beyond the end. */
  predicate SliceFails(c: Config, e: TagEntry, digest: string) {
    c.enableHistory && e.mapping.digest != digest && c.maxHistorySize < 0
  }

  function Updated(c: Config, e: TagEntry, digest: string, now: int): TagEntry
    requires !SliceFails(c, e, digest)
  {
    var m := e.mapping;
    var history :=
      if c.enableHistory && m.digest != digest then LastOf(m.history + [PastDigest(m.digest, now)], c.maxHistorySize)
      else m.history;
    TagEntry(m.(digest := digest, updatedAt := now, history := history), e.createdAt, now)
  }

  function Created(reference: string, digest: string, now: int): TagEntry {
    TagEntry(TagMapping(reference, digest, now, now, 0, []), now, now)
  }

  lemma UpdatedReflects(c: Config, e: TagEntry, log: seq<TagPut>, digest: string, now: int)
    requires Reflects(c, e, log) && log[|log| - 1].at <= now && !SliceFails(c, e, digest)
    ensures Reflects(c, Updated(c, e, digest, now), log + [TagPut(digest, now)])
  {
    SupersededSnoc(log, TagPut(digest, now));
    if c.enableHistory && c.maxHistorySize >= 0 {
      LastOfSnoc(Superseded(log), PastDigest(e.mapping.digest, now), c.maxHistorySize);
    }
  }

  function Accessed(e: TagEntry, now: int): TagEntry {
    TagEntry(e.mapping.(accessCount := e.mapping.accessCount + 1), e.createdAt, now)
  }

  datatype PutAnswer = Stored | Rejected | WriteFailed | Panics

  class TagCache {
    const storage: Storage
    const config: Config
    const codec: Codec
    ghost var logs: map<string, seq<TagPut>>  // the puts since the mapping in each tag file was created
    ghost var clock: int

    ghost predicate Valid()
      reads this, storage
    {
      && storage.Valid() && Faithful(codec)
      && forall name :: TagFile(name) in storage.contents ==> RightFile(storage.contents, name)
    }

    ghost predicate RightFile(contents: map<Path, Bytes>, name: string)
      requires TagFile(name) in contents
      reads this
    {
      && name in logs
      && codec.decode(contents[TagFile(name)]).Some?
      && Reflects(config, codec.decode(contents[TagFile(name)]).value, logs[name])
      && logs[name][|logs[name]| - 1].at <= clock
    }

    constructor (storage: Storage, config: Config, codec: Codec)
      requires storage.Valid() && Faithful(codec) && forall name :: TagFile(name) !in storage.contents
      ensures Valid() && this.storage == storage && this.config == Effective(config) && this.codec == codec && logs == map[]
      ensures clock == 0
    {
      this.storage, this.config, this.codec := storage, Effective(config), codec;
      logs, clock := map[], 0;
    }

    predicate Expired(e: TagEntry, now: int) {
      config.defaultTTL > 0 && now - e.createdAt > config.defaultTTL
    }

    /** There is an entry, and the first of its puts has not expired, however often it has been asked for since. */
    ghost predicate Live(contents: map<Path, Bytes>, puts: map<string, seq<TagPut>>, name: string, now: int) {
      && TagFile(name) in contents && codec.decode(contents[TagFile(name)]).Some?
      && name in puts && puts[name] != []
      && (config.defaultTTL > 0 ==> now - puts[name][0].at <= config.defaultTTL)
    }

    ghost function EntryOf(contents: map<Path, Bytes>, name: string): TagEntry
      requires TagFile(name) in contents && codec.decode(contents[TagFile(name)]).Some?
    {
      codec.decode(contents[TagFile(name)]).value
    }

    twostate predicate Faultless()
      reads this, storage
    {
      storage.faults == old(storage.faults)
    }

    method ReadTagEntry(name: string) returns (r: Option<TagEntry>)
      requires Valid()
      modifies storage`faults
      ensures Valid() && storage.faults >= old(storage.faults)
      ensures r.Some? ==> TagFile(name) in storage.contents && r == codec.decode(storage.contents[TagFile(name)])
      ensures Faultless() ==> (r.Some? <==> TagFile(name) in storage.contents)
    {
      var answer := storage.ReadWithIntegrity(TagFile(name));
      r := if answer.Content? then codec.decode(answer.data) else None;
    }

    /** Writing the entry, which reflects the given puts. */
    method WriteTagEntry(name: string, e: TagEntry, ghost log: seq<TagPut>) returns (ok: bool)
      requires Valid() && Reflects(config, e, log) && log[|log| - 1].at <= clock
      modifies this`logs, storage
      ensures Valid() && storage.faults == old(storage.faults) + if ok then 0 else 1
      ensures storage.contents == if ok then old(storage.contents)[TagFile(name) := codec.encode(e)] else old(storage.contents)
      ensures logs == if ok then old(logs)[name := log] else old(logs)
    {
      ok := storage.WriteAtomically(TagFile(name), codec.encode(e));
      if ok {
        logs := logs[name := log];
      }
    }

    method RemoveTagEntry(name: string) returns (ok: bool)
      requires Valid()
      modifies storage
      ensures Valid() && storage.faults >= old(storage.faults)
      ensures storage.contents == if ok then old(storage.contents) - {TagFile(name)} else old(storage.contents)
      ensures ok <==> Faultless() && TagFile(name) in old(storage.contents)
    {
      ok := storage.Remove(TagFile(name));
    }

    /** The puts that a new one joins: those of a live mapping, or none. */
    ghost function LogBefore(contents: map<Path, Bytes>, name: string, now: int): seq<TagPut>
      reads this
    {
      if Live(contents, logs, name, now) then logs[name] else []
    }

    method PutTagMapping(reference: string, digest: string, now: int) returns (a: PutAnswer)
      requires Valid() && clock <= now
      modifies this, storage
      ensures Valid() && clock == now
      ensures storage.faults >= old(storage.faults)
      ensures a.Rejected? <==> !ValidReference(reference) || !ValidDigest(digest)
      ensures a.Rejected? ==> storage.contents == old(storage.contents) && logs == old(logs)
      ensures !a.Rejected? ==> PutDone(old(storage.contents), old(logs), SafeName(reference), digest, now, a)
      ensures !a.Rejected? && Faultless() ==> PutRight(old(storage.contents), old(logs), reference, digest, now, a)
    {
      if !ValidReference(reference) || !ValidDigest(digest) {
        clock := now;
        return Rejected;
      }
      a := PutValid(reference, digest, now);
    }

    /** Only this entry changes, and only when it was stored. */
    ghost predicate PutDone(before: map<Path, Bytes>, logsBefore: map<string, seq<TagPut>>,
                            name: string, digest: string, now: int, a: PutAnswer)
      reads this, storage
    {
      if a.Stored? then
        && TagFile(name) in storage.contents
        && storage.contents == before[TagFile(name) := storage.contents[TagFile(name)]]
        && name in logs && logs == logsBefore[name := logs[name]]
        && logs[name] != [] && logs[name][|logs[name]| - 1] == TagPut(digest, now)
      else storage.contents == before && logs == logsBefore
    }

    /** Without faults: the put joins those of a live mapping or starts anew, and only a negative history size gets in its way. */
    ghost predicate PutRight(before: map<Path, Bytes>, logsBefore: map<string, seq<TagPut>>,
                             reference: string, digest: string, now: int, a: PutAnswer)
      reads this, storage
    {
      var name := SafeName(reference);
      var live := Live(before, logsBefore, name, now);
      if live && SliceFails(config, EntryOf(before, name), digest) then a.Panics?
      else
        var entry := if live then Updated(config, EntryOf(before, name), digest, now) else Created(reference, digest, now);
        && a.Stored? && name in logs
        && logs[name] == (if live then logsBefore[name] else []) + [TagPut(digest, now)]
        && TagFile(name) in storage.contents && storage.contents[TagFile(name)] == codec.encode(entry)
    }

    /** Putting once the arguments have been looked at. */
    method PutValid(reference: string, digest: string, now: int) returns (a: PutAnswer)
      requires Valid() && clock <= now
      modifies this, storage
      ensures Valid() && clock == now && !a.Rejected? && storage.faults >= old(storage.faults)
      ensures PutDone(old(storage.contents), old(logs), SafeName(reference), digest, now, a)
      ensures Faultless() ==> PutRight(old(storage.contents), old(logs), reference, digest, now, a)
    {
      clock := now;
      var name := SafeName(reference);
      var existing := ReadTagEntry(name);
      if existing.Some? && !Expired(existing.value, now) {
        if SliceFails(config, existing.value, digest) {
          return Panics;
        }
        UpdatedReflects(config, existing.value, logs[name], digest, now);
        a := StoreEntry(name, Updated(config, existing.value, digest, now), logs[name], digest, now);
      } else {
        a := StoreEntry(name, Created(reference, digest, now), [], digest, now);
      }
    }

    /** Storing the entry that a put makes, after the puts so far. */
    method StoreEntry(name: string, e: TagEntry, ghost before: seq<TagPut>, digest: string, now: int) returns (a: PutAnswer)
      requires Valid() && Reflects(config, e, before + [TagPut(digest, now)]) && now <= clock
      modifies this`logs, storage
      ensures Valid() && storage.faults >= old(storage.faults) && (a.Stored? || a.WriteFailed?)
      ensures PutDone(old(storage.contents), old(logs), name, digest, now, a)
      ensures a.Stored? ==> logs[name] == before + [TagPut(digest, now)] && storage.contents[TagFile(name)] == codec.encode(e)
      ensures Faultless() ==> a.Stored?
    {
      var ok := WriteTagEntry(name, e, before + [TagPut(digest, now)]);
      a := if ok then Stored else WriteFailed;
    }

    /** What a get does to the files: a live entry is marked, an expired one removed. */
    ghost function AfterGet(contents: map<Path, Bytes>, name: string, now: int): map<Path, Bytes>
      reads this
    {
      if TagFile(name) !in contents then contents
      else if Live(contents, logs, name, now) then contents[TagFile(name) := codec.encode(Accessed(EntryOf(contents, name), now))]
      else contents - {TagFile(name)}
    }

    /** The mapping of a live tag, or none; errors of the cleanup and of the access update are ignored. */
    method GetTagMapping(reference: string, now: int) returns (m: Option<TagMapping>)
      requires Valid() && clock <= now
      modifies this, storage
      ensures Valid() && clock == now && logs == old(logs)
      ensures m.Some? ==> var name := SafeName(reference);
                && ValidReference(reference) && old(Live(storage.contents, logs, name, now))
                && m.value == Accessed(old(EntryOf(storage.contents, name)), now).mapping
                && m.value.accessCount == old(EntryOf(storage.contents, name)).mapping.accessCount + 1
                && name in logs && m.value.digest == logs[name][|logs[name]| - 1].digest
                && m.value.createdAt == logs[name][0].at && m.value.updatedAt == logs[name][|logs[name]| - 1].at
      ensures Faultless() ==> (m.Some? <==> ValidReference(reference) && old(Live(storage.contents, logs, SafeName(reference), now)))
      ensures !ValidReference(reference) ==> storage.contents == old(storage.contents)
      ensures ValidReference(reference) && Faultless() ==> storage.contents == old(AfterGet(storage.contents, SafeName(reference), now))
    {
      if !ValidReference(reference) {
        clock := now;
        return None;
      }
      m := GetNamed(SafeName(reference), now);
    }

    /** Getting once the reference has been looked at. */
    method GetNamed(name: string, now: int) returns (m: Option<TagMapping>)
      requires Valid() && clock <= now
      modifies this, storage
      ensures Valid() && clock == now && logs == old(logs)
      ensures m.Some? ==>
                && old(Live(storage.contents, logs, name, now)) && name in logs
                && m.value == Accessed(old(EntryOf(storage.contents, name)), now).mapping
                && m.value.digest == logs[name][|logs[name]| - 1].digest
                && m.value.createdAt == logs[name][0].at && m.value.updatedAt == logs[name][|logs[name]| - 1].at
      ensures Faultless() ==> (m.Some? <==> old(Live(storage.contents, logs, name, now)))
      ensures Faultless() ==> storage.contents == old(AfterGet(storage.contents, name, now))
    {
      clock := now;
      var entry := ReadTagEntry(name);
      if entry.None? {
        return None;
      }
      if Expired(entry.value, now) {
        var removed := RemoveTagEntry(name);
        return None;
      }
      var accessed := Accessed(entry.value, now);
      var written := WriteTagEntry(name, accessed, logs[name]);
      assert logs == old(logs);
      m := Some(accessed.mapping);
    }

    ghost function RecentPast(contents: map<Path, Bytes>, name: string, now: int): seq<PastDigest>
      reads this
    {
      Kept(config, Superseded(LogBefore(contents, name, now)))
    }

    /** A copy of what is kept of the superseded digests of a live tag. */
    method GetTagHistory(reference: string, now: int) returns (history: seq<PastDigest>)
      requires Valid() && clock <= now
      modifies this, storage
      ensures Valid() && clock == now && logs == old(logs)
      ensures Faultless() && ValidReference(reference) ==> history == old(RecentPast(storage.contents, SafeName(reference), now))
      ensures history == [] || history == old(RecentPast(storage.contents, SafeName(reference), now))
    {
      clock := now;
      if !ValidReference(reference) {
        return [];
      }
      var name := SafeName(reference);
      var entry := ReadTagEntry(name);
      if entry.None? {
        return [];
      }
      if Expired(entry.value, now) {
        var removed := RemoveTagEntry(name);
        return [];
      }
      history := entry.value.mapping.history;
    }

    method DeleteTagMapping(reference: string) returns (ok: bool)
      requires Valid()
      modifies storage
      ensures Valid()
      ensures storage.contents == if ok then old(storage.contents) - {TagFile(SafeName(reference))} else old(storage.contents)
      ensures ok ==> ValidReference(reference)
      ensures ValidReference(reference) ==> (ok <==> Faultless() && TagFile(SafeName(reference)) in old(storage.contents))
    {
      if !ValidReference(reference) {
        return false;
      }
      ok := RemoveTagEntry(SafeName(reference));
    }

    /** Deleting is documented to be idempotent, but after a success the next one is an error. */
    method DeleteTwice(reference: string) returns (first: bool, second: bool)
      requires Valid()
      modifies storage
      ensures Valid() && (first ==> !second)
    {
      first := DeleteTagMapping(reference);
      second := DeleteTagMapping(reference);
    }
  }

  /** What a live tag's history says: the last of its superseded digests in order, neighbours and the current digest apart. */
  lemma HistoryIsRecent(c: Config, e: TagEntry, log: seq<TagPut>)
    requires Reflects(c, e, log)
    ensures var h := e.mapping.history;
            && (forall i :: 0 <= i < |h| - 1 ==> h[i].digest != h[i + 1].digest && h[i].changedAt <= h[i + 1].changedAt)
            && (h != [] ==> h[|h| - 1].digest != e.mapping.digest && h[|h| - 1].changedAt <= e.mapping.updatedAt)
            && (c.enableHistory && c.maxHistorySize >= 0 ==>
                  |h| == (if |Superseded(log)| < c.maxHistorySize then |Superseded(log)| else c.maxHistorySize))
  {
    NeighboursDiffer(log);
    TimesInOrder(log);
  }

  /** A cache asked for with a negative history size cannot change a digest. */
  method NegativeHistoryPanics(storage: Storage, codec: Codec, reference: string, first: string, second: string, now: int)
    returns (created: PutAnswer, changed: PutAnswer)
    requires storage.Valid() && Faithful(codec) && forall name :: TagFile(name) !in storage.contents
    requires ValidReference(reference) && ValidDigest(first) && ValidDigest(second) && first != second && now >= 0
    modifies storage
    ensures storage.faults == old(storage.faults) ==> created.Stored? && changed.Panics?
  {
    var cache := new TagCache(storage, Config(1, -1, false), codec);
    ghost var name := SafeName(reference);
    created := cache.PutTagMapping(reference, first, now);
    assert storage.faults == old(storage.faults) ==> cache.Live(storage.contents, cache.logs, name, now);
    changed := cache.PutTagMapping(reference, second, now);
  }
}
