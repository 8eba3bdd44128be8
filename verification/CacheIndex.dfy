/** The cache index of oci/internal/cache/index.go: a map of entries, its file, and the iterator over it. */
module CacheIndex {
  import opened IndexText
  import opened Lists
  import opened Optional
  import opened StringOrder
  import opened Text

  /******* What each operation does to the entries *******/

  /** An entry without a time to live lasts for ever, another one until that has passed. */
  predicate Lasts(e: IndexEntry, now: int) {
    e.ttl <= 0 || now <= e.createdAt + e.ttl
  }

  function Live(entries: Entries, now: int): Entries {
    map k | k in entries && Lasts(entries[k], now) :: entries[k]
  }

  function Without(entries: Entries, key: string): Entries {
    map k | k in entries && k != key :: entries[k]
  }

  function TouchedEntry(e: IndexEntry, now: int): IndexEntry {
    e.(accessedAt := now, accessCount := e.accessCount + 1)
  }

  /** The same entries, with these accessed. */
  function Touched(entries: Entries, keys: seq<string>, now: int): Entries {
    map k | k in entries :: if k in keys then TouchedEntry(entries[k], now) else entries[k]
  }

  /** Fewer entries than 0.75 of the maximum. */
  predicate Sparse(entries: Entries, maxEntries: int) {
    4 * |entries| < 3 * maxEntries
  }

  datatype Op = Get(key: string) | Put(key: string, entry: IndexEntry) | Delete(key: string) | Compact | Cleanup(force: bool)

  function After(entries: Entries, maxEntries: int, op: Op, now: int): Entries {
    match op
    case Get(key) => Touched(entries, [key], now)
    case Put(key, entry) => entries[key := entry]
    case Delete(key) =>
      var left := Without(entries, key);
      if Sparse(left, maxEntries) then Live(left, now) else left
    case Compact => Live(entries, now)
    case Cleanup(_) => Live(entries, now)
  }

  class Index {
    const json: Json
    const indexPath: string
    const maxEntries: int
    var entries: Entries
    var lastCompaction: int
    var file: Option<string>  // the index file
    var temp: Option<string>  // the file beside it that is being written
    ghost var persisted: Option<Entries>  // what the index file was last written from
    ghost var faults: nat                 // how often the filesystem or the encoder has failed

    ghost predicate Valid()
      reads this
    {
      persisted.Some? ==> file == Some(FileText(json, persisted.value))
    }

    constructor (json: Json, indexPath: string, maxEntries: int, file: Option<string>, now: int)
      ensures Valid() && entries == map[] && persisted == None && this.file == file && lastCompaction == now && faults == 0
      ensures this.json == json && this.indexPath == indexPath && this.maxEntries == maxEntries
    {
      this.json, this.indexPath, this.maxEntries, this.file := json, indexPath, maxEntries, file;
      entries, lastCompaction, temp, persisted, faults := map[], now, None, None, 0;
    }

    method SystemFails() returns (fails: bool)
      modifies `faults
      ensures faults == old(faults) + if fails then 1 else 0
    {
      fails := *;
      if fails {
        faults := faults + 1;
      }
    }

    method Get(key: string, now: int) returns (entry: Option<IndexEntry>)
      requires Valid()
      modifies `entries
      ensures Valid() && entries == After(old(entries), maxEntries, Op.Get(key), now)
      ensures entry == if key in entries then Some(entries[key]) else None
      ensures key in old(entries) ==> key in entries && entries[key].accessedAt == now
                                      && entries[key].accessCount == old(entries)[key].accessCount + 1
    {
      if key !in entries {
        return None;
      }
      entries := entries[key := TouchedEntry(entries[key], now)];
      entry := Some(entries[key]);
    }

    method Put(key: string, entry: IndexEntry, now: int) returns (ok: bool)
      requires Valid()
      modifies this
      ensures Valid() && entries == After(old(entries), maxEntries, Op.Put(key, entry), now)
      ensures lastCompaction == old(lastCompaction)
      ensures if |entries| >= maxEntries then Persisted(old(file), old(persisted), old(faults), ok)
              else ok && NotPersisted(old(file), old(persisted), old(faults))
    {
      entries := entries[key := entry];
      if |entries| >= maxEntries {
        ok := PersistEntries();
      } else {
        ok := true;
      }
    }

    method Delete(key: string, now: int) returns (ok: bool)
      requires Valid()
      modifies this
      ensures Valid() && entries == After(old(entries), maxEntries, Op.Delete(key), now)
      ensures if 4 * |old(entries).Keys - {key}| < 3 * maxEntries
              then (forall k :: k in entries ==> Lasts(entries[k], now))
                   && lastCompaction == now && Persisted(old(file), old(persisted), old(faults), ok)
              else ok && lastCompaction == old(lastCompaction) && NotPersisted(old(file), old(persisted), old(faults))
    {
      assert Without(entries, key).Keys == entries.Keys - {key};
      entries := Without(entries, key);
      if 4 * |entries| < 3 * maxEntries {
        ok := CompactEntries(now);
      } else {
        ok := true;
      }
    }

    /** After an attempt to write the file: the entries are on disk, or an error left the file as it was. */
    ghost predicate Persisted(oldFile: Option<string>, oldPersisted: Option<Entries>, oldFaults: nat, ok: bool)
      reads this
    {
      && (ok <==> faults == oldFaults)
      && (ok && indexPath != "" ==> persisted == Some(entries))
      && (!ok || indexPath == "" ==> file == oldFile && persisted == oldPersisted)
    }

    ghost predicate NotPersisted(oldFile: Option<string>, oldPersisted: Option<Entries>, oldFaults: nat)
      reads this
    {
      file == oldFile && persisted == oldPersisted && faults == oldFaults
    }

    /** The unexported persist. */
    method PersistEntries() returns (ok: bool)
      requires Valid()
      modifies `file, `temp, `persisted, `faults
      ensures Valid() && Persisted(old(file), old(persisted), old(faults), ok)
    {
      if indexPath == "" {
        return true;
      }
      var fails := SystemFails();
      if fails {
        return false;
      }
      temp := Some("");
      var keys := SortedKeys(entries.Keys);
      IsListing(keys, entries.Keys);
      var written, text := WriteLines(keys);
      if !written {
        temp := *;
        return false;
      }
      fails := SystemFails();
      if fails {
        temp := *;
        return false;
      }
      temp := Some(text);
      fails := SystemFails();
      if fails {
        return false;
      }
      file, temp := temp, None;
      persisted := Some(entries);
      ok := true;
    }

    /** The loop over the sorted keys; encoding or writing any line may fail. */
    method WriteLines(keys: seq<string>) returns (ok: bool, text: string)
      requires forall k :: k in keys ==> k in entries
      modifies `faults
      ensures ok <==> faults == old(faults)
      ensures old(faults) <= faults
      ensures ok ==> text == Lines(json, entries, keys)
    {
      text := "";
      for i := 0 to |keys|
        invariant text + Lines(json, entries, keys[i..]) == Lines(json, entries, keys)
        invariant faults == old(faults)
      {
        var fails := SystemFails();
        if fails {
          return false, text;
        }
        var line := json.marshal(entries[keys[i]]);
        NextLine(json, entries, keys, i, text);
        text := text + line + "\n";
      }
      assert keys[|keys|..] == [];
      ok := true;
    }

    /** The unexported compact. */
    method CompactEntries(now: int) returns (ok: bool)
      requires Valid()
      modifies this
      ensures Valid() && entries == Live(old(entries), now) && lastCompaction == now
      ensures Persisted(old(file), old(persisted), old(faults), ok)
    {
      var rest := entries.Keys;
      while rest != {}
        invariant rest <= old(entries).Keys
        invariant entries == map k | k in old(entries) && (k in rest || Lasts(old(entries)[k], now)) :: old(entries)[k]
        invariant Valid() && NotPersisted(old(file), old(persisted), old(faults))
        decreases rest
      {
        var key :| key in rest;
        rest := rest - {key};
        if entries[key].IsExpired(now) {
          entries := Without(entries, key);
        }
      }
      lastCompaction := now;
      ok := PersistEntries();
    }

    method Compact(now: int) returns (ok: bool)
      requires Valid()
      modifies this
      ensures Valid() && entries == After(old(entries), maxEntries, Op.Compact, now) && lastCompaction == now
      ensures Persisted(old(file), old(persisted), old(faults), ok)
    {
      ok := CompactEntries(now);
    }

    /** Whether cleaning up goes on to compact. */
    predicate ShouldCompact(left: Entries, force: bool, now: int)
      reads `lastCompaction
    {
      force || Sparse(left, maxEntries) || now - lastCompaction > 24 * 3600_000_000_000
    }

    method Cleanup(force: bool, now: int) returns (ok: bool)
      requires Valid()
      modifies this
      ensures Valid() && entries == After(old(entries), maxEntries, Op.Cleanup(force), now)
      ensures forall k :: k in entries <==> k in old(entries) && Lasts(old(entries)[k], now)
      ensures if force || 4 * |entries| < 3 * maxEntries || now - old(lastCompaction) > 24 * 3600_000_000_000
              then lastCompaction == now && Persisted(old(file), old(persisted), old(faults), ok)
              else ok && lastCompaction == old(lastCompaction) && NotPersisted(old(file), old(persisted), old(faults))
    {
      var expired := ExpiredKeys(now);
      for i := 0 to |expired|
        invariant entries == map k | k in old(entries) && k !in expired[..i] :: old(entries)[k]
        invariant Valid() && lastCompaction == old(lastCompaction) && NotPersisted(old(file), old(persisted), old(faults))
      {
        assert expired[..i + 1] == expired[..i] + [expired[i]];
        entries := Without(entries, expired[i]);
      }
      assert expired[..|expired|] == expired;
      assert entries == Live(old(entries), now);
      if ShouldCompact(entries, force, now) {
        ok := CompactEntries(now);
      } else {
        ok := true;
      }
    }

    /** Keys that Cleanup gathers, in whatever order the map is iterated. */
    method ExpiredKeys(now: int) returns (expired: seq<string>)
      ensures forall k :: k in expired <==> k in entries && !Lasts(entries[k], now)
    {
      expired := [];
      var rest := entries.Keys;
      while rest != {}
        invariant rest <= entries.Keys
        invariant forall k :: k in expired <==> k in entries && k !in rest && !Lasts(entries[k], now)
        decreases rest
      {
        var key :| key in rest;
        rest := rest - {key};
        if entries[key].IsExpired(now) {
          expired := expired + [key];
        }
      }
    }

    /** Loads lines over what is there. An error after n of them leaves those loaded; a missing file is none. */
    method Load() returns (ok: bool, n: nat)
      requires Valid()
      modifies `entries, `faults
      ensures Valid()
      ensures file.None? && faults == old(faults) ==> ok && entries == old(entries)
      ensures file.Some? ==> n <= |Split(file.value, '\n')|
                             && entries == AddLines(json, old(entries), Split(file.value, '\n')[..n])
                             && (ok ==> n == |Split(file.value, '\n')|)
      ensures ok <==> faults == old(faults)
    {
      n := 0;
      if file.None? {
        return true, 0;
      }
      var lines := Split(file.value, '\n');
      var fails := SystemFails();
      if fails {
        return false, 0;
      }
      while n < |lines|
        invariant n <= |lines| && entries == AddLines(json, old(entries), lines[..n])
        invariant faults == old(faults)
      {
        var line := TrimSpace(lines[n]);
        assert lines[..n + 1] == lines[..n] + [lines[n]];
        AddLinesSnoc(json, old(entries), lines[..n], lines[n]);
        if line != "" {
          var d := json.unmarshal(line);
          if d.Decoded? && d.entry.key != "" {
            entries := entries[d.entry.key := d.entry];
          }
        }
        n := n + 1;
        fails := SystemFails();
        if fails {
          return false, n;
        }
      }
      assert lines[..n] == lines;
      ok := true;
    }
  }

  lemma NextLine(json: Json, entries: Entries, keys: seq<string>, i: nat, text: string)
    requires i < |keys| && forall k :: k in keys ==> k in entries
    ensures text + Lines(json, entries, keys[i..]) ==
            text + json.marshal(entries[keys[i]]) + "\n" + Lines(json, entries, keys[i + 1..])
  {
    assert keys[i..][1..] == keys[i + 1..];
    var line, rest := json.marshal(entries[keys[i]]), Lines(json, entries, keys[i + 1..]);
    assert text + (line + "\n" + rest) == text + line + "\n" + rest;
  }

  /** Writing an index and loading the file into a new one. */
  method Reopen(idx: Index, maxEntries: int, now: int) returns (ok: bool, reopened: Index)
    requires idx.Valid() && Faithful(idx.json) && idx.indexPath != ""
    modifies idx
    ensures idx.Valid() && idx.entries == old(idx.entries) && fresh(reopened) && reopened.Valid()
    ensures ok ==> (reopened.entries == idx.entries <==> OwnKeys(idx.entries))
    ensures ok <==> idx.faults == old(idx.faults) && reopened.faults == 0
  {
    ok := idx.PersistEntries();
    reopened := new Index(idx.json, idx.indexPath, maxEntries, idx.file, now);
    if ok {
      var n;
      ok, n := reopened.Load();
      LoadUndoesPersist(idx.json, idx.entries);
      assert ok ==> Split(idx.file.value, '\n')[..n] == Split(idx.file.value, '\n');
    }
  }

  /******* Runs *******/

  datatype Event = Event(op: Op, now: int)

  /** The entries after each event, in order, with time never going back. */
  ghost predicate IsRun(states: seq<Entries>, events: seq<Event>, maxEntries: int) {
    && |states| == |events| + 1
    && (forall i :: 0 <= i < |events| ==> states[i + 1] == After(states[i], maxEntries, events[i].op, events[i].now))
    && (forall i, j :: 0 <= i < j < |events| ==> events[i].now <= events[j].now)
  }

  /** An entry but for when and how often it was accessed. */
  predicate SameEntry(a: IndexEntry, b: IndexEntry) {
    a.(accessedAt := b.accessedAt, accessCount := b.accessCount) == b
  }

  predicate Writes(op: Op, key: string) {
    (op.Put? || op.Delete?) && op.key == key
  }

  /** An entry stays through every event that comes before its expiry and does not delete or overwrite its own key. */
  lemma {:induction false} UnexpiredStays(states: seq<Entries>, events: seq<Event>, maxEntries: int, i: nat, j: nat, key: string)
    requires IsRun(states, events, maxEntries) && i <= j < |states|
    requires key in states[i]
    requires i < j ==> Lasts(states[i][key], events[j - 1].now)
    requires forall k :: i <= k < j ==> !Writes(events[k].op, key)
    ensures key in states[j] && SameEntry(states[j][key], states[i][key])
    decreases j
  {
    if i < j {
      UnexpiredStays(states, events, maxEntries, i, j - 1, key);
      assert states[j - 1 + 1] == After(states[j - 1], maxEntries, events[j - 1].op, events[j - 1].now);
    }
  }

  function Gets(events: seq<Event>, key: string): nat {
    if events == [] then 0
    else Gets(events[..|events| - 1], key) + if events[|events| - 1].op == Op.Get(key) then 1 else 0
  }

  /** What was put stays so, and counts how often it was got since. */
  lemma {:induction false} PutIsKept(states: seq<Entries>, events: seq<Event>, maxEntries: int, i: nat, j: nat, key: string)
    requires IsRun(states, events, maxEntries) && i < j < |states| && events[i].op.Put? && events[i].op.key == key
    requires Lasts(events[i].op.entry, events[j - 1].now)
    requires forall k :: i < k < j ==> !Writes(events[k].op, key)
    ensures key in states[j] && SameEntry(states[j][key], events[i].op.entry)
    ensures states[j][key].accessCount == events[i].op.entry.accessCount + Gets(events[i + 1..j], key)
    decreases j
  {
    assert states[j - 1 + 1] == After(states[j - 1], maxEntries, events[j - 1].op, events[j - 1].now);
    if i + 1 < j {
      PutIsKept(states, events, maxEntries, i, j - 1, key);
      KeptOn(states[j - 1], maxEntries, events[j - 1].op, events[j - 1].now, key);
      assert events[i + 1..j][..j - i - 2] == events[i + 1..j - 1];
    }
  }

  lemma KeptOn(entries: Entries, maxEntries: int, op: Op, now: int, key: string)
    requires key in entries && Lasts(entries[key], now) && !Writes(op, key)
    ensures var after := After(entries, maxEntries, op, now);
            && key in after && SameEntry(after[key], entries[key])
            && after[key].accessCount == entries[key].accessCount + if op == Op.Get(key) then 1 else 0
  {
  }

  /** The event deletes the key, or it compacts and the key's entry has expired. */
  predicate Loses(entries: Entries, maxEntries: int, op: Op, now: int, key: string)
    requires key in entries
  {
    || op == Delete(key)
    || (!Lasts(entries[key], now)
        && (op.Compact? || op.Cleanup? || (op.Delete? && Sparse(Without(entries, op.key), maxEntries))))
  }

  lemma LostExactly(entries: Entries, maxEntries: int, op: Op, now: int, key: string)
    requires key in entries
    ensures key !in After(entries, maxEntries, op, now) <==> Loses(entries, maxEntries, op, now, key)
  {
  }

  /** The state in which the key got the entry that it has in state k. */
  lemma {:induction false} LastPut(states: seq<Entries>, events: seq<Event>, maxEntries: int, i: nat, k: nat, key: string)
    returns (p: nat)
    requires IsRun(states, events, maxEntries) && i <= k < |states| && key in states[k]
    ensures i <= p <= k && key in states[p] && SameEntry(states[k][key], states[p][key])
    ensures p == i || (events[p - 1].op.Put? && events[p - 1].op.key == key)
    decreases k
  {
    if k == i || (events[k - 1].op.Put? && events[k - 1].op.key == key) {
      p := k;
    } else {
      assert states[k - 1 + 1] == After(states[k - 1], maxEntries, events[k - 1].op, events[k - 1].now);
      p := LastPut(states, events, maxEntries, i, k - 1, key);
    }
  }

  /** A key that is gone was deleted in between, or compacted away after the expiry of the entry that was put last. */
  lemma {:induction false} LostInRun(states: seq<Entries>, events: seq<Event>, maxEntries: int, i: nat, j: nat, key: string)
    returns (p: nat, k: nat)
    requires IsRun(states, events, maxEntries) && i <= j < |states| && key in states[i] && key !in states[j]
    ensures i <= p <= k < j && key in states[k] && key !in states[k + 1]
    ensures Loses(states[k], maxEntries, events[k].op, events[k].now, key)
    ensures key in states[p] && SameEntry(states[k][key], states[p][key])
    ensures p == i || (events[p - 1].op.Put? && events[p - 1].op.key == key)
    decreases j
  {
    k := j - 1;
    if key in states[k] {
      assert states[k + 1] == After(states[k], maxEntries, events[k].op, events[k].now);
      LostExactly(states[k], maxEntries, events[k].op, events[k].now, key);
      p := LastPut(states, events, maxEntries, i, k, key);
    } else {
      p, k := LostInRun(states, events, maxEntries, i, k, key);
    }
  }

  /******* The iterator *******/

  type Filter = Option<IndexEntry -> bool>

  /** Whether the iterator stops at a key: it is still present, and the entry passes once it has been accessed. */
  predicate Stops(entries: Entries, filter: Filter, now: int, key: string) {
    key in entries && (filter.None? || filter.value(TouchedEntry(entries[key], now)))
  }

  /** The keys at which it stops, in order. */
  function Stopping(entries: Entries, filter: Filter, now: int, keys: seq<string>): seq<string> {
    if keys == [] then []
    else (if Stops(entries, filter, now, keys[0]) then [keys[0]] else []) + Stopping(entries, filter, now, keys[1..])
  }

  /** They are the present and accepted keys, each once, in sorted order. */
  lemma {:induction false} StoppingIsListing(entries: Entries, filter: Filter, now: int, keys: seq<string>)
    requires Increasing(keys)
    ensures var accepted := set k | k in keys && k in entries &&
                                    (filter.None? || filter.value(entries[k].(accessedAt := now, accessCount := entries[k].accessCount + 1)));
            SortedListing(Stopping(entries, filter, now, keys), accepted)
  {
    var r := Stopping(entries, filter, now, keys);
    if keys != [] {
      var rest := keys[1..];
      assert keys == [keys[0]] + rest;
      assert forall i, j :: 0 <= i < j < |rest| ==> rest[i] == keys[i + 1] && rest[j] == keys[j + 1];
      StoppingIsListing(entries, filter, now, rest);
      var t := Stopping(entries, filter, now, rest);
      forall i | 0 <= i < |t|
        ensures Less(keys[0], t[i])
      {
        assert t[i] in t;
        var k :| 0 <= k < |rest| && rest[k] == t[i];
        assert keys[k + 1] == t[i];
      }
    }
  }

  class Iterator {
    const idx: Index
    const keys: seq<string>
    const filter: Filter
    var index: int
    ghost var handed: seq<string>

    ghost predicate Valid()
      reads this
    {
      && Increasing(keys) && -1 <= index
      && Increasing(handed)
      && (forall k :: k in handed ==> k in keys[..if index < |keys| then index + 1 else |keys|])
    }

    constructor (idx: Index, filter: Filter)
      ensures Valid() && index == -1 && handed == []
      ensures this.idx == idx && this.filter == filter && keys == Listing(idx.entries.Keys)
    {
      var sorted := SortedKeys(idx.entries.Keys);
      IsListing(sorted, idx.entries.Keys);
      this.idx, this.filter, keys, index, handed := idx, filter, sorted, -1, [];
    }

    /** Where the next call of Next starts to look. */
    function Start(): (from: nat)
      requires -1 <= index
      reads `index
    {
      if index < |keys| then index + 1 else |keys|
    }

    /** Moves on to the next stopping key, accessing every present key that it comes by. */
    method Next(now: int) returns (found: bool)
      requires Valid() && idx.Valid()
      modifies this, idx`entries
      ensures Valid() && idx.Valid() && old(index) < index
      ensures found ==> index < |keys| && handed == old(handed) + [keys[index]]
      ensures !found ==> |keys| <= index && handed == old(handed)
      ensures old(Start()) <= Start() && idx.entries == Touched(old(idx.entries), keys[old(Start())..Start()], now)
      ensures Stopping(old(idx.entries), filter, now, keys[old(Start())..]) ==
              (if found then [keys[index]] else []) + Stopping(old(idx.entries), filter, now, keys[Start()..])
    {
      index := index + 1;
      if index < |keys| {
        ghost var from := index;
        found := Scan(now);
        if found {
          YieldNext(keys, handed, from, index);
          handed := handed + [keys[index]];
        } else {
          YieldNone(keys, handed, from);
        }
      } else {
        assert Touched(idx.entries, [], now) == idx.entries;
        found := false;
      }
    }

    /** The loop of Next. */
    method Scan(now: int) returns (found: bool)
      requires Increasing(keys) && idx.Valid() && 0 <= index < |keys|
      modifies `index, idx`entries
      ensures idx.Valid() && old(index) <= index <= |keys|
      ensures found <==> index < |keys|
      ensures idx.entries == Touched(old(idx.entries), keys[old(index)..Start()], now)
      ensures Stopping(old(idx.entries), filter, now, keys[old(index)..]) ==
              (if found then [keys[index]] else []) + Stopping(old(idx.entries), filter, now, keys[Start()..])
    {
      ghost var from, before := index, idx.entries;
      ScanStarts(before, filter, now, keys, from);
      while index < |keys|
        invariant idx.Valid() && from <= index
        invariant Scanned(before, idx.entries, filter, now, keys, from, index)
      {
        ghost var reached := idx.entries;
        var entry := idx.Get(keys[index], now);
        ScanNext(before, reached, idx.entries, filter, now, keys, from, index);
        if entry.Some? && (filter.None? || filter.value(entry.value)) {
          return true;
        }
        index := index + 1;
      }
      found := false;
    }

    method Key() returns (key: string)
      ensures key == if 0 <= index < |keys| then keys[index] else ""
    {
      key := if index < 0 || index >= |keys| then "" else keys[index];
    }
  }

  lemma {:induction false} StoppingSame(a: Entries, b: Entries, filter: Filter, now: int, keys: seq<string>)
    requires forall k :: k in keys ==> (k in a <==> k in b) && (k in a ==> a[k] == b[k])
    ensures Stopping(a, filter, now, keys) == Stopping(b, filter, now, keys)
  {
    if keys != [] {
      assert keys[0] in keys;
      StoppingSame(a, b, filter, now, keys[1..]);
    }
  }

  /** Accessing the keys gone by does not change where the iterator stops from there. */
  lemma StoppingAfterTouch(before: Entries, filter: Filter, now: int, keys: seq<string>, m: nat, n: nat, from: nat)
    requires Increasing(keys) && m <= n <= from <= |keys|
    ensures Stopping(Touched(before, keys[m..n], now), filter, now, keys[from..]) == Stopping(before, filter, now, keys[from..])
  {
    IncreasingNoDup(keys);
    StoppingSame(Touched(before, keys[m..n], now), before, filter, now, keys[from..]);
  }

  /** Going through an iterator hands out exactly the keys at which it stops. */
  method Drain(it: Iterator, now: int) returns (keys: seq<string>)
    requires it.Valid() && it.idx.Valid()
    modifies it, it.idx`entries
    ensures it.Valid() && it.idx.Valid()
    ensures keys == Stopping(old(it.idx.entries), it.filter, now, it.keys[old(it.Start())..])
    ensures it.idx.entries == Touched(old(it.idx.entries), it.keys[old(it.Start())..], now)
  {
    keys := [];
    ghost var from, before := it.Start(), it.idx.entries;
    assert Touched(before, [], now) == before;
    var found := true;
    while found
      invariant it.Valid() && it.idx.Valid() && from <= it.Start()
      invariant it.idx.entries == Touched(before, it.keys[from..it.Start()], now)
      invariant keys + Stopping(before, it.filter, now, it.keys[it.Start()..]) == Stopping(before, it.filter, now, it.keys[from..])
      invariant !found ==> it.Start() == |it.keys|
      decreases found, |it.keys| - it.index
    {
      ghost var start := it.Start();
      found := it.Next(now);
      StoppingAfterTouch(before, it.filter, now, it.keys, from, start, start);
      StoppingAfterTouch(before, it.filter, now, it.keys, from, start, it.Start());
      TouchedTwice(before, it.keys, from, start, it.Start(), now);
      if found {
        var key := it.Key();
        Regroup(keys, [key], Stopping(before, it.filter, now, it.keys[it.Start()..]));
        keys := keys + [key];
      }
    }
  }

  lemma TouchedTwice(before: Entries, keys: seq<string>, a: nat, b: nat, c: nat, now: int)
    requires Increasing(keys) && a <= b <= c <= |keys|
    ensures Touched(Touched(before, keys[a..b], now), keys[b..c], now) == Touched(before, keys[a..c], now)
  {
    IncreasingNoDup(keys);
    assert keys[a..c] == keys[a..b] + keys[b..c];
    assert forall k :: k in keys[a..b] ==> k !in keys[b..c];
  }

  /** The keys up to i have been touched, and the iterator stops at none of them. */
  ghost predicate Scanned(before: Entries, entries: Entries, filter: Filter, now: int, keys: seq<string>, from: nat, i: int) {
    && from <= i <= |keys| && entries == Touched(before, keys[from..i], now)
    && Stopping(before, filter, now, keys[from..]) == Stopping(before, filter, now, keys[i..])
  }

  lemma ScanStarts(before: Entries, filter: Filter, now: int, keys: seq<string>, from: nat)
    requires from <= |keys|
    ensures Scanned(before, before, filter, now, keys, from, from)
  {
  }

  lemma ScanNext(before: Entries, reached: Entries, after: Entries, filter: Filter, now: int, keys: seq<string>, from: nat, i: nat)
    requires Increasing(keys) && i < |keys| && Scanned(before, reached, filter, now, keys, from, i)
    requires after == Touched(reached, [keys[i]], now)
    ensures after == Touched(before, keys[from..i + 1], now)
    ensures keys[i] in before <==> keys[i] in after
    ensures keys[i] in before ==> after[keys[i]] == TouchedEntry(before[keys[i]], now)
    ensures Stopping(before, filter, now, keys[from..]) ==
            (if Stops(before, filter, now, keys[i]) then [keys[i]] else []) + Stopping(before, filter, now, keys[i + 1..])
    ensures !Stops(before, filter, now, keys[i]) ==> Scanned(before, after, filter, now, keys, from, i + 1)
  {
    TouchNext(before, reached, after, keys, from, i, now);
    StopNext(before, filter, now, keys, i);
  }

  lemma TouchNext(before: Entries, reached: Entries, after: Entries, keys: seq<string>, from: nat, i: nat, now: int)
    requires Increasing(keys) && from <= i < |keys|
    requires reached == Touched(before, keys[from..i], now) && after == Touched(reached, [keys[i]], now)
    ensures after == Touched(before, keys[from..i + 1], now)
    ensures keys[i] in before <==> keys[i] in after
    ensures keys[i] in before ==> after[keys[i]] == TouchedEntry(before[keys[i]], now)
  {
    IncreasingNoDup(keys);
    assert keys[from..i + 1] == keys[from..i] + [keys[i]];
    assert keys[i] !in keys[from..i];
  }

  lemma StopNext(entries: Entries, filter: Filter, now: int, keys: seq<string>, i: nat)
    requires i < |keys|
    ensures Stopping(entries, filter, now, keys[i..]) ==
            (if Stops(entries, filter, now, keys[i]) then [keys[i]] else []) + Stopping(entries, filter, now, keys[i + 1..])
  {
    assert keys[i..][1..] == keys[i + 1..];
  }

  lemma YieldNone(keys: seq<string>, handed: seq<string>, from: nat)
    requires from <= |keys| && forall k :: k in handed ==> k in keys[..from]
    ensures forall k :: k in handed ==> k in keys[..|keys|]
  {
  }

  lemma YieldNext(keys: seq<string>, handed: seq<string>, from: nat, i: nat)
    requires Increasing(keys) && Increasing(handed) && from <= i < |keys|
    requires forall k :: k in handed ==> k in keys[..from]
    ensures Increasing(handed + [keys[i]])
    ensures forall k :: k in handed + [keys[i]] ==> k in keys[..i + 1]
  {
    forall j | 0 <= j < |handed|
      ensures Less(handed[j], keys[i]) && handed[j] in keys[..i + 1]
    {
      assert handed[j] in keys[..from];
      var m :| 0 <= m < from && keys[m] == handed[j];
      assert keys[..i + 1][m] == keys[m];
    }
    assert keys[..i + 1][i] == keys[i];
  }
}
