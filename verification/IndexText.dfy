/** The index file of oci/internal/cache/index.go: one JSON line for each entry, in the order of the keys. */
module IndexText {
  import opened StringOrder
  import opened Text

  datatype IndexEntry = IndexEntry(
    key: string, size: int, createdAt: int, accessedAt: int, ttl: int, accessCount: int,
    metadata: map<string, string>, filePath: string)
  {
    predicate IsExpired(now: int) {
      ttl > 0 && now - createdAt > ttl
    }
  }

  type Entries = map<string, IndexEntry>

  datatype Decoded = Undecodable | Decoded(entry: IndexEntry)

  /** encoding/json, as far as the index relies on it. */
  datatype Json = Json(marshal: IndexEntry -> string, unmarshal: string -> Decoded)

  /** An object between braces, on one line, that decodes to what was encoded. */
  ghost predicate Faithful(json: Json) {
    forall e :: IsObject(json.marshal(e)) && json.unmarshal(json.marshal(e)) == Decoded(e)
  }

  predicate IsObject(s: string) {
    |s| >= 2 && s[0] == '{' && s[|s| - 1] == '}' && '\n' !in s
  }

  predicate IsSpace(c: char) {
    c == ' ' || ('\t' <= c <= '\r')
  }

  /** strings.TrimSpace. */
  function TrimSpace(s: string): string {
    if s != "" && IsSpace(s[0]) then TrimSpace(s[1..])
    else if s != "" && IsSpace(s[|s| - 1]) then TrimSpace(s[..|s| - 1])
    else s
  }

  /** The lines of the entries with these keys. */
  function Lines(json: Json, entries: Entries, keys: seq<string>): string
    requires forall k :: k in keys ==> k in entries
  {
    if keys == [] then "" else json.marshal(entries[keys[0]]) + "\n" + Lines(json, entries, keys[1..])
  }

  /** What persisting writes. */
  ghost function FileText(json: Json, entries: Entries): string {
    Lines(json, entries, Listing(entries.Keys))
  }

  /** Loading one line: blank ones, undecodable ones and entries without a key are skipped. */
  function AddLine(json: Json, m: Entries, line: string): Entries {
    var text := TrimSpace(line);
    if text == "" then m
    else
      var d := json.unmarshal(text);
      if d.Undecodable? || d.entry.key == "" then m else m[d.entry.key := d.entry]
  }

  function AddLines(json: Json, m: Entries, lines: seq<string>): Entries
    decreases |lines|
  {
    if lines == [] then m else AddLines(json, AddLine(json, m, lines[0]), lines[1..])
  }

  lemma AddLinesSnoc(json: Json, m: Entries, lines: seq<string>, line: string)
    ensures AddLines(json, m, lines + [line]) == AddLine(json, AddLines(json, m, lines), line)
    decreases |lines|
  {
    if lines == [] {
      assert (lines + [line])[1..] == [];
    } else {
      assert (lines + [line])[0] == lines[0] && (lines + [line])[1..] == lines[1..] + [line];
      AddLinesSnoc(json, AddLine(json, m, lines[0]), lines[1..], line);
    }
  }

  /** The entries put under the keys they carry, later ones over earlier ones. */
  function ByOwnKey(m: Entries, entries: Entries, keys: seq<string>): Entries
    requires forall k :: k in keys ==> k in entries
    decreases |keys|
  {
    if keys == [] then m
    else
      var e := entries[keys[0]];
      ByOwnKey(if e.key == "" then m else m[e.key := e], entries, keys[1..])
  }

  lemma {:induction false} LinesAreLoaded(json: Json, m: Entries, entries: Entries, keys: seq<string>)
    requires Faithful(json)
    requires forall k :: k in keys ==> k in entries
    ensures AddLines(json, m, Split(Lines(json, entries, keys), '\n')) == ByOwnKey(m, entries, keys)
    decreases |keys|
  {
    if keys == [] {
      assert [""][1..] == [];
    } else {
      var e := entries[keys[0]];
      var line, rest := json.marshal(e), Lines(json, entries, keys[1..]);
      SplitOne(line, '\n');
      SplitAppend(line, rest, '\n');
      assert Split(Lines(json, entries, keys), '\n') == [line] + Split(rest, '\n');
      assert TrimSpace(line) == line;
      var m1 := AddLine(json, m, line);
      LinesAreLoaded(json, m1, entries, keys[1..]);
      assert ([line] + Split(rest, '\n'))[1..] == Split(rest, '\n');
    }
  }

  /** Every entry is stored under a key that it carries itself, and that is not empty. */
  ghost predicate OwnKeys(entries: Entries) {
    forall k :: k in entries ==> k != "" && entries[k].key == k
  }

  lemma {:induction false} ByOwnKeyIsOwn(m: Entries, entries: Entries, keys: seq<string>)
    requires forall k :: k in keys ==> k in entries
    requires OwnKeys(m)
    ensures OwnKeys(ByOwnKey(m, entries, keys))
    decreases |keys|
  {
    if keys != [] {
      var e := entries[keys[0]];
      ByOwnKeyIsOwn(if e.key == "" then m else m[e.key := e], entries, keys[1..]);
    }
  }

  lemma {:induction false} ByOwnKeyKeeps(m: Entries, entries: Entries, keys: seq<string>)
    requires forall k :: k in keys ==> k in entries
    requires OwnKeys(entries)
    ensures var r := ByOwnKey(m, entries, keys);
            forall k :: (k in r <==> k in m || k in keys) && (k in r ==> r[k] == if k in keys then entries[k] else m[k])
    decreases |keys|
  {
    if keys != [] {
      var e := entries[keys[0]];
      assert keys == [keys[0]] + keys[1..];
      ByOwnKeyKeeps(m[e.key := e], entries, keys[1..]);
    }
  }

  /** Loading what was persisted rebuilds the map exactly when every entry carries its own key. */
  lemma LoadUndoesPersist(json: Json, entries: Entries)
    requires Faithful(json)
    ensures AddLines(json, map[], Split(FileText(json, entries), '\n')) == entries <==> OwnKeys(entries)
  {
    var keys := Listing(entries.Keys);
    LinesAreLoaded(json, map[], entries, keys);
    ByOwnKeyIsOwn(map[], entries, keys);
    if OwnKeys(entries) {
      ByOwnKeyKeeps(map[], entries, keys);
    }
  }

  /** An entry stored under another key than its own is loaded under its own. */
  lemma MisfiledEntryMoves(json: Json, key: string, e: IndexEntry)
    requires Faithful(json) && e.key != "" && e.key != key
    ensures AddLines(json, map[], Split(FileText(json, map[key := e]), '\n')) == map[e.key := e]
  {
    var entries := map[key := e];
    assert SortedListing([key], entries.Keys);
    IsListing([key], entries.Keys);
    LinesAreLoaded(json, map[], entries, [key]);
    assert [key][1..] == [];
  }
}
