/** The in-memory store of secrets/providers/memory/provider.go: maps within a map, refining one flat map of copies. */
module MemoryProvider {
  import opened Optional
  import opened Secrets

  const LATEST := "latest"

  datatype Key = Key(path: string, version: string)

  /** What the store keeps of a secret. */
  datatype Item = Item(contents: seq<Byte>, createdAt: int)

  type View = map<Key, Item>

  datatype SecretRef = SecretRef(path: string, version: string)

  /** An empty version means the latest one. */
  function KeyOf(ref: SecretRef): Key {
    Key(ref.path, if ref.version == "" then LATEST else ref.version)
  }

  /** Only the empty version and the latest one are the same. */
  lemma SameKeyExactly(a: SecretRef, b: SecretRef)
    ensures KeyOf(a) == KeyOf(b) <==>
            a.path == b.path && (a.version == b.version || (a.version in {"", "latest"} && b.version in {"", "latest"}))
  {
  }

  type Nested = map<string, map<string, Secret>>

  predicate Stored(store: Nested, k: Key) {
    k.path in store && k.version in store[k.path]
  }

  function At(store: Nested, k: Key): Secret
    requires Stored(store, k)
  {
    store[k.path][k.version]
  }

  /** Inserting into the nested maps. */
  function Inserted(store: Nested, k: Key, s: Secret): Nested {
    var versions: map<string, Secret> := if k.path in store then store[k.path] else map[];
    store[k.path := versions[k.version := s]]
  }

  /** The code makes the inner map first when it is missing. */
  lemma InsertedInSteps(store: Nested, k: Key, s: Secret)
    ensures var made: Nested := if k.path in store then store else store[k.path := map[]];
            made[k.path := made[k.path][k.version := s]] == Inserted(store, k, s)
  {
  }

  lemma InsertedAt(store: Nested, k: Key, s: Secret, l: Key)
    ensures Stored(Inserted(store, k, s), l) <==> l == k || Stored(store, l)
    ensures Stored(Inserted(store, k, s), l) ==> At(Inserted(store, k, s), l) == if l == k then s else At(store, l)
  {
  }

  lemma PathsStayNonempty(store: Nested, k: Key, s: Secret)
    requires NoEmptyPath(store)
    ensures NoEmptyPath(Inserted(store, k, s))
    ensures Stored(store, k) ==> NoEmptyPath(Dropped(store, k))
  {
    var versions: map<string, Secret> := if k.path in store then store[k.path] else map[];
    assert k.version in versions[k.version := s];
  }

  /** What was stored under other keys is still there, the same objects. */
  ghost predicate KeepsOthers(store: Nested, store': Nested, k: Key) {
    forall l :: Stored(store, l) && l != k ==> Stored(store', l) && At(store', l) == At(store, l)
  }

  lemma InsertedKeepsOthers(store: Nested, k: Key, s: Secret)
    ensures KeepsOthers(store, Inserted(store, k, s), k)
  {
    forall l | Stored(store, l) && l != k
      ensures Stored(Inserted(store, k, s), l) && At(Inserted(store, k, s), l) == At(store, l)
    {
      InsertedAt(store, k, s, l);
    }
  }

  /** Deleting from the nested maps, with the path when nothing is left under it. */
  function Dropped(store: Nested, k: Key): Nested
    requires Stored(store, k)
  {
    var versions := store[k.path] - {k.version};
    if versions == map[] then store - {k.path} else store[k.path := versions]
  }

  lemma DroppedAt(store: Nested, k: Key, l: Key)
    requires Stored(store, k)
    ensures Stored(Dropped(store, k), l) <==> l != k && Stored(store, l)
    ensures Stored(Dropped(store, k), l) ==> At(Dropped(store, k), l) == At(store, l)
  {
    var versions := store[k.path] - {k.version};
    assert l.path == k.path && l.version != k.version && Stored(store, l) ==> l.version in versions;
  }

  /** A path is in the outer map exactly when something is stored under it. */
  lemma PathIsUsed(store: Nested, path: string)
    requires NoEmptyPath(store)
    ensures path in store <==> exists k :: Stored(store, k) && k.path == path
  {
    if path in store {
      assert exists version :: version in store[path];
      var version :| version in store[path];
      assert Stored(store, Key(path, version));
    }
  }

  lemma DroppedEverywhere(store: Nested, k: Key)
    requires Stored(store, k)
    ensures forall l :: Stored(Dropped(store, k), l) <==> l != k && Stored(store, l)
    ensures forall l :: Stored(Dropped(store, k), l) ==> At(Dropped(store, k), l) == At(store, l)
  {
    forall l
      ensures Stored(Dropped(store, k), l) <==> l != k && Stored(store, l)
      ensures Stored(Dropped(store, k), l) ==> At(Dropped(store, k), l) == At(store, l)
    {
      DroppedAt(store, k, l);
    }
  }

  ghost predicate NoEmptyPath(store: Nested) {
    forall path :: path in store ==> store[path] != map[]
  }

  /** The object and its buffer belong to this key and so to no other one. */
  ghost predicate Owned(owner: map<object, Key>, k: Key, s: Secret)
    reads s
  {
    s in owner && owner[s] == k && OwnsBuffer(owner, k, s.value)
  }

  ghost predicate OwnsBuffer(owner: map<object, Key>, k: Key, buffer: array?<Byte>) {
    if buffer == null then true else buffer in owner && owner[buffer as object] == k
  }

  /** The owners once a key has taken over a secret and its buffer. */
  ghost function Claim(owner: map<object, Key>, k: Key, s: Secret): (r: map<object, Key>)
    reads s
    ensures r.Keys == owner.Keys + Parts(s)
  {
    if s.value == null then owner[s := k] else owner[s := k][s.value := k]
  }

  /** The object carries what the view says of the key. */
  ghost predicate Holds(view: View, k: Key, s: Secret)
    reads s, s.value
  {
    && k in view
    && s.Contents() == view[k].contents && s.createdAt == view[k].createdAt
    && s.version == k.version && s.expiresAt == None && !s.autoClear
  }

  /** The nested maps hold what the view says, but for one key that may be on its way out. */
  ghost predicate RefinesBut(but: Option<Key>, store: Nested, view: View, owner: map<object, Key>)
    reads owner.Keys
  {
    && (forall k :: k in view <==> Stored(store, k))
    && forall k :: Stored(store, k) && but != Some(k) ==>
         At(store, k) in owner && Owned(owner, k, At(store, k)) && Holds(view, k, At(store, k))
  }

  lemma InsertRefines(store: Nested, view: View, owner: map<object, Key>, k: Key, secret: Secret)
    requires RefinesBut(None, store, view, owner)
    requires secret !in owner && (secret.value != null ==> secret.value !in owner)
    requires secret.version == k.version && secret.expiresAt == None && !secret.autoClear
    ensures RefinesBut(None, Inserted(store, k, secret),
                       view[k := Item(secret.Contents(), secret.createdAt)], Claim(owner, k, secret))
  {
    var owner' := Claim(owner, k, secret);
    var item := Item(secret.Contents(), secret.createdAt);
    var store' := Inserted(store, k, secret);
    forall l
      ensures l in view[k := item] <==> Stored(store', l)
      ensures Stored(store', l) ==> At(store', l) in owner' && Owned(owner', l, At(store', l)) && Holds(view[k := item], l, At(store', l))
    {
      InsertedAt(store, k, secret, l);
      if l != k && Stored(store, l) {
        StillHeld(view, owner, view[k := item], owner', l, At(store, l), k, secret, item);
      }
    }
  }

  lemma DropRefines(store: Nested, view: View, owner: map<object, Key>, k: Key)
    requires RefinesBut(Some(k), store, view, owner) && Stored(store, k)
    ensures RefinesBut(None, Dropped(store, k), view - {k}, owner)
  {
    DroppedEverywhere(store, k);
  }

  lemma StillHeld(view: View, owner: map<object, Key>, view': View, owner': map<object, Key>,
                  l: Key, s: Secret, k: Key, secret: Secret, item: Item)
    requires l != k && Owned(owner, l, s) && Holds(view, l, s)
    requires secret !in owner && (secret.value != null ==> secret.value !in owner)
    requires view' == view[k := item]
    requires owner' == Claim(owner, k, secret)
    ensures Owned(owner', l, s) && Holds(view', l, s)
  {
  }

  class Provider {
    var store: Nested
    ghost var view: View
    ghost var owner: map<object, Key>  // whose secret or buffer an object is

    ghost function Repr(): set<object>
      reads this
    {
      {this} + owner.Keys
    }

    ghost predicate Valid()
      reads this, owner.Keys
    {
      this !in owner && NoEmptyPath(store) && RefinesBut(None, store, view, owner)
    }

    constructor ()
      ensures Valid() && view == map[] && fresh(Repr())
    {
      store, view, owner := map[], map[], map[];
    }

    /** Stores a copy; the version replaced, if any, is let go as it is. */
    method Store(ref: SecretRef, value: seq<Byte>, now: int)
      requires Valid()
      modifies this
      ensures Valid() && fresh(Repr() - old(Repr()))
      ensures view == old(view)[KeyOf(ref) := Item(value, now)]
      ensures KeepsOthers(old(store), store, KeyOf(ref)) && unchanged(old(owner.Keys))
      ensures Stored(store, KeyOf(ref)) && fresh(At(store, KeyOf(ref)))
    {
      var k := KeyOf(ref);
      var secret := NewSecret(value, k.version, now);
      Insert(k, secret);
      InsertedKeepsOthers(old(store), k, secret);
      InsertedAt(old(store), k, secret, k);
    }

    /** Deleting and closing wipe a secret; storing over it does not: the one that was there is let go with its bytes. */
    method StoreOver(ref: SecretRef, value: seq<Byte>, now: int) returns (ghost replaced: Secret)
      requires Valid() && KeyOf(ref) in view
      modifies this
      ensures Valid() && view == old(view)[KeyOf(ref) := Item(value, now)]
      ensures replaced == old(At(store, KeyOf(ref))) && replaced.Contents() == old(view)[KeyOf(ref)].contents
      ensures Stored(store, KeyOf(ref)) && At(store, KeyOf(ref)) != replaced
    {
      replaced := At(store, KeyOf(ref));
      assert Holds(view, KeyOf(ref), replaced) && Owned(owner, KeyOf(ref), replaced);
      Store(ref, value, now);
    }

    method Insert(k: Key, secret: Secret)
      requires Valid() && Parts(secret) !! Repr()
      requires secret.version == k.version && secret.expiresAt == None && !secret.autoClear
      modifies this
      ensures Valid() && Repr() == old(Repr()) + Parts(secret)
      ensures view == old(view)[k := Item(secret.Contents(), secret.createdAt)]
      ensures store == Inserted(old(store), k, secret)
    {
      PathsStayNonempty(store, k, secret);
      PutSecret(k, secret);
      view := view[k := Item(secret.Contents(), secret.createdAt)];
      owner := Claim(owner, k, secret);
      InsertRefines(old(store), old(view), old(owner), k, secret);
    }

    /** Both levels of maps, the inner one made when it is missing. */
    method PutSecret(k: Key, secret: Secret)
      modifies this`store
      ensures store == Inserted(old(store), k, secret)
    {
      if k.path !in store {
        store := store[k.path := map[]];
      }
      store := store[k.path := store[k.path][k.version := secret]];
      InsertedInSteps(old(store), k, secret);
    }

    /** A copy of the stored secret, or null when there is none. */
    method Resolve(ref: SecretRef) returns (secret: Secret?)
      requires Valid()
      ensures secret == null <==> KeyOf(ref) !in view
      ensures secret != null ==> fresh(Parts(secret)) && IsCopy(secret, KeyOf(ref))
    {
      if ref.path !in store {
        return null;
      }
      var version := if ref.version == "" then LATEST else ref.version;
      if version !in store[ref.path] {
        return null;
      }
      assert Stored(store, KeyOf(ref));
      secret := CopyStored(store[ref.path][version]);
    }

    /** A secret reads as the view says. */
    ghost predicate IsCopy(secret: Secret, k: Key)
      reads this, secret, secret.value
    {
      && k in view && secret.Contents() == view[k].contents && secret.createdAt == view[k].createdAt
      && secret.version == k.version && secret.expiresAt == None && !secret.autoClear
    }

    method Exists(ref: SecretRef) returns (found: bool)
      requires Valid()
      ensures found <==> KeyOf(ref) in view
    {
      assert Stored(store, KeyOf(ref)) <==> KeyOf(ref) in view;
      found := ref.path in store && KeyOf(ref).version in store[ref.path];
    }

    /** For each path the last of its references that is stored; missing ones are left out. */
    method ResolveBatch(refs: seq<SecretRef>) returns (results: map<string, Secret>)
      requires Valid()
      ensures forall path :: path in results <==> LastFound(view, refs, path).Some?
      ensures forall path :: path in results ==>
                fresh(Parts(results[path])) && IsCopy(results[path], LastFound(view, refs, path).value)
    {
      results := map[];
      for i := 0 to |refs|
        invariant forall path :: path in results <==> LastFound(view, refs[..i], path).Some?
        invariant forall path :: path in results ==>
                    fresh(Parts(results[path])) && IsCopy(results[path], LastFound(view, refs[..i], path).value)
      {
        assert refs[..i + 1][..i] == refs[..i];
        var ref := refs[i];
        assert Stored(store, KeyOf(ref)) <==> KeyOf(ref) in view;
        if ref.path in store {
          var version := if ref.version == "" then LATEST else ref.version;
          if version in store[ref.path] {
            var copied := CopyStored(store[ref.path][version]);
            results := results[ref.path := copied];
          }
        }
      }
      assert refs[..|refs|] == refs;
    }

    /** Zeroes the secret before it is dropped, and drops a path without versions. */
    method Delete(ref: SecretRef) returns (ok: bool)
      requires Valid()
      modifies Repr()
      ensures Valid() && Repr() == old(Repr())
      ensures ok <==> KeyOf(ref) in old(view)
      ensures view == old(view) - {KeyOf(ref)}
      ensures ok ==> store == Dropped(old(store), KeyOf(ref))
      ensures ok ==> Wiped(old(At(store, KeyOf(ref))), old(At(store, KeyOf(ref)).value))
    {
      var k := KeyOf(ref);
      assert Stored(store, k) <==> k in view;
      if ref.path !in store || k.version !in store[ref.path] {
        return false;
      }
      Drop(k);
      ok := true;
    }

    /** Clearing and deleting one stored secret. */
    method Drop(k: Key)
      requires Valid() && Stored(store, k)
      modifies Repr()
      ensures Valid() && owner == old(owner)
      ensures view == old(view) - {k} && store == Dropped(old(store), k)
      ensures Wiped(old(At(store, k)), old(At(store, k).value))
      ensures forall o: Secret :: o in owner && owner[o] != k ==> unchanged(o)
      ensures forall o: array<Byte> :: o in owner && owner[o] != k ==> unchanged(o)
    {
      WipeStored(k);
      PathsStayNonempty(store, k, At(store, k));
      DropRefines(store, view, owner, k);
      RemoveSecret(k);
      view := view - {k};
    }

    /** Clearing it where it is. */
    method WipeStored(k: Key)
      requires Valid() && Stored(store, k)
      modifies owner.Keys
      ensures RefinesBut(Some(k), store, view, owner)
      ensures Wiped(At(store, k), old(At(store, k).value))
      ensures forall o: Secret :: o in owner && owner[o] != k ==> unchanged(o)
      ensures forall o: array<Byte> :: o in owner && owner[o] != k ==> unchanged(o)
    {
      var secret := store[k.path][k.version];
      assert secret == At(store, k) && Owned(owner, k, secret);
      secret.Clear();
      OthersStayHeld(k);
    }

    /** The version, and the path with its last version. */
    method RemoveSecret(k: Key)
      requires Stored(store, k)
      modifies this`store
      ensures store == Dropped(old(store), k)
    {
      var versions := store[k.path] - {k.version};
      if versions == map[] {
        store := store - {k.path};
      } else {
        store := store[k.path := versions];
      }
    }

    /** Clearing one secret does not touch the others. */
    twostate lemma OthersStayHeld(k: Key)
      requires old(Valid()) && old(Stored(store, k))
      requires store == old(store) && view == old(view) && owner == old(owner)
      requires forall o: Secret :: o in owner && owner[o] != k ==> unchanged(o)
      requires forall o: array<Byte> :: o in owner && owner[o] != k ==> unchanged(o)
      ensures RefinesBut(Some(k), store, view, owner)
      ensures forall l :: l != k && Stored(store, l) ==> At(store, l).value == old(At(store, l).value)
    {
      forall l | l != k && Stored(store, l)
        ensures At(store, l) in owner && Owned(owner, l, At(store, l)) && Holds(view, l, At(store, l))
        ensures At(store, l).value == old(At(store, l).value)
      {
        var s := At(store, l);
        assert old(Owned(owner, l, s) && Holds(view, l, s));
      }
    }

    lemma PathInView(path: string)
      requires Valid()
      ensures path !in store <==> forall k :: k in view ==> k.path != path
    {
      PathIsUsed(store, path);
    }

    /** The length of the latest version, or 32 without one. */
    method RotatedLength(path: string) returns (size: nat)
      requires Valid() && path in store
      ensures size == RotatedSize(view, path)
    {
      size := 32;
      if LATEST in store[path] {
        var latest := store[path][LATEST];
        assert Stored(store, Key(path, LATEST)) && latest == At(store, Key(path, LATEST));
        size := if latest.value == null then 0 else latest.value.Length;
      } else {
        assert !Stored(store, Key(path, LATEST));
      }
    }

    /** A new version of random bytes, as long as the latest one. The random bytes and the version name are the environment's. */
    method Rotate(ref: SecretRef, newVersion: string, random: nat -> Byte, now: int) returns (secret: Secret?)
      requires Valid()
      modifies this
      ensures Valid() && fresh(Repr() - old(Repr()))
      ensures secret == null <==> forall k :: k in old(view) ==> k.path != ref.path
      ensures secret == null ==> view == old(view)
      ensures secret != null ==>
                var k := Key(ref.path, newVersion);
                && view == old(view)[k := Item(seq(RotatedSize(old(view), ref.path), random), now)]
                && fresh(Parts(secret)) && Parts(secret) !! Repr() && IsCopy(secret, k)
      // every other version, and so every old one under a fresh name, is the same object with the same bytes
      ensures if secret == null then store == old(store) else KeepsOthers(old(store), store, Key(ref.path, newVersion))
      ensures unchanged(old(owner.Keys))
    {
      PathInView(ref.path);
      if ref.path !in store {
        return null;
      }
      secret := RotateUsed(ref.path, newVersion, random, now);
    }

    /** Rotating where there is something to rotate. */
    method RotateUsed(path: string, newVersion: string, random: nat -> Byte, now: int) returns (secret: Secret)
      requires Valid() && path in store
      modifies this
      ensures Valid() && fresh(Repr() - old(Repr()))
      ensures view == old(view)[Key(path, newVersion) := Item(seq(RotatedSize(old(view), path), random), now)]
      ensures fresh(Parts(secret)) && Parts(secret) !! Repr() && IsCopy(secret, Key(path, newVersion))
      ensures KeepsOthers(old(store), store, Key(path, newVersion))
    {
      var size := RotatedLength(path);
      secret := AddVersion(Key(path, newVersion), seq(size, random), now);
    }

    /** Stores a new version and gives a copy of it. */
    method AddVersion(k: Key, newValue: seq<Byte>, now: int) returns (secret: Secret)
      requires Valid()
      modifies this
      ensures Valid() && fresh(Repr() - old(Repr()))
      ensures view == old(view)[k := Item(newValue, now)]
      ensures fresh(Parts(secret)) && Parts(secret) !! Repr() && IsCopy(secret, k)
      ensures KeepsOthers(old(store), store, k)
    {
      var newSecret := NewSecret(newValue, k.version, now);
      Insert(k, newSecret);
      InsertedKeepsOthers(old(store), k, newSecret);
      secret := CopyStored(newSecret);
    }

    /** Zeroes and drops every secret; here a path goes with its last version. */
    method Close()
      requires Valid()
      modifies Repr()
      ensures Valid() && view == map[] && store == map[]
      ensures forall k :: old(Stored(store, k)) ==> Wiped(old(At(store, k)), old(At(store, k).value))
    {
      ghost var secrets := map k | k in view :: At(store, k);
      ghost var buffers := map k | k in view :: At(store, k).value;
      while store != map[]
        invariant Valid() && owner == old(owner) && Closing(secrets, buffers)
        decreases |view|
      {
        CloseNext(secrets, buffers);
      }
    }

    /** Of the secrets and their buffers, those no longer stored are wiped and the others are as they were. */
    ghost predicate Closing(secrets: map<Key, Secret>, buffers: map<Key, array?<Byte>>)
      reads this, owner.Keys
    {
      && secrets.Keys == buffers.Keys
      && (forall k :: k in secrets ==> secrets[k] in owner && owner[secrets[k]] == k && OwnsBuffer(owner, k, buffers[k]))
      && (forall k :: Stored(store, k) ==> k in secrets && At(store, k) == secrets[k])
      && (forall k :: k in secrets ==> if Stored(store, k) then secrets[k].value == buffers[k] else Wiped(secrets[k], buffers[k]))
    }

    /** One round of the two loops. */
    method CloseNext(ghost secrets: map<Key, Secret>, ghost buffers: map<Key, array?<Byte>>)
      requires Valid() && store != map[] && Closing(secrets, buffers)
      modifies Repr()
      ensures Valid() && owner == old(owner) && Closing(secrets, buffers)
      ensures |view| < old(|view|)
    {
      var path :| path in store;
      assert exists version :: version in store[path];
      var version :| version in store[path];
      var k := Key(path, version);
      assert Stored(store, k) && At(store, k) == secrets[k];
      DroppedEverywhere(store, k);
      Drop(k);
      forall l | l in secrets
        ensures if Stored(store, l) then secrets[l].value == buffers[l] else Wiped(secrets[l], buffers[l])
      {
        assert l != k ==> old(if Stored(store, l) then secrets[l].value == buffers[l] else Wiped(secrets[l], buffers[l]));
      }
    }
  }

  /** The secret has let go of its buffer, and that is all zeroes. */
  ghost predicate Wiped(s: Secret, buffer: array?<Byte>)
    reads s, buffer
  {
    s.value == null && (buffer != null ==> Zeroed(buffer))
  }

  /** The key that a batch finds for a path. */
  function LastFound(view: View, refs: seq<SecretRef>, path: string): Option<Key> {
    if refs == [] then None
    else
      var last := refs[|refs| - 1];
      if last.path == path && KeyOf(last) in view then Some(KeyOf(last)) else LastFound(view, refs[..|refs| - 1], path)
  }

  function RotatedSize(view: View, path: string): nat {
    if Key(path, LATEST) in view then |view[Key(path, LATEST)].contents| else 32
  }

  /** Go's append to a nil slice: nothing appended stays nil. */
  method NewSecret(value: seq<Byte>, version: string, now: int) returns (secret: Secret)
    ensures fresh(Parts(secret)) && secret.Contents() == value
    ensures secret.version == version && secret.createdAt == now && secret.expiresAt == None && !secret.autoClear
  {
    var bytes: array?<Byte> := null;
    if value != [] {
      bytes := new Byte[|value|](i requires 0 <= i < |value| => value[i]);
    }
    secret := new Secret(bytes, version, now, None, false);
  }

  method CopyStored(original: Secret) returns (secret: Secret)
    ensures fresh(Parts(secret)) && SameSecret(secret, original)
  {
    var bytes: array?<Byte> := null;
    if original.value != null && original.value.Length > 0 {
      bytes := CopyArray(original.value);
    }
    secret := new Secret(bytes, original.version, original.createdAt, original.expiresAt, original.autoClear);
  }
}
