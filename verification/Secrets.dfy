/** Secret and SecretString of secrets/core: values that are cleared after use, and resolved once or cached. */
module Secrets {
  import opened Optional

  type Byte = bv8

  /** A resolved secret. A null value is Go's nil slice. */
  class Secret {
    var value: array?<Byte>
    var version: string
    var createdAt: int
    var expiresAt: Option<int>
    var autoClear: bool

    constructor (value: array?<Byte>, version: string, createdAt: int, expiresAt: Option<int>, autoClear: bool)
      ensures this.value == value && this.version == version && this.createdAt == createdAt
      ensures this.expiresAt == expiresAt && this.autoClear == autoClear
    {
      this.value, this.version, this.createdAt := value, version, createdAt;
      this.expiresAt, this.autoClear := expiresAt, autoClear;
    }

    ghost function Contents(): seq<Byte>
      reads this, value
    {
      if value == null then [] else value[..]
    }

    /** Zeroes the bytes where they are, then lets go of them. */
    method Clear()
      modifies this`value, value
      ensures value == null
      ensures old(value) != null ==> Zeroed(old(value))
    {
      if value != null {
        for i := 0 to value.Length
          invariant value == old(value)
          invariant forall k :: 0 <= k < i ==> value[k] == 0
        {
          value[i] := 0;
        }
        value := null;
      }
    }

    /** The bytes as a string; with AutoClear the secret is gone after that. */
    method String() returns (s: seq<Byte>)
      modifies this`value, value
      ensures s == old(Contents())
      ensures !autoClear ==> value == old(value) && Contents() == old(Contents())
      ensures autoClear ==> value == null && (old(value) != null ==> Zeroed(old(value)))
    {
      if value == null {
        return [];
      }
      s := value[..];
      if autoClear {
        Clear();
      }
    }

    /** A copy of the bytes that shares nothing with the secret. */
    method Bytes() returns (b: array?<Byte>)
      modifies this`value, value
      ensures (b == null <==> old(value) == null) && (b != null ==> fresh(b) && b[..] == old(Contents()))
      ensures !autoClear ==> value == old(value) && Contents() == old(Contents())
      ensures autoClear ==> value == null && (old(value) != null ==> Zeroed(old(value)))
    {
      if value == null {
        return null;
      }
      b := CopyArray(value);
      if autoClear {
        Clear();
      }
    }
  }

  ghost predicate Zeroed(a: array<Byte>)
    reads a
  {
    forall k :: 0 <= k < a.Length ==> a[k] == 0
  }

  /** make and copy. */
  method CopyArray(a: array<Byte>) returns (b: array<Byte>)
    ensures fresh(b) && b[..] == a[..]
  {
    b := new Byte[a.Length];
    for i := 0 to a.Length
      invariant forall k :: 0 <= k < i ==> b[k] == a[k]
    {
      b[i] := a[i];
    }
  }

  /** Two secrets with the same bytes and metadata. */
  ghost predicate SameSecret(a: Secret, b: Secret)
    reads a, a.value, b, b.value
  {
    && a.Contents() == b.Contents() && a.version == b.version && a.createdAt == b.createdAt
    && a.expiresAt == b.expiresAt && a.autoClear == b.autoClear
  }

  /** A secret and its bytes. */
  ghost function Parts(s: Secret): set<object>
    reads s
  {
    {s} + if s.value == null then {} else {s.value}
  }

  /** What a secret says, apart from where it is. */
  datatype Shape = Shape(contents: seq<Byte>, version: string, createdAt: int, expiresAt: Option<int>, autoClear: bool)

  ghost function ShapeOf(s: Secret): Shape
    reads s, s.value
  {
    Shape(s.Contents(), s.version, s.createdAt, s.expiresAt, s.autoClear)
  }

  /** What a resolver was asked for, and what it answered. */
  datatype Asked = Asked(ref: string, answer: Option<Shape>)

  /** Some provider behind the Resolver interface: each answer is an error or a secret that nobody else holds. */
  class Resolver {
    ghost var log: seq<Asked>

    method Resolve(ref: string) returns (secret: Secret?)
      modifies this
      ensures log == old(log) + [Asked(ref, if secret == null then None else Some(ShapeOf(secret)))]
      ensures secret != null ==> fresh(Parts(secret))
    {
      var fails: bool := *;
      if fails {
        log := log + [Asked(ref, None)];
        return null;
      }
      var bytes: seq<Byte>, version: string, createdAt: int, expiresAt: Option<int>, autoClear: bool := *, *, *, *, *;
      var value := new Byte[|bytes|](i requires 0 <= i < |bytes| => bytes[i]);
      secret := new Secret(value, version, createdAt, expiresAt, autoClear);
      log := log + [Asked(ref, Some(ShapeOf(secret)))];
    }
  }

  /** A reference with the means to resolve it. The two settings never change after construction. */
  class SecretString {
    const ref: string
    const resolver: Resolver?
    const oneTimeUse: bool
    const allowCache: bool
    var resolved: Secret?
    var consumed: bool
    ghost var handedOut: nat  // successful resolves so far
    ghost var fetched: nat    // the resolver's successes since construction or the last Clear
    ghost var cleared: bool   // Clear has been called
    ghost var kept: Option<Shape>  // the answer that is cached

    /** What the object owns: nothing that it has returned is in it. */
    ghost function Repr(): set<object>
      reads this, resolved
    {
      {this} + if resolved == null then {} else Parts(resolved)
    }

    ghost predicate Valid()
      reads this, Repr()
    {
      && (oneTimeUse ==> handedOut <= 1 && (consumed <==> handedOut == 1 || cleared))
      && (resolved != null ==> allowCache && !oneTimeUse)
      && (allowCache && !oneTimeUse ==> fetched == if resolved == null then 0 else 1)
      && (!oneTimeUse ==> !consumed)
      && kept == if resolved == null then None else Some(ShapeOf(resolved))
    }

    constructor (ref: string, resolver: Resolver?, oneTimeUse: bool := true, allowCache: bool := false)
      ensures Valid() && handedOut == 0 && resolved == null && !consumed && !cleared
      ensures this.ref == ref && this.resolver == resolver && this.oneTimeUse == oneTimeUse && this.allowCache == allowCache
    {
      this.ref, this.resolver, this.oneTimeUse, this.allowCache := ref, resolver, oneTimeUse, allowCache;
      resolved, consumed, handedOut, fetched, cleared, kept := null, false, 0, 0, false, None;
    }

    /** What a call gives that asks the resolver, or does not have to: nothing once used up, what is cached, or the
        resolver's answer to the reference. */
    twostate predicate Gives(new answer: Option<Shape>)
      reads this, resolver
    {
      if old(IsUsed()) || (old(kept).None? && resolver == null) then answer == None && AsksNothing()
      else if old(kept).Some? then answer == old(kept) && AsksNothing()
      else resolver != null && resolver.log == old(resolver.log) + [Asked(ref, answer)]
    }

    twostate predicate AsksNothing()
      reads this, resolver
    {
      resolver != null ==> resolver.log == old(resolver.log)
    }

    /** A secret, or null for an error. */
    method Resolve() returns (secret: Secret?)
      requires Valid()
      modifies this, resolver
      ensures Valid()
      ensures secret != null ==> fresh(Parts(secret)) && Parts(secret) !! Repr()
      // what it gives
      ensures Gives(if secret == null then None else Some(ShapeOf(secret)))
      ensures kept == if allowCache && !oneTimeUse && secret != null then Some(ShapeOf(secret)) else old(kept)
      ensures handedOut == old(handedOut) + if secret == null then 0 else 1
      ensures cleared == old(cleared)
      // one-time use: a success consumes, a failure does not
      ensures consumed == (old(consumed) || (oneTimeUse && secret != null))
      ensures old(resolved) != null ==> resolved == old(resolved) && unchanged(resolved) && Parts(resolved) == old(Parts(resolved))
      ensures resolved != null ==> fresh(Parts(resolved) - old(Repr()))
    {
      if oneTimeUse && consumed {
        return null;
      }
      if allowCache && resolved != null {
        if oneTimeUse {
          assert false;  // a one-time secret is never cached
        }
        secret := CopySecret(resolved);
        handedOut := handedOut + 1;
        return;
      }
      if resolver == null {
        return null;  // nilResolver
      }
      secret := resolver.Resolve(ref);
      if secret == null {
        return null;
      }
      if allowCache && !oneTimeUse {
        resolved := CopySecret(secret);
        fetched, kept := fetched + 1, Some(ShapeOf(resolved));
      }
      if oneTimeUse {
        consumed := true;
      }
      handedOut := handedOut + 1;
    }

    /** Resolves and reads; clearing what was resolved does not reach a cached secret. */
    method String() returns (ok: bool, s: seq<Byte>, ghost answer: Option<Shape>)
      requires Valid()
      modifies this, resolver
      ensures Valid()
      ensures Gives(answer) && (ok <==> answer.Some?)
      ensures ok ==> s == answer.value.contents
      ensures kept == if allowCache && !oneTimeUse && ok then answer else old(kept)
      ensures handedOut == old(handedOut) + if ok then 1 else 0
      ensures cleared == old(cleared)
      ensures consumed == (old(consumed) || (oneTimeUse && ok))
    {
      var secret := Resolve();
      answer := if secret == null then None else Some(ShapeOf(secret));
      if secret == null {
        return false, [], answer;
      }
      s := secret.String();
      ok := true;
    }

    method Bytes() returns (ok: bool, b: array?<Byte>, ghost answer: Option<Shape>)
      requires Valid()
      modifies this, resolver
      ensures Valid()
      ensures Gives(answer) && (ok <==> answer.Some?)
      ensures ok ==> answer.value.contents == if b == null then [] else b[..]
      ensures b != null ==> fresh(b) && b !in Repr()
      ensures kept == if allowCache && !oneTimeUse && ok then answer else old(kept)
      ensures handedOut == old(handedOut) + if ok then 1 else 0
      ensures cleared == old(cleared)
      ensures consumed == (old(consumed) || (oneTimeUse && ok))
    {
      var secret := Resolve();
      answer := if secret == null then None else Some(ShapeOf(secret));
      if secret == null {
        return false, null, answer;
      }
      b := secret.Bytes();
      ok := true;
    }

    ghost predicate IsUsed()
      reads this
    {
      oneTimeUse && consumed
    }

    /** A one-time secret has been handed out, or Clear was called before that could happen. */
    method IsConsumed() returns (b: bool)
      requires Valid()
      ensures b <==> oneTimeUse && (handedOut >= 1 || cleared)
    {
      b := oneTimeUse && consumed;
    }

    /** Zeroes and forgets a cached secret, and uses up a one-time one. */
    method Clear()
      requires Valid()
      modifies this, resolved, if resolved == null then null else resolved.value
      ensures Valid() && resolved == null && consumed == (old(consumed) || oneTimeUse)
      ensures old(resolved) != null && old(resolved.value) != null ==> Zeroed(old(resolved.value))
      ensures handedOut == old(handedOut) && cleared
    {
      if resolved != null {
        resolved.Clear();
        resolved := null;
      }
      if oneTimeUse {
        consumed := true;
      }
      fetched, cleared, kept := 0, true, None;
    }
  }

  /** A deep copy. */
  method CopySecret(original: Secret) returns (copied: Secret)
    ensures fresh(Parts(copied)) && SameSecret(copied, original)
  {
    var value: array?<Byte>;
    if original.value == null {
      value := new Byte[0];
    } else {
      value := CopyArray(original.value);
    }
    copied := new Secret(value, original.version, original.createdAt, original.expiresAt, original.autoClear);
  }

  /** A caller may overwrite and clear what it was given: the next resolve gives the same, without asking again. */
  method CallersCannotReachCache(s: SecretString, scribble: seq<Byte>) returns (ghost first: Option<Shape>, second: Secret?)
    requires s.Valid() && s.allowCache && !s.oneTimeUse && s.resolver != null
    modifies s, s.resolver
    ensures s.Valid() && (first.None? <==> second == null)
    ensures second != null ==> first == Some(ShapeOf(second))
    ensures s.resolver.log == old(s.resolver.log) + if old(s.kept).Some? then [] else [Asked(s.ref, first)]
  {
    var secret := s.Resolve();
    first := if secret == null then None else Some(ShapeOf(secret));
    if secret == null {
      return first, null;
    }
    if secret.value != null {
      for i := 0 to secret.value.Length
        modifies secret.value
      {
        if i < |scribble| {
          secret.value[i] := scribble[i];
        }
      }
    }
    secret.version, secret.autoClear := "", true;
    secret.Clear();
    second := s.Resolve();
  }
}
