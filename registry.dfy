/** The token registry of lib/jwtExpirationValidator.mjs: one process-wide
    list of issued claim sets, in insertion order, shared by every
    `JwtExpirationValidator`. The validator adds claim sets, removes them by
    token id, looks up a live one by token id and sweeps out expired ones. */
module Registry {
  import opened Json

  /** `jti === tokenId`, the test of `findJwt` and `removeJwt`. */
  predicate HasId(t: Record, id: Value)
  {
    Get(t, "jti") == id
  }

  /** `exp > currentTimestamp`: the claim set has not expired at `now`. */
  predicate LiveAt(t: Record, now: int)
  {
    Greater(Get(t, "exp"), now)
  }

  /** `exp <= currentTimestamp`, the test of the cleaner. */
  predicate ExpiredAt(t: Record, now: int)
  {
    AtMost(Get(t, "exp"), now)
  }

  /** The test `findJwt` hands to `Array.prototype.find`. */
  predicate Matches(t: Record, id: Value, now: int)
  {
    HasId(t, id) && LiveAt(t, now)
  }

  /** The predicate `removeJwt` hands to lodash `remove`. */
  function IdTest(id: Value): Record -> bool
  {
    t => HasId(t, id)
  }

  /** The predicate the cleaner hands to lodash `remove`. */
  function ExpiryTest(now: int): Record -> bool
  {
    t => ExpiredAt(t, now)
  }

  /** What lodash `remove(array, p)` leaves in the array: every element on
      which `p` is false, in its original order. */
  function Reject(ts: seq<Record>, p: Record -> bool): (r: seq<Record>)
    ensures |r| <= |ts|
    ensures forall t :: t in r <==> t in ts && !p(t)
  {
    if ts == [] then []
    else if p(ts[0]) then Reject(ts[1..], p)
    else [ts[0]] + Reject(ts[1..], p)
  }

  /** The array after `removeJwt(id)`. */
  function WithoutId(ts: seq<Record>, id: Value): (r: seq<Record>)
    ensures forall t :: t in r <==> t in ts && !HasId(t, id)
  {
    Reject(ts, IdTest(id))
  }

  /** The array after one tick of `jwtCleaner` at `now`. */
  function Unexpired(ts: seq<Record>, now: int): (r: seq<Record>)
    ensures forall t :: t in r <==> t in ts && !ExpiredAt(t, now)
  {
    Reject(ts, ExpiryTest(now))
  }

  /** `tokens.find(...)` in `findJwt`: the first entry, in insertion order,
      that carries the id and has not expired. */
  function FindLive(ts: seq<Record>, id: Value, now: int): (r: Option<Record>)
    ensures r.Some? ==> r.value in ts && Matches(r.value, id, now)
    ensures r.None? <==> forall t :: t in ts ==> !Matches(t, id, now)
  {
    if ts == [] then None
    else if Matches(ts[0], id, now) then Some(ts[0])
    else FindLive(ts[1..], id, now)
  }

  /** No two entries carry the same `jti`. */
  predicate DistinctIds(ts: seq<Record>)
  {
    forall i, j :: 0 <= i < j < |ts| ==> Get(ts[i], "jti") != Get(ts[j], "jti")
  }

  /** `remove` works element by element: the result of a concatenation is the
      concatenation of the results, so the survivors keep their order. */
  lemma {:induction false} RejectAppend(a: seq<Record>, b: seq<Record>, p: Record -> bool)
    ensures Reject(a + b, p) == Reject(a, p) + Reject(b, p)
  {
    if a != [] {
      assert (a + b)[0] == a[0];
      assert (a + b)[1..] == a[1..] + b;
      RejectAppend(a[1..], b, p);
    } else {
      assert a + b == b;
    }
  }

  /** Removal from a list with a known first element. */
  lemma RejectCons(x: Record, rest: seq<Record>, p: Record -> bool)
    ensures Reject([x] + rest, p) == (if p(x) then [] else [x]) + Reject(rest, p)
  {
    assert ([x] + rest)[0] == x && ([x] + rest)[1..] == rest;
  }

  /** Removal from a list with `x` between `a` and `b`. */
  lemma RejectSplice(a: seq<Record>, x: Record, b: seq<Record>, p: Record -> bool)
    ensures Reject(a + ([x] + b), p) == Reject(a, p) + (if p(x) then [] else [x]) + Reject(b, p)
  {
    RejectAppend(a, [x] + b, p);
    RejectCons(x, b, p);
  }

  /** A list is its prefix, the element at `i` and its suffix. */
  lemma SplitAt(ts: seq<Record>, i: nat)
    requires i < |ts|
    ensures ts == ts[..i] + ([ts[i]] + ts[i + 1..])
  {
  }

  /** Every entry stays in its place: removal around position `i` is removal
      before it, then the entry itself unless `p` holds of it, then removal
      after it. */
  lemma RejectAround(ts: seq<Record>, p: Record -> bool, i: nat)
    requires i < |ts|
    ensures Reject(ts, p) == Reject(ts[..i], p) + (if p(ts[i]) then [] else [ts[i]]) + Reject(ts[i + 1..], p)
  {
    SplitAt(ts, i);
    RejectSplice(ts[..i], ts[i], ts[i + 1..], p);
  }

  /** Removing with a predicate that holds of no entry changes nothing. */
  lemma {:induction false} RejectNothing(ts: seq<Record>, p: Record -> bool)
    requires forall t :: t in ts ==> !p(t)
    ensures Reject(ts, p) == ts
  {
    if ts != [] {
      assert ts[0] in ts;
      assert forall t :: t in ts[1..] ==> t in ts;
      RejectNothing(ts[1..], p);
    }
  }

  /** Removing twice with the same predicate is removing once. */
  lemma RejectIdempotent(ts: seq<Record>, p: Record -> bool)
    ensures Reject(Reject(ts, p), p) == Reject(ts, p)
  {
    RejectNothing(Reject(ts, p), p);
  }

  /** Removal keeps the ids of the survivors distinct. */
  lemma {:induction false} RejectKeepsDistinct(ts: seq<Record>, p: Record -> bool)
    requires DistinctIds(ts)
    ensures DistinctIds(Reject(ts, p))
  {
    if ts != [] {
      var rest := Reject(ts[1..], p);
      assert DistinctIds(ts[1..]) by {
        forall i, j | 0 <= i < j < |ts[1..]|
          ensures Get(ts[1..][i], "jti") != Get(ts[1..][j], "jti")
        {
          assert ts[1..][i] == ts[i + 1] && ts[1..][j] == ts[j + 1];
        }
      }
      RejectKeepsDistinct(ts[1..], p);
      if !p(ts[0]) {
        var r := [ts[0]] + rest;
        forall i, j | 0 <= i < j < |r|
          ensures Get(r[i], "jti") != Get(r[j], "jti")
        {
          if i == 0 {
            assert r[j] in ts[1..];
            var k :| 0 <= k < |ts[1..]| && ts[1..][k] == r[j];
            assert ts[k + 1] == r[j];
          } else {
            assert r[i] == rest[i - 1] && r[j] == rest[j - 1];
          }
        }
      }
    }
  }

  /** `find` answers with the first qualifying entry: an entry that
      qualifies and has no qualifying entry before it is the answer. */
  lemma {:induction false} FindLiveIsFirst(ts: seq<Record>, id: Value, now: int, i: nat)
    requires i < |ts| && Matches(ts[i], id, now)
    requires forall j :: 0 <= j < i ==> !Matches(ts[j], id, now)
    ensures FindLive(ts, id, now) == Some(ts[i])
  {
    if i > 0 {
      assert !Matches(ts[0], id, now);
      FindLiveIsFirst(ts[1..], id, now, i - 1);
    }
  }

  /** Appending to the list can only change the answer for ids that had no
      live entry before: an earlier entry shadows a later one. */
  lemma {:induction false} FindLiveAppend(a: seq<Record>, b: seq<Record>, id: Value, now: int)
    ensures FindLive(a + b, id, now) == if FindLive(a, id, now).Some? then FindLive(a, id, now) else FindLive(b, id, now)
  {
    if a != [] {
      assert (a + b)[0] == a[0];
      assert (a + b)[1..] == a[1..] + b;
      FindLiveAppend(a[1..], b, id, now);
    } else {
      assert a + b == b;
    }
  }

  /** A live entry appended with `addJwt` is found, by itself or by an
      earlier live entry with the same id. */
  lemma AppendedIsFound(ts: seq<Record>, t: Record, id: Value, now: int)
    requires Matches(t, id, now)
    ensures FindLive(ts + [t], id, now).Some?
  {
    assert FindLive([t], id, now) == Some(t) by {
      assert [t][0] == t;
    }
    FindLiveAppend(ts, [t], id, now);
  }

  /** After `removeJwt(id)` no entry with that id is found, at any time. */
  lemma RemovedIsNotFound(ts: seq<Record>, id: Value, now: int)
    ensures FindLive(WithoutId(ts, id), id, now) == None
  {
    forall t | t in WithoutId(ts, id)
      ensures !Matches(t, id, now)
    {
      assert !IdTest(id)(t);
    }
  }

  /** A cleaner tick at `now` removes only entries `find` ignores at `now`,
      so it never changes the answer of a lookup at that time. */
  lemma {:induction false} CleanerKeepsLookup(ts: seq<Record>, id: Value, now: int)
    ensures FindLive(Unexpired(ts, now), id, now) == FindLive(ts, id, now)
  {
    if ts != [] {
      CleanerKeepsLookup(ts[1..], id, now);
      if ExpiryTest(now)(ts[0]) {
        assert !Matches(ts[0], id, now);
      } else {
        assert Unexpired(ts, now) == [ts[0]] + Unexpired(ts[1..], now);
        assert ([ts[0]] + Unexpired(ts[1..], now))[1..] == Unexpired(ts[1..], now);
      }
    }
  }

  /** After a cleaner tick at `now` no entry has `exp <= now`; on a
      registry where every entry has expired the tick leaves it empty. */
  lemma CleanerSweepsExpired(ts: seq<Record>, now: int)
    ensures forall t :: t in Unexpired(ts, now) ==> !ExpiredAt(t, now)
    ensures (forall t :: t in ts ==> ExpiredAt(t, now)) ==> Unexpired(ts, now) == []
  {
    forall t | t in Unexpired(ts, now)
      ensures !ExpiredAt(t, now) && t in ts
    {
      assert !ExpiryTest(now)(t);
    }
    var r := Unexpired(ts, now);
    if r != [] {
      assert r[0] in r;
    }
  }

  /** A cleaner tick keeps every entry with `exp > now`, in its place between
      the survivors before it and those after it. */
  lemma CleanerKeepsLive(ts: seq<Record>, now: int)
    ensures forall i :: 0 <= i < |ts| && LiveAt(ts[i], now) ==>
      Unexpired(ts, now) == Unexpired(ts[..i], now) + [ts[i]] + Unexpired(ts[i + 1..], now)
  {
    forall i | 0 <= i < |ts| && LiveAt(ts[i], now)
      ensures Unexpired(ts, now) == Unexpired(ts[..i], now) + [ts[i]] + Unexpired(ts[i + 1..], now)
    {
      assert !ExpiryTest(now)(ts[i]);
      RejectAround(ts, ExpiryTest(now), i);
    }
  }

  /** `removeJwt(id)` deletes every entry with the id and keeps every other
      entry in its place; on an absent id it leaves the list unchanged, and
      repeating it changes nothing more. */
  lemma RemoveOutcome(ts: seq<Record>, id: Value)
    ensures forall t :: t in WithoutId(ts, id) <==> t in ts && !HasId(t, id)
    ensures forall i :: 0 <= i < |ts| ==>
      WithoutId(ts, id) == WithoutId(ts[..i], id) + (if HasId(ts[i], id) then [] else [ts[i]]) + WithoutId(ts[i + 1..], id)
    ensures (forall t :: t in ts ==> !HasId(t, id)) ==> WithoutId(ts, id) == ts
    ensures WithoutId(WithoutId(ts, id), id) == WithoutId(ts, id)
  {
    forall i | 0 <= i < |ts|
      ensures WithoutId(ts, id) == WithoutId(ts[..i], id) + (if HasId(ts[i], id) then [] else [ts[i]]) + WithoutId(ts[i + 1..], id)
    {
      RejectAround(ts, IdTest(id), i);
    }
    RejectIdempotent(ts, IdTest(id));
    if forall t :: t in ts ==> !HasId(t, id) {
      RejectNothing(ts, IdTest(id));
    }
  }

  /** The module-level `tokens` array: created empty once per process. */
  class TokenStore {
    var tokens: seq<Record>

    constructor ()
      ensures tokens == []
    {
      tokens := [];
    }
  }

  /** A `JwtExpirationValidator`. Its `options` are only read by the timer
      that reschedules the cleaner. All instances work on the one
      `TokenStore` they are given, as all instances of the source share the
      module-level array. */
  class JwtExpirationValidator {
    const store: TokenStore
    const options: Value

    constructor (store: TokenStore, options: Value)
      ensures this.store == store && this.options == options
    {
      this.store := store;
      this.options := options;
    }

    /** `findJwt(tokenId)`: the first stored claim set with that id that has
        not expired at `now`, or nothing when there is none. */
    function FindJwt(id: Value, now: int): (r: Option<Record>)
      reads store
      ensures r.Some? ==> r.value in store.tokens && HasId(r.value, id) && LiveAt(r.value, now)
      ensures r.None? ==> forall t :: t in store.tokens ==> !(HasId(t, id) && LiveAt(t, now))
    {
      FindLive(store.tokens, id, now)
    }

    /** `removeJwt(tokenId)`: afterwards no lookup of the id finds anything. */
    method RemoveJwt(id: Value)
      modifies store
      ensures store.tokens == WithoutId(old(store.tokens), id)
      ensures forall now :: FindJwt(id, now) == None
    {
      store.tokens := WithoutId(store.tokens, id);
      forall now: int
        ensures FindJwt(id, now) == None
      {
        RemovedIsNotFound(old(store.tokens), id, now);
      }
    }

    /** `addJwt(token)`: appends, whatever ids are already stored. */
    method AddJwt(token: Record)
      modifies store
      ensures store.tokens == old(store.tokens) + [token]
    {
      store.tokens := store.tokens + [token];
    }

    /** One tick of `jwtCleaner` at `now`: no entry expired at `now` is
        left, and every lookup at `now` answers as before. */
    method JwtCleaner(now: int)
      modifies store
      ensures store.tokens == Unexpired(old(store.tokens), now)
      ensures forall t :: t in store.tokens ==> !ExpiredAt(t, now)
      ensures forall id :: FindJwt(id, now) == old(FindJwt(id, now))
    {
      store.tokens := Unexpired(store.tokens, now);
      forall t | t in store.tokens
        ensures !ExpiredAt(t, now)
      {
        assert !ExpiryTest(now)(t);
      }
      forall id: Value
        ensures FindJwt(id, now) == old(FindJwt(id, now))
      {
        CleanerKeepsLookup(old(store.tokens), id, now);
      }
    }
  }
}
