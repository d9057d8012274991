/** Client code: session flows of the plugin, checked against the contracts
    of the registry and of the session logic alone. */
module Scenarios {
  import opened Json
  import opened Registry
  import opened Session

  /** A freshly issued token validates at once. */
  method IssueThenValidate(now: int)
  {
    var store := new TokenStore();
    var registry := new JwtExpirationValidator(store, Null);
    var options := JwtOptions("BOILERPLATE", 15);
    var rawUser := Obj(map[]);
    assert Truthy(rawUser);
    var issued := ForgeJwt(registry, options, Str("local"), LookupData(Str("u1"), Undefined), None, rawUser, "A", now);
    assert Validate(registry, options, issued.value, now).isValid;
  }

  /** A lookup that finds nobody is rejected and leaves the registry as it
      was. */
  method DeniedLookup(registry: JwtExpirationValidator, now: int)
    modifies registry.store
  {
    var before := registry.store.tokens;
    var denied := ForgeJwt(registry, JwtOptions("BOILERPLATE", 15), Str("local"), LookupData(Str("u2"), Undefined), None, Null, "B", now);
    assert denied == Failure(Unauthorized("INVALID CREDENTIAL"));
    assert registry.store.tokens == before;
  }

  /** A token whose `exp` is not after `now` does not validate, although it
      is still stored until a cleaner tick removes it. */
  method ExpiredButStored(now: int)
  {
    var store := new TokenStore();
    var registry := new JwtExpirationValidator(store, Null);
    var options := JwtOptions("BOILERPLATE", 0);
    var rawUser := Obj(map[]);
    assert Truthy(rawUser);
    var issued := ForgeJwt(registry, options, Str("local"), LookupData(Str("u1"), Undefined), None, rawUser, "A", now);
    var claims := issued.value;
    ClaimsOwnFields(rawUser, "A", options, now, Str("local"), LookupData(Str("u1"), Undefined));
    assert store.tokens == [claims];
    assert !Validate(registry, options, claims, now).isValid;
  }

  /** Renewing token A into token B retires A: afterwards only B is
      stored, a lookup of A finds nothing and a lookup of B finds B. */
  method RenewRetiresOld(registry: JwtExpirationValidator, a: Record, rawUser: Value, now: int)
    requires registry.store.tokens == [a] && HasId(a, Str("A")) && Truthy(rawUser)
    modifies registry.store
  {
    var options := JwtOptions("BOILERPLATE", 15);
    var renewed := ForgeJwt(registry, options, Str("local"), LookupData(Str("u1"), Undefined), Some(a), rawUser, "B", now);
    var b := renewed.value;
    ClaimsOwnFields(rawUser, "B", options, now, Str("local"), LookupData(Str("u1"), Undefined));
    assert WithoutId([a], Str("A")) == [] by {
      assert IdTest(Str("A"))(a) && [a][1..] == [];
    }
    assert registry.store.tokens == [b];
    assert Matches(b, Str("B"), now) && !HasId(b, Str("A"));
    assert registry.FindJwt(Str("A"), now) == None;
    assert registry.FindJwt(Str("B"), now) == Some(b);
  }

  /** Revoking an id that renewal already retired changes nothing: the
      renewed token is still found. */
  method RevokeRetiredId(registry: JwtExpirationValidator, b: Record, now: int)
    requires registry.store.tokens == [b] && HasId(b, Str("B")) && LiveAt(b, now)
    modifies registry.store
  {
    var response := RevokeToken(registry, Str("A"));
    assert WithoutId([b], Str("A")) == [b] by {
      assert !IdTest(Str("A"))(b) && [b][1..] == [];
    }
    assert registry.store.tokens == [b];
    assert registry.FindJwt(Str("B"), now) == Some(b);
  }

  /** Three tokens expiring at t+10, t+20 and t+30: a cleaner tick at t+15
      removes only the first. */
  lemma SweepAtFifteen(x: Record, y: Record, z: Record, t: int)
    requires Get(x, "exp") == Num(t + 10) && Get(y, "exp") == Num(t + 20) && Get(z, "exp") == Num(t + 30)
    ensures Unexpired([x, y, z], t + 15) == [y, z]
  {
    var expired := ExpiryTest(t + 15);
    assert Reject([z], expired) == [z] by {
      assert !expired(z) && [z][1..] == [];
    }
    assert Reject([y, z], expired) == [y, z] by {
      assert !expired(y) && [y, z][1..] == [z];
    }
    assert expired(x) && [x, y, z][1..] == [y, z];
  }

  /** The same sweep run through one validator is seen by a second
      validator that shares the store. */
  method SweepScenario(x: Record, y: Record, z: Record, t: int)
    requires Get(x, "exp") == Num(t + 10) && Get(y, "exp") == Num(t + 20) && Get(z, "exp") == Num(t + 30)
  {
    var store := new TokenStore();
    var registry := new JwtExpirationValidator(store, Null);
    var other := new JwtExpirationValidator(store, Null);
    registry.AddJwt(x);
    registry.AddJwt(y);
    registry.AddJwt(z);
    assert store.tokens == [x, y, z];
    other.JwtCleaner(t + 15);
    SweepAtFifteen(x, y, z, t);
    assert store.tokens == [y, z];
    assert registry.FindJwt(Get(y, "jti"), t + 15) == Some(y);
  }
}
