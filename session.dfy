/** The session logic of lib/index.mjs: `forgeJwt` builds the claims of a new
    token from the upstream user record, retires the token being renewed and
    registers the new claims; `validate` decides whether a decoded token is
    still live. The clock reading, the fresh token id and the answer of the
    user lookup are parameters. */
module Session {
  import opened Json
  import opened Registry

  /** The `jwt` options the core reads: the issuer written into every token
      and the token lifetime in minutes. */
  datatype JwtOptions = JwtOptions(issuer: string, duration: int)

  /** `Boom.unauthorized(message)`, and the TypeError thrown when the
      credentials being renewed carry no provider object. */
  datatype AuthError = Unauthorized(message: string) | MissingProvider

  datatype Result<+T> = Success(value: T) | Failure(error: AuthError)

  /** What `validate` resolves to: `{ isValid, credentials }`, where a
      missing credentials object stands for `null`. */
  datatype Verdict = Verdict(isValid: bool, credentials: Option<Record>)

  /** The fields `forgeJwt` keeps from the upstream user record. */
  const UserFields: set<string> := {"_id", "firstname", "lastname", "email", "scope", "group"}

  /** The claims `forgeJwt` writes itself. */
  const TokenFields: set<string> := {"jti", "iss", "iat", "exp", "scope", "provider"}

  /** The scope of a token whose upstream record has none: `['user']`. */
  const DefaultScope: Value := Arr([Str("user")])

  /** lodash `pick(o, keys)`: the properties of `o` named in `keys`. */
  function Pick(o: Record, keys: set<string>): (r: Record)
    ensures r.Keys == o.Keys * keys
    ensures forall k :: k in r ==> r[k] == o[k]
  {
    map k | k in o && k in keys :: o[k]
  }

  /** lodash `extend(target, source)`: the properties of `source` are
      copied over those of `target`. */
  function Extend(target: Record, source: Record): (r: Record)
    ensures r.Keys == target.Keys + source.Keys
    ensures forall k :: k in r ==> r[k] == if k in source then source[k] else target[k]
  {
    target + source
  }

  /** `{ name: provider, ...data }`: the spread comes last, so a `name` in
      `data` would replace the provider name. */
  function ProviderObject(provider: Value, data: Record): (r: Record)
    ensures r.Keys == {"name"} + data.Keys
    ensures Get(r, "name") == if "name" in data then data["name"] else provider
    ensures forall k :: k in data ==> r[k] == data[k]
  {
    map["name" := provider] + data
  }

  /** `{ userId, email }`, the lookup data the `/profile` and `/renew`
      routes hand to `forgeJwt`. It has no `name` property. */
  function LookupData(userId: Value, email: Value): (r: Record)
    ensures "name" !in r
    ensures Get(r, "userId") == userId && Get(r, "email") == email
  {
    map["userId" := userId, "email" := email]
  }

  /** The claims object `forgeJwt` writes before merging the user fields. */
  function TokenClaims(jti: string, options: JwtOptions, now: int, provider: Value, data: Record): Record
  {
    map[
      "jti" := Str(jti),
      "iss" := Str(options.issuer),
      "iat" := Num(now),
      "exp" := Num(now + options.duration * 60),
      "scope" := DefaultScope,
      "provider" := Obj(ProviderObject(provider, data))
    ]
  }

  /** `newCredentials` in `forgeJwt`: the token's own claims with the
      allow-listed fields of the upstream record merged over them. */
  function NewCredentials(rawUser: Value, jti: string, options: JwtOptions, now: int, provider: Value, data: Record): Record
  {
    Extend(TokenClaims(jti, options, now, provider, data), Pick(Fields(rawUser), UserFields))
  }

  /** None of the claims `forgeJwt` owns is on the allow-list. */
  lemma OwnClaimsNotAllowListed()
    ensures "jti" !in UserFields && "iss" !in UserFields && "iat" !in UserFields
    ensures "exp" !in UserFields && "provider" !in UserFields
  {
  }

  /** The values `forgeJwt` gives the claims it owns. */
  lemma TokenClaimsValues(jti: string, options: JwtOptions, now: int, provider: Value, data: Record)
    ensures var c := TokenClaims(jti, options, now, provider, data);
      && Get(c, "jti") == Str(jti)
      && Get(c, "iss") == Str(options.issuer)
      && Get(c, "iat") == Num(now)
      && Get(c, "exp") == Num(now + options.duration * 60)
      && Get(c, "provider") == Obj(ProviderObject(provider, data))
  {
  }

  /** `extend` leaves a property alone that the source does not have. */
  lemma ExtendKeeps(target: Record, source: Record, k: string)
    requires k !in source
    ensures Get(Extend(target, source), k) == Get(target, k)
  {
  }

  /** The id, issuer, issue time, expiry and provider of new claims are
      always the token's own: none of them is on the allow-list, so the merge
      of the upstream record never replaces them. */
  lemma ClaimsOwnFields(rawUser: Value, jti: string, options: JwtOptions, now: int, provider: Value, data: Record)
    ensures var c := NewCredentials(rawUser, jti, options, now, provider, data);
      && Get(c, "jti") == Str(jti)
      && Get(c, "iss") == Str(options.issuer)
      && Get(c, "iat") == Num(now)
      && Get(c, "exp") == Num(now + options.duration * 60)
      && Get(c, "provider") == Obj(ProviderObject(provider, data))
  {
    // Claim by claim: it is not on the allow-list, so `extend` keeps the
    // value the claims object gave it.
    var claims := TokenClaims(jti, options, now, provider, data);
    var user := Pick(Fields(rawUser), UserFields);
    OwnClaimsNotAllowListed();
    TokenClaimsValues(jti, options, now, provider, data);
    ExtendKeeps(claims, user, "jti");
    ExtendKeeps(claims, user, "iss");
    ExtendKeeps(claims, user, "iat");
    ExtendKeeps(claims, user, "exp");
    ExtendKeeps(claims, user, "provider");
  }

  /** The scope of new claims is `['user']` unless the upstream record has a
      scope, which the merge then copies over it. */
  lemma ClaimsScope(rawUser: Value, jti: string, options: JwtOptions, now: int, provider: Value, data: Record)
    ensures Get(NewCredentials(rawUser, jti, options, now, provider, data), "scope")
         == if "scope" in Fields(rawUser) then Fields(rawUser)["scope"] else DefaultScope
  {
  }

  /** New claims hold the token's own claims and exactly the allow-listed
      fields the upstream record has, with the upstream values; every other
      upstream field is dropped. */
  lemma ClaimsUserFields(rawUser: Value, jti: string, options: JwtOptions, now: int, provider: Value, data: Record)
    ensures var c := NewCredentials(rawUser, jti, options, now, provider, data);
      && c.Keys == TokenFields + (Fields(rawUser).Keys * UserFields)
      && (forall k :: k in UserFields && k in Fields(rawUser) ==> c[k] == Fields(rawUser)[k])
      && (forall k :: k in c && k !in TokenFields ==> k in UserFields && k in Fields(rawUser) && c[k] == Fields(rawUser)[k])
  {
  }

  /** The registry after `forgeJwt` has retired the token being renewed, if
      any, and registered `credentials`. */
  function Reissue(ts: seq<Record>, current: Option<Record>, credentials: Record): seq<Record>
  {
    (if current.Some? then WithoutId(ts, Get(current.value, "jti")) else ts) + [credentials]
  }

  /** After a renewal the new claims are the last entry, no other entry
      carries the old id, and every entry with another id is still there. */
  lemma RenewalOutcome(ts: seq<Record>, current: Record, credentials: Record)
    ensures var r := Reissue(ts, Some(current), credentials);
      && |r| <= |ts| + 1
      && r[|r| - 1] == credentials
      && (forall i :: 0 <= i < |r| - 1 ==> !HasId(r[i], Get(current, "jti")))
      && (forall t :: t in ts && !HasId(t, Get(current, "jti")) ==> t in r)
  {
  }

  /** Claims just issued with a positive lifetime pass every test of
      `validate`: the issuer is the configured one, `exp` lies after `now`,
      and a lookup of their id in the new registry finds a live entry. */
  lemma {:induction false} IssuedClaimsAreLive(ts: seq<Record>, current: Option<Record>, rawUser: Value, jti: string,
                                               options: JwtOptions, now: int, provider: Value, data: Record)
    requires options.duration > 0
    ensures var c := NewCredentials(rawUser, jti, options, now, provider, data);
      && Get(c, "iss") == Str(options.issuer)
      && Greater(Get(c, "exp"), now)
      && FindLive(Reissue(ts, current, c), Str(jti), now).Some?
  {
    var c := NewCredentials(rawUser, jti, options, now, provider, data);
    ClaimsOwnFields(rawUser, jti, options, now, provider, data);
    var kept := if current.Some? then WithoutId(ts, Get(current.value, "jti")) else ts;
    assert Matches(c, Str(jti), now);
    assert Reissue(ts, current, c) == kept + [c];
    AppendedIsFound(kept, c, Str(jti), now);
  }

  /** With a fresh id, issuing keeps the registry's ids distinct. */
  lemma ReissueKeepsDistinct(ts: seq<Record>, current: Option<Record>, credentials: Record)
    requires DistinctIds(ts)
    requires forall t :: t in ts ==> !HasId(t, Get(credentials, "jti"))
    ensures DistinctIds(Reissue(ts, current, credentials))
  {
    var kept := if current.Some? then WithoutId(ts, Get(current.value, "jti")) else ts;
    if current.Some? {
      RejectKeepsDistinct(ts, IdTest(Get(current.value, "jti")));
    }
    var r := kept + [credentials];
    forall i, j | 0 <= i < j < |r|
      ensures Get(r[i], "jti") != Get(r[j], "jti")
    {
      if j == |r| - 1 {
        assert r[i] == kept[i] && kept[i] in kept && kept[i] in ts;
      } else {
        assert r[i] == kept[i] && r[j] == kept[j];
      }
    }
  }

  /** The identity a token embeds is the identity `/renew` reads back:
      renewing a token issued for `provider` and `{ userId, email }` looks up
      the same provider and the same data. */
  lemma RenewReadsIssuedIdentity(rawUser: Value, jti: string, options: JwtOptions, now: int,
                                 provider: Value, userId: Value, email: Value)
    ensures RenewArguments(NewCredentials(rawUser, jti, options, now, provider, LookupData(userId, email)))
         == Some((provider, LookupData(userId, email)))
  {
    var data := LookupData(userId, email);
    ClaimsOwnFields(rawUser, jti, options, now, provider, data);
    var f := ProviderObject(provider, data);
    assert Get(f, "userId") == userId && Get(f, "email") == email;
    assert LookupData(Get(f, "userId"), Get(f, "email")) == data;
  }

  /** `validate(decoded)`: the token is valid exactly when its issuer is the
      configured one, it has not expired at `now`, and the registry still
      holds a live entry with its id; a valid token's credentials are the
      decoded claims, an invalid one's are `null`. */
  function Validate(registry: JwtExpirationValidator, options: JwtOptions, decoded: Record, now: int): (r: Verdict)
    reads registry.store
    ensures r.isValid <==>
      && Get(decoded, "iss") == Str(options.issuer)
      && Greater(Get(decoded, "exp"), now)
      && exists t :: t in registry.store.tokens && HasId(t, Get(decoded, "jti")) && LiveAt(t, now)
    ensures r.credentials == if r.isValid then Some(decoded) else None
  {
    var storedToken := registry.FindJwt(Get(decoded, "jti"), now);
    if Get(decoded, "iss") == Str(options.issuer) && Greater(Get(decoded, "exp"), now) && storedToken.Some? then
      Verdict(true, Some(decoded))
    else
      Verdict(false, None)
  }

  /** `forgeJwt(provider, data, currentCredentials)`, where `rawUser` is what
      the user lookup resolved to, `jti` the fresh id and `now` the clock.
      A falsy lookup result is rejected and leaves the registry alone;
      otherwise the old id is removed, the new claims appended, and the new
      claims validate at once when the lifetime is positive. */
  method ForgeJwt(registry: JwtExpirationValidator, options: JwtOptions, provider: Value, data: Record,
                  currentCredentials: Option<Record>, rawUser: Value, jti: string, now: int)
    returns (r: Result<Record>)
    modifies registry.store
    ensures !Truthy(rawUser) ==>
      && r == Failure(Unauthorized("INVALID CREDENTIAL"))
      && registry.store.tokens == old(registry.store.tokens)
    ensures Truthy(rawUser) ==>
      && r == Success(NewCredentials(rawUser, jti, options, now, provider, data))
      && registry.store.tokens == Reissue(old(registry.store.tokens), currentCredentials, r.value)
    ensures Truthy(rawUser) && options.duration > 0 ==> Validate(registry, options, r.value, now).isValid
  {
    if !Truthy(rawUser) {
      return Failure(Unauthorized("INVALID CREDENTIAL"));
    }
    var newCredentials := NewCredentials(rawUser, jti, options, now, provider, data);
    ghost var before := registry.store.tokens;
    if currentCredentials.Some? {
      registry.RemoveJwt(Get(currentCredentials.value, "jti"));
    }
    registry.AddJwt(newCredentials);
    r := Success(newCredentials);
    if options.duration > 0 {
      ClaimsOwnFields(rawUser, jti, options, now, provider, data);
      IssuedClaimsAreLive(before, currentCredentials, rawUser, jti, options, now, provider, data);
    }
  }

  /** `const { name, userId, email } = request.auth.credentials.provider` in
      the `/renew` route: the provider and lookup data to renew with, or
      nothing when the destructuring would throw on a missing provider. */
  function RenewArguments(credentials: Record): Option<(Value, Record)>
  {
    var p := Get(credentials, "provider");
    if p == Undefined || p == Null then None
    else
      var f := Fields(p);
      Some((Get(f, "name"), LookupData(Get(f, "userId"), Get(f, "email"))))
  }

  /** The `/renew` route after its guard: forge a new token for the identity
      embedded in the current credentials and retire the current one. */
  method Renew(registry: JwtExpirationValidator, options: JwtOptions, credentials: Record,
               rawUser: Value, jti: string, now: int)
    returns (r: Result<Record>)
    modifies registry.store
    ensures RenewArguments(credentials).None? ==>
      && r == Failure(MissingProvider)
      && registry.store.tokens == old(registry.store.tokens)
    ensures RenewArguments(credentials).Some? && Truthy(rawUser) ==>
      var (name, data) := RenewArguments(credentials).value;
      && r == Success(NewCredentials(rawUser, jti, options, now, name, data))
      && registry.store.tokens == Reissue(old(registry.store.tokens), Some(credentials), r.value)
    ensures RenewArguments(credentials).Some? && !Truthy(rawUser) ==>
      && r == Failure(Unauthorized("INVALID CREDENTIAL"))
      && registry.store.tokens == old(registry.store.tokens)
  {
    var args := RenewArguments(credentials);
    if args.None? {
      return Failure(MissingProvider);
    }
    var (name, data) := args.value;
    r := ForgeJwt(registry, options, name, data, Some(credentials), rawUser, jti, now);
  }

  /** The `/revoke-token` route: remove the id and answer `{ status: 'ok' }`,
      whether or not the id was stored. */
  method RevokeToken(registry: JwtExpirationValidator, tokenId: Value) returns (response: Record)
    modifies registry.store
    ensures response == map["status" := Str("ok")]
    ensures registry.store.tokens == WithoutId(old(registry.store.tokens), tokenId)
    ensures forall now :: registry.FindJwt(tokenId, now) == None
  {
    registry.RemoveJwt(tokenId);
    response := map["status" := Str("ok")];
  }
}
