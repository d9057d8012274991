# Token registry and session logic of the hapi JWT plugin

This project models the core of an authentication plugin for hapi that issues
JSON Web Tokens and keeps a process-wide registry of the claim sets it has
issued. The registry lets a token be revoked before it expires.

- `json.dfy` (module `Json`) holds the JavaScript values the plugin passes around:
  - claim sets, upstream user records and decoded tokens are plain objects;
  - a plain object is a map from property names to values, and an absent property reads as `undefined`;
  - JavaScript truthiness, and the numeric conversion that `>` and `<=` apply, are written out. A value that converts to NaN is neither greater than nor at most a timestamp.
- `registry.dfy` (module `Registry`) models `lib/jwtExpirationValidator.mjs`:
  - the module-level `tokens` array is the `seq` field of one `TokenStore` object;
  - every `JwtExpirationValidator` holds a reference to that store, just as every instance in the source shares the one array;
  - `addJwt`, `removeJwt` and one tick of `jwtCleaner` are methods that reassign the field;
  - `findJwt` is a function that reads it;
  - lodash `remove` is specified by the pure function `Reject`, and `Array.prototype.find` by `FindLive`.
- `session.dfy` (module `Session`) models `lib/index.mjs`:
  - building the claims with `pick`/`extend`;
  - `forgeJwt`, which retires the token being renewed and then registers the new claims;
  - `validate`;
  - the work of the `/renew` and `/revoke-token` handlers after their guards.
  
  The clock reading (`moment().unix()`), the fresh token id (`uuid.v4()`) and the value the user lookup resolves to are parameters.
- `scenarios.dfy` (module `Scenarios`) holds client methods that run these flows using only the contracts above:
  - issue, then validate;
  - a rejected lookup;
  - a token that has expired but is still stored;
  - renewal, then revocation of the retired id;
  - a sweep run through one validator and observed through another.

The claims `iss`, `exp`, `iat` and `jti` are the registered claims of RFC 7519 (sections 4.1.1, 4.1.4, 4.1.6 and 4.1.7). Timestamps are seconds, and the lifetime `duration` is in minutes.

Three behaviours of the code shape the model:
- On renewal `forgeJwt` removes the old id and then appends the new claims. Both steps are synchronous, so no lookup can observe the state between them.
- `addJwt` does no duplicate-id check, so issuing never fails because of an id collision. `ReissueKeepsDistinct` states what a fresh id guarantees.
- The cleaner returns nothing. It does not report how many entries it removed.

## Model

| member | source | states |
|---|---|---|
| Registry.Reject | lib/jwtExpirationValidator.mjs:20 | lodash `remove` keeps exactly the entries on which the predicate is false, and never lengthens the array |
| Registry.RejectAppend | lib/jwtExpirationValidator.mjs:20 | removal works element by element: removing from a concatenation gives the concatenation of the two removals |
| Registry.RejectAround | lib/jwtExpirationValidator.mjs:33 | every entry keeps its place: the result is the removal before position i, then that entry unless it is removed, then the removal after it |
| Registry.RejectIdempotent | lib/jwtExpirationValidator.mjs:20 | removing twice with the same predicate is the same as removing once |
| Registry.RejectKeepsDistinct | lib/jwtExpirationValidator.mjs:20 | if no two entries share a `jti` before a removal, none do after it |
| Registry.FindLive | lib/jwtExpirationValidator.mjs:15 | `tokens.find` answers with an entry from the array that carries the id and has `exp > now`; it answers nothing exactly when no entry does |
| Registry.FindLiveIsFirst | lib/jwtExpirationValidator.mjs:15 | the answer is the first qualifying entry in insertion order |
| Registry.FindLiveAppend | lib/jwtExpirationValidator.mjs:15 | on a concatenation, a qualifying entry in the first part shadows any in the second part |
| Registry.AppendedIsFound | lib/jwtExpirationValidator.mjs:15-28 | once a live entry with id `id` has been appended, a lookup of `id` finds an entry |
| Registry.RemovedIsNotFound | lib/jwtExpirationValidator.mjs:15-20 | after `removeJwt(id)`, `findJwt(id)` finds nothing, at any time |
| Registry.WithoutId | lib/jwtExpirationValidator.mjs:20 | the array after `removeJwt(id)` holds exactly the old entries whose `jti` is not `id`; its order is stated by `RemoveOutcome` |
| Registry.Unexpired | lib/jwtExpirationValidator.mjs:33 | the array after a cleaner tick at `now` holds exactly the old entries that do not have `exp <= now`; its order is stated by `CleanerKeepsLive` |
| Registry.RemoveOutcome | lib/jwtExpirationValidator.mjs:18-22 | `removeJwt(id)` keeps an entry exactly when its `jti` differs from `id` and leaves every survivor in its place; it leaves the array unchanged when `id` is absent, and a second call changes nothing more |
| Registry.CleanerKeepsLookup | lib/jwtExpirationValidator.mjs:13-33 | a cleaner tick at `now` does not change the answer of any lookup at the same `now` |
| Registry.CleanerSweepsExpired | lib/jwtExpirationValidator.mjs:31-33 | after a tick at `now` no entry has `exp <= now`, on any registry; a registry whose entries have all expired is left empty |
| Registry.CleanerKeepsLive | lib/jwtExpirationValidator.mjs:31-33 | every entry with `exp > now` survives a tick at `now`, in order between the survivors before it and those after it |
| Registry.TokenStore.constructor | lib/jwtExpirationValidator.mjs:6 | the shared array starts empty |
| Registry.JwtExpirationValidator.constructor | lib/jwtExpirationValidator.mjs:9-11 | an instance keeps its options and works on the shared store |
| Registry.JwtExpirationValidator.FindJwt | lib/jwtExpirationValidator.mjs:13-16 | `findJwt(id)` returns only a stored entry with `jti == id` and `exp > now`; it returns nothing only if no stored entry qualifies |
| Registry.JwtExpirationValidator.RemoveJwt | lib/jwtExpirationValidator.mjs:18-22 | the store becomes the old array minus the entries with the id, and afterwards no lookup of the id finds anything at any time |
| Registry.JwtExpirationValidator.AddJwt | lib/jwtExpirationValidator.mjs:24-28 | the token is appended after all earlier entries, which are unchanged, without checking for a duplicate id |
| Registry.JwtExpirationValidator.JwtCleaner | lib/jwtExpirationValidator.mjs:30-33 | the store becomes the old array minus its expired entries; no entry with `exp <= now` is left, and every lookup at `now` answers as before |
| Session.Pick | lib/index.mjs:55 | `pick` keeps exactly the listed properties that the record has, with their values |
| Session.Extend | lib/index.mjs:57-67 | `extend` has the properties of both objects, and where both have a property the source's value wins |
| Session.ProviderObject | lib/index.mjs:63-66 | the `provider` claim has `name` plus the lookup data's fields with their values; because the spread comes last, a `name` in the data would win |
| Session.LookupData | lib/index.mjs:118-119 | the lookup data carries `userId` and `email` and no `name`, so the provider name survives the spread |
| Session.TokenClaims | lib/index.mjs:57-66 | the claims object `forgeJwt` builds before the merge; it has no contract of its own and is specified through `NewCredentials` by the three `Claims` lemmas below |
| Session.NewCredentials | lib/index.mjs:55-67 | the new claims: the allow-listed user fields merged over the token's own claims; it is specified by `ClaimsOwnFields`, `ClaimsScope` and `ClaimsUserFields` |
| Session.ClaimsOwnFields | lib/index.mjs:55-67 | in the new claims, `jti` is the fresh id, `iss` the configured issuer, `iat == now`, `exp == now + duration*60`, and `provider` is the provider object; the upstream record never overrides any of them |
| Session.ClaimsScope | lib/index.mjs:55-67 | `scope` is `['user']` unless the upstream record has a `scope`, whose value then wins |
| Session.ClaimsUserFields | lib/index.mjs:55-67 | the new claims hold exactly the token's own six claims plus the allow-listed fields the upstream record has, with the upstream values; every other upstream field is dropped |
| Session.Reissue | lib/index.mjs:70-73 | the registry after `forgeJwt`: the old array without the renewed id, then the new claims; it is specified by `RenewalOutcome`, `IssuedClaimsAreLive` and `ReissueKeepsDistinct` |
| Session.RenewalOutcome | lib/index.mjs:70-73 | after a renewal the new claims are the last entry, no earlier entry carries the old `jti`, and every entry with another id is kept |
| Session.IssuedClaimsAreLive | lib/index.mjs:57-83 | claims just issued with a positive lifetime carry the configured issuer and an `exp` after `now`, and the new registry has a live entry with their id |
| Session.ReissueKeepsDistinct | lib/index.mjs:58-73 | if the ids are distinct and the new id is fresh, the ids stay distinct after issuing |
| Session.RenewArguments | lib/index.mjs:139 | the destructuring in `/renew`: nothing when `provider` is `undefined` or `null`, otherwise its `name` and its `{ userId, email }`; `RenewReadsIssuedIdentity` states what it reads back |
| Session.RenewReadsIssuedIdentity | lib/index.mjs:139-140 | `/renew` reads back exactly the provider and lookup data the token was issued for |
| Session.Validate | lib/index.mjs:78-88 | `isValid` holds exactly when `iss` is the issuer, `exp > now` and the registry holds a live entry with the `jti`; the credentials are the decoded claims when valid and `null` otherwise |
| Session.ForgeJwt | lib/index.mjs:48-76 | a falsy lookup result gives `unauthorized('INVALID CREDENTIAL')` and leaves the registry unchanged; otherwise the result is the new claims, the registry is the old one without the renewed id plus the new claims, and with a positive lifetime the new claims validate at once |
| Session.Renew | lib/index.mjs:133-141 | credentials whose `provider` is `undefined` or `null` make the destructuring throw, and the registry is unchanged; otherwise it forges for the embedded provider and lookup data and retires the current token |
| Session.RevokeToken | lib/index.mjs:160-168 | the handler answers `{ status: 'ok' }` whether or not the id was stored; the registry loses every entry with the id, and no later lookup of the id finds anything |
| Scenarios.SweepAtFifteen | lib/jwtExpirationValidator.mjs:30-33 | with entries expiring at t+10, t+20 and t+30, a tick at t+15 removes only the first |

## Left out

- `jwt.sign` (lib/index.mjs:75) is a foreign cryptographic call, and the signature check is done by hapi-auth-jwt2. `ForgeJwt` returns the claims that would be signed.
- `uuid.v4()` and `moment()` are randomness and the wall clock, so they are parameters.
  - `iat` and `exp` are modelled from a single clock reading `now`, although the source reads the clock twice.
  - `findJwt` receives the same `now` as `validate`.
- `findUserByProvider` is an external asynchronous call. Only the value it resolves to is modelled.
- `setTimeout(...).unref()` in `jwtCleaner` is timer plumbing. `JwtCleaner` models one tick, and `options.cleanInterval` is kept but never read.
- Logging is output only and is left out. This covers `console.log` and `server.app.logger`.
- Registry.JwtExpirationValidator.RemoveJwt, `AddJwt` and `JwtCleaner` assume that a global `server` with an `app.logger` exists. lib/jwtExpirationValidator.mjs never declares `server`, and reading an undeclared name throws a ReferenceError. The model covers only a host where the global exists. Without it:
  - `removeJwt` throws before its `remove` (lines 19-20), and `addJwt` throws before its `push` (lines 25-26), so neither changes the array;
  - `jwtCleaner` throws after its sweep (line 36), so the first call at lib/index.mjs:46 makes `register` fail.
- Plugin registration, the auth strategy, the route definitions, the Joi schemas and the `isInjected`/`isAuthenticated` guards are framework glue and are left out. `Renew` and `RevokeToken` model the handler bodies after the guards.
- The default options object is constants only. The issuer and lifetime are `JwtOptions` parameters.
- Json.ToNumber converts every string, array and object to NaN. JavaScript converts `""`, whitespace-only and numeric strings, `[]`, and one-element arrays of such values to numbers. The difference reaches every `exp` comparison: `LiveAt` and `ExpiredAt`, and through them `FindJwt`, `JwtCleaner` and `Validate`. All numbers are integers.
- Registry.HasId compares ids structurally, where `===` compares objects and arrays by reference. The ids `forgeJwt` stores are strings, for which the two agree.
- Registry.Reject types registry entries as plain objects. `addJwt` in the source accepts any value, but the only caller passes a claims object.
- Session.ForgeJwt does not model the JSON serialization that `jwt.sign` performs, which drops `undefined` properties. For example, `userId` or `email` in the provider object could be dropped.
