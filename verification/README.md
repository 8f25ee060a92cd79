# Credential vault of the Spellcast API, in Dafny

This project models the user router of the Spellcast API (`app/routers/user.py`):
a multi-tenant store of Azure speech-service credentials. Each user registers
keys tied to an Azure region. The store keeps each key encrypted, shows it masked
unless the owner asks for it raw, and checks new keys with the provider. It
caches the provider's voices list per region and binds one credential as the
user's subscription's current credential.

The seven handlers are pure transitions. Each takes a `State` and gives an
`Outcome`: the answer (`Ok` or an `Err` that names the HTTP failure), the state
afterwards, and the provider calls made on the way, in order. The state holds:

- the known users;
- the credentials, a map from id to `Credential(owner, encKey, region, voices, shared)`;
- the id counter;
- the voices cache, keyed by `"voices:" + region`;
- the subscriptions, a map from user to `current_credential`.

A failed handler commits nothing, so its state afterwards is the state before.

The collaborators the router imports but does not define are fields of an
`Env` value that every handler receives:

- the Fernet `encrypt_str`/`decrypt_str` pair;
- `mask`;
- the provider's `validate_key`, as an oracle `keyOk(region, key)`;
- `get_voices_list`, as `fetchVoices(region, key)`;
- `VALID_REGIONS`.

They stay uninterpreted. The only thing assumed of them is the cipher round trip
`decrypt(encrypt(s)) == s` (`Vault.CipherRoundTrips`). It is required only by
the lemmas that need it.

Files:

- `vault.dfy` (module `Vault`): the data model, the collaborators, the cache key,
  the owner-checked lookup and the state invariant `Valid`. `Valid` says every id
  is below the counter, every region is allowed and every owner is a user.
- `listing.dfy` (module `Listing`): the masked listing that List, Update and
  Delete answer with.
- `store.dfy` (module `CredentialStore`): Create, List, Get, Update, Delete and
  Voices.
- `binder.dfy` (module `SubscriptionBinder`): SetCurrent.
- `properties.dfy` (module `Properties`): lemmas that relate several calls. It
  also defines `Run`, which serves a sequence of requests, and the invariants
  kept over any such run.
- `findings.dfy` (module `Findings`): the two source defects, as written, each
  next to its corrected counterpart.

On these points the handlers behave as follows, and so does the model:

- Create asks the provider about the key *before* it checks the region
  allow-list. So a request with a bad region still makes one provider call.
- Create and Update give one and the same client error (422) for a rejected
  key and for a region outside the allow-list.
- Delete raises its 404 inside a `try` whose `except HTTPException` re-raises
  it as a 422. So a missing or foreign id gives `Unprocessable` there, not
  `NotFound`.
- Update asks the provider only when both the region and the key are given and
  non-empty. It does so before the ownership lookup. A key given on its own is
  re-encrypted without any check.
- List answers not-found when the caller has no credentials.
- The provider's failure modes are one boolean. The code does not tell an
  unreachable provider from a rejected key.

## Model

| member | source | states |
|---|---|---|
| `Vault.Lookup` | app/routers/user.py:85-89 | The corrected per-id lookup: it finds a credential exactly when the id exists and the caller owns it, and then returns that stored credential. |
| `Vault.CacheKey` | app/routers/user.py:213 | The voices cache slot is `"voices:"` followed by the region, so the region can be read back from the slot name. |
| `Vault.CacheKeyInjective` | app/routers/user.py:213-220 | Two regions share a cache slot only if they are the same region. |
| `Listing.OwnedBelow` | app/routers/user.py:55-56 | The rows the owner query returns: exactly the caller's ids below the bound, in strictly increasing order. |
| `Listing.Entries` | app/routers/user.py:61-72 | Every listing entry is a credential the caller owns, showing its region, voices, shared flag and the mask of the decrypted key. Ids strictly increase, and every owned id below the counter appears. |
| `Listing.EntriesExact` | app/routers/user.py:55-72 | In a valid state the listing shows exactly the caller's owned set, one entry per credential. It is empty exactly when the caller owns nothing. |
| `CredentialStore.Create` | app/routers/user.py:14-45 | An unknown user gets 404 with no provider call. Otherwise the provider is asked once about (region, key) whatever the region. The call succeeds exactly when the key is accepted and the region is allowed, and either failure is the same 422 with the state unchanged. On success there is one new id holding the caller's credential with key `encrypt(raw)` and an allowed region. Every other credential, the cache and the subscriptions stay unchanged. The answer is a fixed message that never carries the key. The invariant `Valid` is kept. |
| `CredentialStore.List` | app/routers/user.py:48-74 | It changes nothing and calls nothing. An unknown user gets 404 and a caller with no listing gets not-found. A successful answer is non-empty and is the caller's listing: every entry is one of the caller's credentials with its stored region, voices and shared flag and the mask of its decrypted key. |
| `CredentialStore.Get` | app/routers/user.py:77-99 | It changes nothing and calls nothing. It succeeds exactly when the caller owns the id, and a missing or foreign id is not-found. It answers with the stored region and with `decrypt(stored)` when reveal is set, `mask(decrypt(stored))` otherwise. |
| `CredentialStore.Update` | app/routers/user.py:102-155 | The provider is called only when both region and key are given and non-empty. A rejected key is 422 and is checked before ownership. A non-owned id is not-found, except that a patch with no key and a disallowed region gets 422. For an owned id, a named region outside the allow-list is 422. It succeeds exactly when none of these apply. On failure the state is unchanged. On success each named field is written (the key re-encrypted), each absent field keeps its value, and the owner, the other credentials, the cache and the subscriptions stay unchanged. The answer is the caller's listing after the update. `Valid` is kept. |
| `CredentialStore.Delete` | app/routers/user.py:158-194 | It succeeds exactly when the caller owns the id, and otherwise gives the wrapper's 422 with the state unchanged. On success exactly that id is gone and every remaining credential is unchanged. The answer is the caller's remaining listing, with no entry for the deleted id. |
| `CredentialStore.Voices` | app/routers/user.py:197-221 | It succeeds exactly when the caller owns the id, and otherwise gives not-found. It never touches credentials or subscriptions. On a hit in the region's slot it returns the cached list with no provider call and no state change. On a miss it makes one fetch with the decrypted key, returns the fetched list and adds only that slot to the cache. Either way, afterwards the slot holds the answer. |
| `SubscriptionBinder.SetCurrent` | app/routers/user.py:224-249 | The corrected binder. It succeeds exactly when the caller is known, owns the credential and has a subscription. A foreign credential is not-found, and every failure leaves the state unchanged. On success only the caller's `current_credential` becomes the given id, and the answer is that id. |
| `Properties.CreateThenGetRoundTrip` | app/routers/user.py:23-40 | If the cipher round-trips, a revealing Get of a just-created credential returns the raw key and its region, and a plain Get returns `mask(raw)`. |
| `Properties.CreateAddsExactlyOne` | app/routers/user.py:31-39 | In a valid state, a successful Create adds exactly one fresh id. The id goes into the caller's owned set and nobody else's, and the store grows by one. |
| `Properties.OwnedSetAfterInsert` | app/routers/user.py:31-39 | Inserting one fresh credential grows its owner's set by that id and leaves every other user's set alone. |
| `Properties.CreateThenDeleteRestores` | app/routers/user.py:167-174 | Deleting the credential just created succeeds and gives back the credentials map as it was before Create. |
| `Properties.ListExact` | app/routers/user.py:55-72 | In a valid state List succeeds exactly when the caller owns a credential. Its answer shows exactly the caller's ids, one entry each. |
| `Properties.UpdateAnswersLikeList` | app/routers/user.py:137-151 | In a valid state a successful Update answers with exactly what List answers right afterwards. |
| `Properties.EmptyPatchChangesNothing` | app/routers/user.py:118-134 | A patch that names no field leaves the whole state unchanged. |
| `Properties.UpdateIdempotent` | app/routers/user.py:111-134 | Re-applying a successful patch succeeds again and leaves the state the first application produced. |
| `Properties.DeleteLeavesTheRest` | app/routers/user.py:167-190 | In a valid state the answer to Delete shows the caller's owned set minus the deleted id, and a later Get of that id is not-found. |
| `Properties.VoicesMissThenHit` | app/routers/user.py:213-221 | After a successful Voices call, a call for any credential in the same region (of any owner) is a hit. It makes no provider call, changes no state and returns the same list. |
| `Properties.ForeignIdChangesNothing` | app/routers/user.py:85-89 | Get, Voices and SetCurrent on another user's credential are not-found. Those three, Update and Delete all fail on it and leave the state unchanged. |
| `Properties.RunPreservesValid` | app/routers/user.py:27-35 | Any sequence of requests keeps the invariant, so every stored region stays in the allow-list. |
| `Properties.RunByOthersKeepsUser` | app/routers/user.py:167-173 | Requests by other users never add, remove or change a user's credentials, and never rebind that user's subscription. |
| `Findings.LookupAsWritten` | app/routers/user.py:85-86 | The lookup as written finds any existing id, whoever owns it. |
| `Findings.LookupAsWrittenIgnoresOwner` | app/routers/user.py:115-116 | The as-written and corrected lookups agree on the caller's own credentials. They differ exactly on credentials that exist and belong to someone else. |
| `Findings.AsWrittenLookupLeaksForeignCredential` | app/routers/user.py:205-206 | Counterexample: the as-written lookup gives Bob Alice's credential, and the corrected one finds nothing. |
| `Findings.SetCurrentAsWritten` | app/routers/user.py:235-245 | The binder as written succeeds for any id whenever the caller has a subscription. |
| `Findings.AsWrittenBindsForeignCredential` | app/routers/user.py:236-241 | Counterexample: as written, Bob binds Alice's credential. The corrected binder answers not-found and leaves the state unchanged. |
| `Findings.SetCurrentBindsOwnedOnly` | app/routers/user.py:239-245 | After a successful corrected SetCurrent, the bound credential is owned by the caller. |

## Findings

| source | as written | input that shows it | evidently intended | confidence | as-written member | corrected member |
|---|---|---|---|---|---|---|
| app/routers/user.py:85-86 (also 115-116, 167, 205-206, 236-237) | The filter is `AzureCredentials.id == id and AzureCredentials.user_id == user_id`. The host language's `and` takes the truth value of the first comparison, an SQL expression object that counts as false, and yields that expression. So the filter matches on the id alone. | Bob asks for id 0, owned by Alice | Match on id AND owner. A foreign id is not-found. | high that the owner is not enforced; not executed | `Findings.LookupAsWritten` (`Findings.AsWrittenLookupLeaksForeignCredential`) | `Vault.Lookup` |
| app/routers/user.py:235-245 | The ownership query runs, its result is thrown away and the subscription is bound anyway. The `except` only fires on an exception. | Bob binds id 0, owned by Alice | Fail with not-found and leave the subscription unchanged, as the error text says | high; not executed | `Findings.SetCurrentAsWritten` (`Findings.AsWrittenBindsForeignCredential`) | `SubscriptionBinder.SetCurrent` |

## Left out

- Cipher, masker, key validator and voices fetcher internals: Fernet, the masking window and the Azure HTTP calls are not part of this model. They are uninterpreted fields of `Env`, and only the cipher round trip is assumed.
- Masking policy: the masker is uninterpreted, so nothing is stated about its reveal window or about `mask(s) != s`.
- `DecryptionError`: decryption is total in the model, so corrupt ciphertext is not modelled.
- An unreachable provider versus a rejected key: the code does not tell them apart, so the validator is one boolean and fetching voices never fails.
- `VALID_REGIONS`: its contents are not part of this model, so it is a parameter set.
- Redis TTL and expiry: the cache never expires.
- Cache serialisation: the handler stores `str(voices)`, and a hit returns that string, not the list. The model stores and returns the list itself.
- `CredentialStore.Voices`: a hit is modelled as the cache slot being present. The handler tests the truthiness of the cached string. The two agree because a stored `str(list)` is never empty.
- New-row defaults: the credentials table declaration is not part of this model. A new credential is assumed to start with no voices and `shared` false.
- `created_at`: there is no clock in the model.
- Credential ids: the database assigns ids. The model uses a counter, and listings come in increasing id order where the database gives no order.
- The `Users` table: it is a set of known user ids. A caller not in it gets `UserNotFound`, and users are never created or deleted here.
- A missing subscription row: SetCurrent dereferences `None` there (an unhandled 500). It is modelled as the error `MissingSubscription`.
- Update on an id with no visible credential: the handler dereferences `None` at line 120 (key given) or at lines 126-135. It is modelled as `NotFound`. A patch with no key and a disallowed region fails the allow-list check at line 124 first, and the model gives its 422.
- An absent `credential_id` in SetCurrent: the id is a `CredId` and cannot be absent. The handler would build a null-test clause whose truth value raises, and its bare `except` turns that into a 404.
- HTTP status codes beyond the four error kinds, response message strings other than Create's, `print` logging, async/await, and database session, commit and refresh: failure is modelled as "state unchanged".
- Request concurrency: it is not modelled, and each handler is one atomic transition.
- The document and library routers, the ORM models and the JWT test helper: these are outside the credential store.
