/**
 The data model of the credential vault: users, their encrypted speech-service
 credentials, the region-keyed voices cache and the per-user subscription,
 together with the collaborators the vault calls but does not define (the
 cipher, the masker, the key validator, the voices fetcher and the region
 allow-list).
 */
module Vault {

  type UserId = string

  /** Credential ids are handed out by the database; modelled as a counter. */
  type CredId = nat

  type VoiceList = seq<string>

  datatype Option<+T> = None | Some(value: T)

  /** The failures the handlers surface, one per distinct HTTP answer. */
  datatype Error =
    | UserNotFound         // 404 "User not found"
    | NotFound             // 404 "Credentials not found" / "not matched"
    | Unprocessable        // 422 "Invalid Azure key or region ..." and friends
    | MissingSubscription  // the caller has no subscription row (an unhandled 500)

  datatype Result<+T> = Ok(value: T) | Err(error: Error)

  /** One stored credential; `encKey` is the ciphertext of the raw key. */
  datatype Credential = Credential(
    owner: UserId,
    encKey: string,
    region: string,
    voices: Option<VoiceList>,
    shared: bool)

  datatype Subscription = Subscription(currentCredential: Option<CredId>)

  /** Everything the seven handlers read or write. */
  datatype State = State(
    users: set<UserId>,
    creds: map<CredId, Credential>,
    nextId: CredId,
    cache: map<string, VoiceList>,
    subs: map<UserId, Subscription>)

  /**
   The collaborators, as uninterpreted total functions: `encrypt`/`decrypt`
   stand for the Fernet helpers, `mask` for the display masker, `keyOk` for the
   provider's key check, `fetchVoices` for the provider's voices list and
   `validRegions` for the configured allow-list.
   */
  datatype Env = Env(
    encrypt: string -> string,
    decrypt: string -> string,
    mask: string -> string,
    keyOk: (string, string) -> bool,
    fetchVoices: (string, string) -> VoiceList,
    validRegions: set<string>)

  /** The one property assumed of the cipher: decryption undoes encryption. */
  ghost predicate CipherRoundTrips(env: Env)
  {
    forall s :: env.decrypt(env.encrypt(s)) == s
  }

  /** A call made to the external provider, in the order it is made. */
  datatype Call =
    | ValidateKey(region: string, key: string)
    | FetchVoices(region: string, key: string)

  /**
   What a handler does: its answer, the state afterwards and the provider
   calls it made on the way.
   */
  datatype Outcome<+T> = Outcome(result: Result<T>, post: State, calls: seq<Call>)

  const VoicesPrefix: string := "voices:"

  /** The cache slot shared by every credential of one region. */
  function CacheKey(region: string): (k: string)
    ensures |k| == |VoicesPrefix| + |region|
    ensures k[..|VoicesPrefix|] == VoicesPrefix && k[|VoicesPrefix|..] == region
  {
    VoicesPrefix + region
  }

  /** Distinct regions never share a cache slot. */
  lemma CacheKeyInjective(r1: string, r2: string)
    ensures CacheKey(r1) == CacheKey(r2) <==> r1 == r2
  {
    if CacheKey(r1) == CacheKey(r2) {
      assert r1 == CacheKey(r1)[|VoicesPrefix|..];
    }
  }

  /** `uid` owns the stored credential `id`. */
  predicate Owns(st: State, uid: UserId, id: CredId)
  {
    id in st.creds && st.creds[id].owner == uid
  }

  /** The ids of every credential `uid` owns. */
  function OwnedSet(st: State, uid: UserId): set<CredId>
  {
    set id | id in st.creds && st.creds[id].owner == uid
  }

  /**
   The per-id lookup as intended: a credential is found only when the id
   exists AND the caller owns it.
   */
  function Lookup(st: State, uid: UserId, id: CredId): (r: Option<Credential>)
    ensures r.Some? <==> id in OwnedSet(st, uid)
    ensures r.Some? ==> id in st.creds && r.value == st.creds[id] && r.value.owner == uid
  {
    if id in st.creds && st.creds[id].owner == uid then Some(st.creds[id]) else None
  }

  /**
   The invariant every reachable state keeps: ids below the counter, regions
   from the allow-list (checked on every write) and owners that are users.
   */
  predicate Valid(env: Env, st: State)
  {
    && (forall id | id in st.creds :: id < st.nextId)
    && (forall id | id in st.creds :: st.creds[id].region in env.validRegions)
    && (forall id | id in st.creds :: st.creds[id].owner in st.users)
  }
}
