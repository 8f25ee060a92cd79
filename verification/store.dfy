/**
 The credential store: the create / list / get / update / delete handlers and
 the voices lookup, each a pure transition from a state to an outcome. A
 failed handler leaves the state as it found it (nothing is committed).
 */
module CredentialStore {
  import opened Vault
  import opened Listing

  const CreatedMessage: string := "Credentials created successfully"

  /** What Get answers: the key, raw or masked, and the region. */
  datatype KeyView = KeyView(azureKey: string, region: string)

  /** A partial update: every field left `None` is not touched. */
  datatype Patch = Patch(
    key: Option<string>,
    region: Option<string>,
    voices: Option<VoiceList>,
    shared: Option<bool>)

  /**
   The update asks the provider again only when both the region and the key
   are given and non-empty (the handler tests their truthiness).
   */
  predicate Revalidates(p: Patch)
  {
    p.region.Some? && p.region.value != "" && p.key.Some? && p.key.value != ""
  }

  /** The credential with the fields the patch names overwritten. */
  function Patched(env: Env, c: Credential, p: Patch): Credential
  {
    Credential(
      c.owner,
      if p.key.Some? then env.encrypt(p.key.value) else c.encKey,
      if p.region.Some? then p.region.value else c.region,
      if p.voices.Some? then p.voices else c.voices,
      if p.shared.Some? then p.shared.value else c.shared)
  }

  /**
   Registers a new credential for `uid`. The provider is asked about the key
   first, whatever the region; the region allow-list is checked after it, and
   either failure is the same client error. A new credential gets the next
   id, the encrypted key, no voices and is not shared.
   */
  function Create(env: Env, st: State, uid: UserId, region: string, rawKey: string): (o: Outcome<string>)
    ensures uid !in st.users ==> o.result == Err(UserNotFound) && o.calls == []
    ensures uid in st.users ==> o.calls == [ValidateKey(region, rawKey)]
    ensures o.result.Ok? <==> uid in st.users && env.keyOk(region, rawKey) && region in env.validRegions
    ensures uid in st.users && o.result.Err? ==> o.result.error == Unprocessable
    ensures o.result.Err? ==> o.post == st
    ensures o.result.Ok? ==> o.result.value == CreatedMessage
    ensures o.result.Ok? ==>
              && o.post.creds.Keys == st.creds.Keys + {st.nextId}
              && o.post.creds[st.nextId].owner == uid
              && o.post.creds[st.nextId].encKey == env.encrypt(rawKey)
              && o.post.creds[st.nextId].region == region
              && o.post.creds[st.nextId].region in env.validRegions
              && (forall id | id in st.creds && id != st.nextId :: o.post.creds[id] == st.creds[id])
              && o.post.nextId > st.nextId
              && o.post.users == st.users && o.post.cache == st.cache && o.post.subs == st.subs
    ensures Valid(env, st) ==> Valid(env, o.post)
  {
    if uid !in st.users then Outcome(Err(UserNotFound), st, [])
    else
      var calls := [ValidateKey(region, rawKey)];
      if !env.keyOk(region, rawKey) then Outcome(Err(Unprocessable), st, calls)
      else if region !in env.validRegions then Outcome(Err(Unprocessable), st, calls)
      else
        var c := Credential(uid, env.encrypt(rawKey), region, None, false);
        var post := st.(creds := st.creds[st.nextId := c], nextId := st.nextId + 1);
        Outcome(Ok(CreatedMessage), post, calls)
  }

  /** Every credential of the caller, masked; not-found when there is none. */
  function List(env: Env, st: State, uid: UserId): (o: Outcome<seq<Entry>>)
    ensures o.post == st && o.calls == []
    ensures uid !in st.users ==> o.result == Err(UserNotFound)
    ensures uid in st.users && o.result.Err? ==> o.result.error == NotFound
    ensures o.result.Ok? ==> o.result.value != [] && o.result.value == Entries(env, st, uid)
    ensures o.result.Ok? ==> forall i :: 0 <= i < |o.result.value| ==>
              var e := o.result.value[i];
              e.id in OwnedSet(st, uid) && e.maskedKey == MaskedKey(env, st.creds[e.id])
  {
    if uid !in st.users then Outcome(Err(UserNotFound), st, [])
    else
      var es := Entries(env, st, uid);
      if es == [] then Outcome(Err(NotFound), st, []) else Outcome(Ok(es), st, [])
  }

  /**
   One credential of the caller: the raw key when `revealKey` is set, otherwise
   the masked key. A missing id and another user's id are both not-found.
   */
  function Get(env: Env, st: State, uid: UserId, id: CredId, revealKey: bool): (o: Outcome<KeyView>)
    ensures o.post == st && o.calls == []
    ensures uid !in st.users ==> o.result == Err(UserNotFound)
    ensures uid in st.users ==> (o.result.Ok? <==> id in OwnedSet(st, uid))
    ensures uid in st.users && o.result.Err? ==> o.result.error == NotFound
    ensures o.result.Ok? ==> o.result.value.region == st.creds[id].region
    ensures o.result.Ok? && revealKey ==> o.result.value.azureKey == env.decrypt(st.creds[id].encKey)
    ensures o.result.Ok? && !revealKey ==> o.result.value.azureKey == MaskedKey(env, st.creds[id])
  {
    if uid !in st.users then Outcome(Err(UserNotFound), st, [])
    else
      match Lookup(st, uid, id)
      case None => Outcome(Err(NotFound), st, [])
      case Some(c) =>
        var raw := env.decrypt(c.encKey);
        Outcome(Ok(KeyView(if revealKey then raw else env.mask(raw), c.region)), st, [])
  }

  /**
   Applies a partial update to one credential of the caller and answers with
   the caller's listing. The provider check (when it applies) comes before the
   ownership lookup, the allow-list check after it; any failure commits
   nothing. A missing or foreign credential is not-found, except that a patch
   with no key and a disallowed region fails the allow-list check first.
   */
  function Update(env: Env, st: State, uid: UserId, id: CredId, p: Patch): (o: Outcome<seq<Entry>>)
    ensures uid !in st.users ==> o.result == Err(UserNotFound) && o.calls == []
    ensures uid in st.users ==>
              o.calls == (if Revalidates(p) then [ValidateKey(p.region.value, p.key.value)] else [])
    ensures o.result.Ok? <==>
              && uid in st.users
              && (Revalidates(p) ==> env.keyOk(p.region.value, p.key.value))
              && id in OwnedSet(st, uid)
              && (p.region.Some? ==> p.region.value in env.validRegions)
    ensures uid in st.users && Revalidates(p) && !env.keyOk(p.region.value, p.key.value) ==>
              o.result == Err(Unprocessable)
    ensures (uid in st.users && (Revalidates(p) ==> env.keyOk(p.region.value, p.key.value))
              && id !in OwnedSet(st, uid)
              && (p.key.Some? || p.region.None? || p.region.value in env.validRegions)) ==>
              o.result == Err(NotFound)
    ensures (uid in st.users && id !in OwnedSet(st, uid)
              && p.key.None? && p.region.Some? && p.region.value !in env.validRegions) ==>
              o.result == Err(Unprocessable)
    ensures (uid in st.users && id in OwnedSet(st, uid)
              && p.region.Some? && p.region.value !in env.validRegions) ==> o.result == Err(Unprocessable)
    ensures o.result.Err? ==> o.post == st
    ensures o.result.Ok? ==>
              && o.post.creds.Keys == st.creds.Keys
              && (forall k | k in st.creds && k != id :: o.post.creds[k] == st.creds[k])
              && o.post.users == st.users && o.post.nextId == st.nextId
              && o.post.cache == st.cache && o.post.subs == st.subs
    ensures o.result.Ok? ==>
              var before := st.creds[id];
              var after := o.post.creds[id];
              after.owner == before.owner
              && (p.key.None? ==> after.encKey == before.encKey)
              && (p.key.Some? ==> after.encKey == env.encrypt(p.key.value))
              && (p.region.None? ==> after.region == before.region)
              && (p.region.Some? ==> after.region == p.region.value)
              && (p.voices.None? ==> after.voices == before.voices)
              && (p.voices.Some? ==> after.voices == p.voices)
              && (p.shared.None? ==> after.shared == before.shared)
              && (p.shared.Some? ==> after.shared == p.shared.value)
    ensures o.result.Ok? ==> o.result.value == Entries(env, o.post, uid)
    ensures Valid(env, st) ==> Valid(env, o.post)
  {
    if uid !in st.users then Outcome(Err(UserNotFound), st, [])
    else
      var calls := if Revalidates(p) then [ValidateKey(p.region.value, p.key.value)] else [];
      if Revalidates(p) && !env.keyOk(p.region.value, p.key.value) then
        Outcome(Err(Unprocessable), st, calls)
      else
        match Lookup(st, uid, id)
        case None =>
          // Without a key, the allow-list check is reached before the missing
          // credential is first dereferenced.
          if p.key.None? && p.region.Some? && p.region.value !in env.validRegions then
            Outcome(Err(Unprocessable), st, calls)
          else
            Outcome(Err(NotFound), st, calls)
        case Some(c) =>
          if p.region.Some? && p.region.value !in env.validRegions then
            Outcome(Err(Unprocessable), st, calls)
          else
            var post := st.(creds := st.creds[id := Patched(env, c, p)]);
            Outcome(Ok(Entries(env, post, uid)), post, calls)
  }

  /**
   Deletes one credential of the caller and answers with what remains. The
   handler's own not-found is raised inside its error wrapper, so a missing or
   foreign id comes back as the wrapper's client error.
   */
  function Delete(env: Env, st: State, uid: UserId, id: CredId): (o: Outcome<seq<Entry>>)
    ensures o.calls == []
    ensures uid !in st.users ==> o.result == Err(UserNotFound)
    ensures uid in st.users ==> (o.result.Ok? <==> id in OwnedSet(st, uid))
    ensures uid in st.users && o.result.Err? ==> o.result.error == Unprocessable
    ensures o.result.Err? ==> o.post == st
    ensures o.result.Ok? ==>
              && o.post.creds.Keys == st.creds.Keys - {id}
              && (forall k | k in o.post.creds :: o.post.creds[k] == st.creds[k])
              && o.post.users == st.users && o.post.nextId == st.nextId
              && o.post.cache == st.cache && o.post.subs == st.subs
    ensures o.result.Ok? ==> o.result.value == Entries(env, o.post, uid)
    ensures o.result.Ok? ==> forall i :: 0 <= i < |o.result.value| ==> o.result.value[i].id != id
    ensures Valid(env, st) ==> Valid(env, o.post)
  {
    if uid !in st.users then Outcome(Err(UserNotFound), st, [])
    else if Lookup(st, uid, id).None? then Outcome(Err(Unprocessable), st, [])
    else
      var post := st.(creds := st.creds - {id});
      Outcome(Ok(Entries(env, post, uid)), post, [])
  }

  /**
   The voices available to one credential of the caller. The cache slot is
   the region's; on a hit the cached list is returned and nothing is fetched,
   on a miss the list is fetched with the decrypted key and stored in the slot.
   */
  function Voices(env: Env, st: State, uid: UserId, id: CredId): (o: Outcome<VoiceList>)
    ensures o.post.users == st.users && o.post.creds == st.creds
    ensures o.post.nextId == st.nextId && o.post.subs == st.subs
    ensures uid !in st.users ==> o.result == Err(UserNotFound) && o.calls == []
    ensures uid in st.users ==> (o.result.Ok? <==> id in OwnedSet(st, uid))
    ensures uid in st.users && o.result.Err? ==> o.result.error == NotFound && o.calls == []
    ensures o.result.Err? ==> o.post == st
    ensures o.result.Ok? ==>
              var k := CacheKey(st.creds[id].region);
              k in o.post.cache && o.post.cache[k] == o.result.value
    ensures o.result.Ok? && CacheKey(st.creds[id].region) in st.cache ==>
              && o.post == st && o.calls == []
              && o.result.value == st.cache[CacheKey(st.creds[id].region)]
    ensures o.result.Ok? && CacheKey(st.creds[id].region) !in st.cache ==>
              var c := st.creds[id];
              o.calls == [FetchVoices(c.region, env.decrypt(c.encKey))]
              && o.result.value == env.fetchVoices(c.region, env.decrypt(c.encKey))
              && o.post.cache.Keys == st.cache.Keys + {CacheKey(c.region)}
              && (forall k | k in st.cache :: o.post.cache[k] == st.cache[k])
    ensures Valid(env, st) ==> Valid(env, o.post)
  {
    if uid !in st.users then Outcome(Err(UserNotFound), st, [])
    else
      match Lookup(st, uid, id)
      case None => Outcome(Err(NotFound), st, [])
      case Some(c) =>
        var raw := env.decrypt(c.encKey);
        var k := CacheKey(c.region);
        if k in st.cache then Outcome(Ok(st.cache[k]), st, [])
        else
          var fetched := env.fetchVoices(c.region, raw);
          Outcome(Ok(fetched), st.(cache := st.cache[k := fetched]), [FetchVoices(c.region, raw)])
  }
}
