/**
 Properties that relate several handler calls: round trips through the
 cipher, listings against the owned-set reference, idempotence of updates,
 cache coherence between credentials of one region, and the isolation of one
 user's credentials from every other user's requests.
 */
module Properties {
  import opened Vault
  import opened Listing
  import opened CredentialStore
  import opened SubscriptionBinder

  /** A created key comes back raw from a revealing Get, masked otherwise. */
  lemma CreateThenGetRoundTrip(env: Env, st: State, uid: UserId, region: string, rawKey: string)
    requires CipherRoundTrips(env)
    requires Create(env, st, uid, region, rawKey).result.Ok?
    ensures Get(env, Create(env, st, uid, region, rawKey).post, uid, st.nextId, true).result
              == Ok(KeyView(rawKey, region))
    ensures Get(env, Create(env, st, uid, region, rawKey).post, uid, st.nextId, false).result
              == Ok(KeyView(env.mask(rawKey), region))
  {
    var post := Create(env, st, uid, region, rawKey).post;
    assert env.decrypt(post.creds[st.nextId].encKey) == rawKey;
  }

  /**
   In a valid state a successful Create adds exactly one credential, to the
   caller's set only.
   */
  lemma CreateAddsExactlyOne(env: Env, st: State, uid: UserId, region: string, rawKey: string)
    requires Valid(env, st)
    requires Create(env, st, uid, region, rawKey).result.Ok?
    ensures st.nextId !in st.creds
    ensures OwnedSet(Create(env, st, uid, region, rawKey).post, uid) == OwnedSet(st, uid) + {st.nextId}
    ensures forall u | u != uid :: OwnedSet(Create(env, st, uid, region, rawKey).post, u) == OwnedSet(st, u)
    ensures |Create(env, st, uid, region, rawKey).post.creds| == |st.creds| + 1
  {
    var post := Create(env, st, uid, region, rawKey).post;
    assert st.nextId !in st.creds;
    OwnedSetAfterInsert(st, post, st.nextId);
    assert post.creds.Keys == st.creds.Keys + {st.nextId};
    assert |post.creds.Keys| == |st.creds.Keys| + 1;
  }

  /** Inserting one fresh credential adds its id to its owner's set and to nobody else's. */
  lemma OwnedSetAfterInsert(st: State, post: State, id: CredId)
    requires id !in st.creds
    requires post.creds.Keys == st.creds.Keys + {id}
    requires forall k | k in st.creds :: post.creds[k] == st.creds[k]
    ensures OwnedSet(post, post.creds[id].owner) == OwnedSet(st, post.creds[id].owner) + {id}
    ensures forall u | u != post.creds[id].owner :: OwnedSet(post, u) == OwnedSet(st, u)
  {
    forall u
      ensures OwnedSet(post, u) == OwnedSet(st, u) + (if u == post.creds[id].owner then {id} else {})
    {
      forall k | k in OwnedSet(post, u)
        ensures k in OwnedSet(st, u) + (if u == post.creds[id].owner then {id} else {})
      {
        if k != id {
          assert k in st.creds;
        }
      }
    }
  }

  /** Deleting what was just created gives back the credentials as they were. */
  lemma CreateThenDeleteRestores(env: Env, st: State, uid: UserId, region: string, rawKey: string)
    requires Valid(env, st)
    requires Create(env, st, uid, region, rawKey).result.Ok?
    ensures Delete(env, Create(env, st, uid, region, rawKey).post, uid, st.nextId).result.Ok?
    ensures Delete(env, Create(env, st, uid, region, rawKey).post, uid, st.nextId).post.creds == st.creds
  {
    var post := Create(env, st, uid, region, rawKey).post;
    var post2 := Delete(env, post, uid, st.nextId).post;
    assert post2.creds.Keys == st.creds.Keys;
  }

  /**
   List shows exactly the caller's credentials, one entry each, and is
   not-found precisely when the caller owns none.
   */
  lemma ListExact(env: Env, st: State, uid: UserId)
    requires Valid(env, st)
    requires uid in st.users
    ensures List(env, st, uid).result.Ok? <==> OwnedSet(st, uid) != {}
    ensures List(env, st, uid).result.Ok? ==>
              && IdsOf(List(env, st, uid).result.value) == OwnedSet(st, uid)
              && |List(env, st, uid).result.value| == |OwnedSet(st, uid)|
  {
    EntriesExact(env, st, uid);
  }

  /** Update answers with what List would answer right after it. */
  lemma UpdateAnswersLikeList(env: Env, st: State, uid: UserId, id: CredId, p: Patch)
    requires Valid(env, st)
    requires Update(env, st, uid, id, p).result.Ok?
    ensures List(env, Update(env, st, uid, id, p).post, uid).result == Update(env, st, uid, id, p).result
  {
    var o := Update(env, st, uid, id, p);
    EntriesExact(env, o.post, uid);
    assert id in OwnedSet(o.post, uid);
  }

  /** An update that names no field changes nothing. */
  lemma EmptyPatchChangesNothing(env: Env, st: State, uid: UserId, id: CredId)
    requires Update(env, st, uid, id, Patch(None, None, None, None)).result.Ok?
    ensures Update(env, st, uid, id, Patch(None, None, None, None)).post == st
  {
    var o := Update(env, st, uid, id, Patch(None, None, None, None));
    assert o.post.creds == st.creds;
  }

  /** Applying the same patch twice is the same as applying it once. */
  lemma UpdateIdempotent(env: Env, st: State, uid: UserId, id: CredId, p: Patch)
    requires Update(env, st, uid, id, p).result.Ok?
    ensures Update(env, Update(env, st, uid, id, p).post, uid, id, p).result.Ok?
    ensures Update(env, Update(env, st, uid, id, p).post, uid, id, p).post
              == Update(env, st, uid, id, p).post
  {
    var post := Update(env, st, uid, id, p).post;
    var post2 := Update(env, post, uid, id, p).post;
    assert post2.creds == post.creds;
  }

  /** After Delete the listing shows the caller's other credentials and not the deleted one. */
  lemma DeleteLeavesTheRest(env: Env, st: State, uid: UserId, id: CredId)
    requires Valid(env, st)
    requires Delete(env, st, uid, id).result.Ok?
    ensures IdsOf(Delete(env, st, uid, id).result.value) == OwnedSet(st, uid) - {id}
    ensures Get(env, Delete(env, st, uid, id).post, uid, id, false).result == Err(NotFound)
  {
    var o := Delete(env, st, uid, id);
    EntriesExact(env, o.post, uid);
    assert OwnedSet(o.post, uid) == OwnedSet(st, uid) - {id};
  }

  /**
   Cache coherence: once Voices has answered for one credential, every
   credential of the same region, whoever owns it, is served from the cache
   with the same list, no provider call and no state change.
   */
  lemma VoicesMissThenHit(env: Env, st: State, uid: UserId, id: CredId, other: UserId, id2: CredId)
    requires Voices(env, st, uid, id).result.Ok?
    requires other in st.users && Owns(st, other, id2)
    requires st.creds[id2].region == st.creds[id].region
    ensures Voices(env, Voices(env, st, uid, id).post, other, id2).calls == []
    ensures Voices(env, Voices(env, st, uid, id).post, other, id2).post == Voices(env, st, uid, id).post
    ensures Voices(env, Voices(env, st, uid, id).post, other, id2).result == Voices(env, st, uid, id).result
  {
    var o1 := Voices(env, st, uid, id);
    assert id2 in OwnedSet(o1.post, other);
  }

  /**
   Ownership: every per-id handler called by a user who does not own the
   credential fails and changes nothing.
   */
  lemma ForeignIdChangesNothing(env: Env, st: State, owner: UserId, intruder: UserId, id: CredId,
                                revealKey: bool, p: Patch)
    requires Owns(st, owner, id) && intruder != owner && intruder in st.users
    ensures Get(env, st, intruder, id, revealKey).result == Err(NotFound)
    ensures Voices(env, st, intruder, id).result == Err(NotFound)
    ensures Voices(env, st, intruder, id).post == st
    ensures SetCurrent(st, intruder, id).result == Err(NotFound)
    ensures SetCurrent(st, intruder, id).post == st
    ensures Delete(env, st, intruder, id).result.Err?
    ensures Delete(env, st, intruder, id).post == st
    ensures Update(env, st, intruder, id, p).result.Err?
    ensures Update(env, st, intruder, id, p).post == st
  {
    assert id !in OwnedSet(st, intruder);
  }

  /** One request to any of the seven handlers. */
  datatype Request =
    | CreateReq(uid: UserId, region: string, rawKey: string)
    | ListReq(uid: UserId)
    | GetReq(uid: UserId, id: CredId, revealKey: bool)
    | UpdateReq(uid: UserId, id: CredId, patch: Patch)
    | DeleteReq(uid: UserId, id: CredId)
    | VoicesReq(uid: UserId, id: CredId)
    | SetCurrentReq(uid: UserId, id: CredId)

  /** The state after serving one request. */
  function Step(env: Env, st: State, r: Request): State
  {
    match r
    case CreateReq(u, region, key) => Create(env, st, u, region, key).post
    case ListReq(u) => List(env, st, u).post
    case GetReq(u, id, show) => Get(env, st, u, id, show).post
    case UpdateReq(u, id, p) => Update(env, st, u, id, p).post
    case DeleteReq(u, id) => Delete(env, st, u, id).post
    case VoicesReq(u, id) => Voices(env, st, u, id).post
    case SetCurrentReq(u, id) => SetCurrent(st, u, id).post
  }

  /** The state after serving the requests in order. */
  function Run(env: Env, st: State, rs: seq<Request>): State
    decreases |rs|
  {
    if rs == [] then st else Run(env, Step(env, st, rs[0]), rs[1..])
  }

  /** Every handler keeps the state invariant. */
  lemma StepPreservesValid(env: Env, st: State, r: Request)
    requires Valid(env, st)
    ensures Valid(env, Step(env, st, r))
  {
  }

  /** Any sequence of requests keeps the state invariant; in particular every stored region stays allowed. */
  lemma {:induction false} RunPreservesValid(env: Env, st: State, rs: seq<Request>)
    requires Valid(env, st)
    ensures Valid(env, Run(env, st, rs))
    ensures forall id | id in Run(env, st, rs).creds :: Run(env, st, rs).creds[id].region in env.validRegions
    decreases |rs|
  {
    if rs != [] {
      StepPreservesValid(env, st, rs[0]);
      RunPreservesValid(env, Step(env, st, rs[0]), rs[1..]);
    }
  }

  /** What another user's request cannot touch: a's credentials, a's set of ids and a's subscription. */
  ghost predicate KeepsUser(st: State, st': State, a: UserId)
  {
    && OwnedSet(st', a) == OwnedSet(st, a)
    && (forall id | id in OwnedSet(st, a) :: id in st'.creds && st'.creds[id] == st.creds[id])
    && (a in st.subs ==> a in st'.subs && st'.subs[a] == st.subs[a])
  }

  /** One request by somebody other than `a` keeps `a`'s part of the state. */
  lemma StepByOtherKeepsUser(env: Env, st: State, r: Request, a: UserId)
    requires Valid(env, st)
    requires r.uid != a
    ensures KeepsUser(st, Step(env, st, r), a)
  {
    match r
    case CreateReq(u, region, key) => CreateByOtherKeepsUser(env, st, u, region, key, a);
    case DeleteReq(u, id) => DeleteByOtherKeepsUser(env, st, u, id, a);
    case UpdateReq(u, id, p) => UpdateByOtherKeepsUser(env, st, u, id, p, a);
    case _ =>
  }

  /** Another user's Create only adds a fresh id, owned by that user. */
  lemma CreateByOtherKeepsUser(env: Env, st: State, u: UserId, region: string, key: string, a: UserId)
    requires Valid(env, st) && u != a
    ensures KeepsUser(st, Create(env, st, u, region, key).post, a)
  {
    var o := Create(env, st, u, region, key);
    if o.result.Ok? {
      assert st.nextId !in st.creds;
      assert OwnedSet(o.post, a) == OwnedSet(st, a);
    }
  }

  /** Another user's Delete can only remove that user's own credential. */
  lemma DeleteByOtherKeepsUser(env: Env, st: State, u: UserId, id: CredId, a: UserId)
    requires u != a
    ensures KeepsUser(st, Delete(env, st, u, id).post, a)
  {
    var o := Delete(env, st, u, id);
    if o.result.Ok? {
      assert OwnedSet(o.post, a) == OwnedSet(st, a);
    }
  }

  /** Another user's Update can only rewrite that user's own credential, and never its owner. */
  lemma UpdateByOtherKeepsUser(env: Env, st: State, u: UserId, id: CredId, p: Patch, a: UserId)
    requires u != a
    ensures KeepsUser(st, Update(env, st, u, id, p).post, a)
  {
    var o := Update(env, st, u, id, p);
    if o.result.Ok? {
      assert OwnedSet(o.post, a) == OwnedSet(st, a);
    }
  }

  /**
   Isolation: no sequence of requests issued by other users adds, removes or
   alters a user's credentials or rebinds that user's subscription.
   */
  lemma {:induction false} RunByOthersKeepsUser(env: Env, st: State, rs: seq<Request>, a: UserId)
    requires Valid(env, st)
    requires forall i | 0 <= i < |rs| :: rs[i].uid != a
    ensures KeepsUser(st, Run(env, st, rs), a)
    decreases |rs|
  {
    if rs != [] {
      var st1 := Step(env, st, rs[0]);
      StepByOtherKeepsUser(env, st, rs[0], a);
      StepPreservesValid(env, st, rs[0]);
      RunByOthersKeepsUser(env, st1, rs[1..], a);
    }
  }
}
