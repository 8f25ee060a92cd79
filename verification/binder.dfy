/**
 The subscription binder: points the caller's subscription at one of the
 caller's credentials.
 */
module SubscriptionBinder {
  import opened Vault

  /**
   Binds `cid` as the caller's current credential and answers with the new
   value. A credential the caller does not own is not-found and leaves the
   subscription alone; a caller without a subscription row cannot be bound.
   */
  function SetCurrent(st: State, uid: UserId, cid: CredId): (o: Outcome<CredId>)
    ensures o.calls == []
    ensures o.post.users == st.users && o.post.creds == st.creds
    ensures o.post.nextId == st.nextId && o.post.cache == st.cache
    ensures uid !in st.users ==> o.result == Err(UserNotFound)
    ensures uid in st.users && cid !in OwnedSet(st, uid) ==> o.result == Err(NotFound)
    ensures o.result.Ok? <==> uid in st.users && cid in OwnedSet(st, uid) && uid in st.subs
    ensures o.result.Err? ==> o.post == st
    ensures o.result.Ok? ==>
              && o.result.value == cid
              && o.post.subs.Keys == st.subs.Keys
              && o.post.subs[uid].currentCredential == Some(cid)
              && (forall u | u in st.subs && u != uid :: o.post.subs[u] == st.subs[u])
    ensures forall env :: Valid(env, st) ==> Valid(env, o.post)
  {
    if uid !in st.users then Outcome(Err(UserNotFound), st, [])
    else if Lookup(st, uid, cid).None? then Outcome(Err(NotFound), st, [])
    else if uid !in st.subs then Outcome(Err(MissingSubscription), st, [])
    else
      var post := st.(subs := st.subs[uid := st.subs[uid].(currentCredential := Some(cid))]);
      Outcome(Ok(cid), post, [])
  }
}
