/**
 Two defects of the handlers, modelled as written next to the corrected
 definitions the rest of the model uses (`Vault.Lookup`,
 `SubscriptionBinder.SetCurrent`).

 1. The per-id lookups build their filter as `id == x and owner == y` with the
    host language's `and`. The left comparison is a query expression whose
    truth value is false, so the `and` yields that expression alone and the
    filter matches on the id only: any user reaches any credential by id.
 2. The binder runs the ownership lookup, throws its result away and binds
    the subscription anyway.
 */
module Findings {
  import opened Vault
  import opened SubscriptionBinder

  /** The per-id lookup as written: the owner clause is lost. */
  function LookupAsWritten(st: State, id: CredId): (r: Option<Credential>)
    ensures r.Some? <==> id in st.creds
    ensures r.Some? ==> r.value == st.creds[id]
  {
    if id in st.creds then Some(st.creds[id]) else None
  }

  /**
   The two lookups agree on the caller's own credentials and differ exactly
   on credentials that exist and belong to somebody else.
   */
  lemma LookupAsWrittenIgnoresOwner(st: State, uid: UserId, id: CredId)
    ensures Lookup(st, uid, id).Some? ==> LookupAsWritten(st, id) == Lookup(st, uid, id)
    ensures (LookupAsWritten(st, id).Some? && Lookup(st, uid, id).None?)
              <==> (id in st.creds && st.creds[id].owner != uid)
  {
  }

  /** Alice owns credential 0; Bob is another user. */
  function TwoUsers(): (st: State)
    ensures Owns(st, "alice", 0) && "bob" in st.users && "bob" in st.subs
  {
    State(
      {"alice", "bob"},
      map[0 := Credential("alice", "ciphertext", "eastus", None, false)],
      1,
      map[],
      map["alice" := Subscription(None), "bob" := Subscription(None)])
  }

  /** Counterexample: Bob's as-written lookup of id 0 returns Alice's credential. */
  lemma AsWrittenLookupLeaksForeignCredential()
    ensures LookupAsWritten(TwoUsers(), 0).Some?
    ensures LookupAsWritten(TwoUsers(), 0).value.owner == "alice"
    ensures Lookup(TwoUsers(), "bob", 0).None?
  {
  }

  /** The binder as written: the ownership lookup has no effect. */
  function SetCurrentAsWritten(st: State, uid: UserId, cid: CredId): (o: Outcome<CredId>)
    ensures o.calls == [] && o.post.creds == st.creds
    ensures o.result.Ok? <==> uid in st.users && uid in st.subs
    ensures o.result.Ok? ==>
              o.result.value == cid && uid in o.post.subs && o.post.subs[uid].currentCredential == Some(cid)
    ensures o.result.Err? ==> o.post == st
  {
    if uid !in st.users then Outcome(Err(UserNotFound), st, [])
    else if uid !in st.subs then Outcome(Err(MissingSubscription), st, [])
    else
      var post := st.(subs := st.subs[uid := st.subs[uid].(currentCredential := Some(cid))]);
      Outcome(Ok(cid), post, [])
  }

  /**
   Counterexample: Bob binds Alice's credential as written; the corrected
   binder refuses with not-found and leaves Bob's subscription unchanged.
   */
  lemma AsWrittenBindsForeignCredential()
    ensures SetCurrentAsWritten(TwoUsers(), "bob", 0).result == Ok(0)
    ensures SetCurrentAsWritten(TwoUsers(), "bob", 0).post.subs["bob"].currentCredential == Some(0)
    ensures SetCurrent(TwoUsers(), "bob", 0).result == Err(NotFound)
    ensures SetCurrent(TwoUsers(), "bob", 0).post == TwoUsers()
  {
  }

  /** The corrected binder only ever points a subscription at the caller's own credential. */
  lemma SetCurrentBindsOwnedOnly(st: State, uid: UserId, cid: CredId)
    requires SetCurrent(st, uid, cid).result.Ok?
    ensures Owns(st, uid, cid)
    ensures SetCurrent(st, uid, cid).post.subs[uid].currentCredential == Some(cid)
  {
  }
}
