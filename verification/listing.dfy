/**
 The masked view of a user's credentials that List, Update and Delete
 answer with: one entry per owned credential, in id order, the key shown
 only through the masker.
 */
module Listing {
  import opened Vault

  /** One element of a credentials listing; `maskedKey` is never the raw key. */
  datatype Entry = Entry(
    id: CredId,
    region: string,
    maskedKey: string,
    voices: Option<VoiceList>,
    shared: bool)

  /** What a listing shows of a stored key: the mask of its decryption. */
  function MaskedKey(env: Env, c: Credential): string
  {
    env.mask(env.decrypt(c.encKey))
  }

  /** The listing entry of credential `id`. */
  function View(env: Env, id: CredId, c: Credential): Entry
  {
    Entry(id, c.region, MaskedKey(env, c), c.voices, c.shared)
  }

  /**
   The ids below `n` that `uid` owns, in increasing order: the rows the
   query on the owner column returns.
   */
  function OwnedBelow(creds: map<CredId, Credential>, uid: UserId, n: nat): (ids: seq<CredId>)
    ensures forall i, j :: 0 <= i < j < |ids| ==> ids[i] < ids[j]
    ensures forall id :: id in ids <==> id < n && id in creds && creds[id].owner == uid
    decreases n
  {
    if n == 0 then []
    else
      var prefix := OwnedBelow(creds, uid, n - 1);
      forall k | 0 <= k < |prefix| ensures prefix[k] < n - 1 {
        assert prefix[k] in prefix;
      }
      if n - 1 in creds && creds[n - 1].owner == uid then prefix + [n - 1] else prefix
  }

  /** The listing of `uid`'s credentials in state `st`. */
  function Entries(env: Env, st: State, uid: UserId): (es: seq<Entry>)
    ensures forall i, j :: 0 <= i < j < |es| ==> es[i].id < es[j].id
    ensures forall i :: 0 <= i < |es| ==>
              es[i].id in OwnedSet(st, uid) && es[i] == View(env, es[i].id, st.creds[es[i].id])
    ensures forall id :: id in OwnedSet(st, uid) && id < st.nextId ==>
              exists i :: 0 <= i < |es| && es[i].id == id
  {
    var ids := OwnedBelow(st.creds, uid, st.nextId);
    var es := seq(|ids|, i requires 0 <= i < |ids| => View(env, ids[i], st.creds[ids[i]]));
    assert forall id :: id in OwnedSet(st, uid) && id < st.nextId ==> id in ids;
    forall id | id in ids ensures exists i :: 0 <= i < |es| && es[i].id == id {
      var i :| 0 <= i < |ids| && ids[i] == id;
      assert es[i].id == id;
    }
    es
  }

  /** The ids a listing shows. */
  function IdsOf(es: seq<Entry>): set<CredId>
  {
    set i | 0 <= i < |es| :: es[i].id
  }

  /**
   In a valid state the listing shows exactly the credentials the caller
   owns, each once, with its key masked.
   */
  lemma EntriesExact(env: Env, st: State, uid: UserId)
    requires Valid(env, st)
    ensures IdsOf(Entries(env, st, uid)) == OwnedSet(st, uid)
    ensures |Entries(env, st, uid)| == |OwnedSet(st, uid)|
    ensures Entries(env, st, uid) == [] <==> OwnedSet(st, uid) == {}
  {
    var es := Entries(env, st, uid);
    assert IdsOf(es) == OwnedSet(st, uid) by {
      forall id | id in OwnedSet(st, uid) ensures id in IdsOf(es) {
        var i :| 0 <= i < |es| && es[i].id == id;
      }
    }
    DistinctIdsCount(es);
  }

  /** A listing with increasing ids has as many entries as distinct ids. */
  lemma {:induction false} DistinctIdsCount(es: seq<Entry>)
    requires forall i, j :: 0 <= i < j < |es| ==> es[i].id < es[j].id
    ensures |IdsOf(es)| == |es|
  {
    if es != [] {
      var last := es[|es| - 1];
      var init := es[..|es| - 1];
      DistinctIdsCount(init);
      assert IdsOf(es) == IdsOf(init) + {last.id};
      assert last.id !in IdsOf(init);
    }
  }
}
