/**
 * What the store promises across calls: the prefix scan is exact on a sessions tree of
 * session keys, and each pair of write and read operations round-trips. The round trips
 * are client methods that run the operations on a store, as a caller would, and state
 * what the caller observes.
 */
module StoreProperties {
  import opened Wrappers
  import opened Encoding
  import opened Keys
  import opened SledStore

  /* ---------- the prefix scan ---------- */

  /** Every stored session of a device of `name` is reported by the scan for `name`. */
  lemma StoredSessionIsScanned(keys: set<string>, a: ProtocolAddress)
    requires SessionKey(a) in keys
    ensures a.deviceId in SubDevices(keys, a.name)
  {
    DeviceSuffixOfSessionKey(a.name, a);
  }

  /** Every reported id comes from a scanned key whose remainder parses to that id. */
  lemma ScannedIdHasKey(keys: set<string>, name: string, d: u32)
    requires d in SubDevices(keys, name)
    ensures exists k :: k in keys && SessionPrefix(name) <= k && ParseU32(k[|SessionPrefix(name)|..]) == Some(d)
  {
    var k :| k in keys && DeviceSuffix(name, k) == Some(d);
    assert SessionPrefix(name) <= k;
  }

  /**
   * On a sessions tree of session keys, the scan for `name` reports exactly the devices of
   * `name` that have a session, however the names of other peers begin.
   */
  lemma SubDevicesExact(sessions: map<string, Bytes>, name: string)
    requires SessionsWellFormed(sessions)
    ensures forall d: u32 :: d in SubDevices(sessions.Keys, name) <==> SessionKey(ProtocolAddress(name, d)) in sessions
  {
    forall d: u32
      ensures d in SubDevices(sessions.Keys, name) <==> SessionKey(ProtocolAddress(name, d)) in sessions
    {
      if d in SubDevices(sessions.Keys, name) {
        var k :| k in sessions && DeviceSuffix(name, k) == Some(d);
        assert IsSessionKey(k);
        var a :| SessionKey(a) == k;
        DeviceSuffixOfSessionKey(name, a);
        assert a == ProtocolAddress(name, d);
      }
      if SessionKey(ProtocolAddress(name, d)) in sessions {
        StoredSessionIsScanned(sessions.Keys, ProtocolAddress(name, d));
      }
    }
  }

  /** On a sessions tree of session keys, a device id of `name` comes from one key at most: its own. */
  lemma OneKeyPerId(sessions: map<string, Bytes>, name: string, d: u32)
    requires SessionsWellFormed(sessions)
    ensures KeysWithId(sessions.Keys, name, d) <= {SessionKey(ProtocolAddress(name, d))}
    ensures |KeysWithId(sessions.Keys, name, d)| <= 1
  {
    var own := SessionKey(ProtocolAddress(name, d));
    forall k | k in KeysWithId(sessions.Keys, name, d)
      ensures k == own
    {
      assert IsSessionKey(k);
      var a :| SessionKey(a) == k;
      DeviceSuffixOfSessionKey(name, a);
    }
    WithinSingleton(KeysWithId(sessions.Keys, name, d), own);
  }

  lemma WithinSingleton<T>(s: set<T>, x: T)
    requires s <= {x}
    ensures |s| <= 1
  {
    if x in s {
      assert s == {x};
    } else {
      assert s == {};
    }
  }

  /** A sequence in which no value is counted twice has no two equal elements. */
  lemma DistinctFromCounts(s: seq<u32>)
    requires forall d: u32 :: multiset(s)[d] <= 1
    ensures forall i, j :: 0 <= i < j < |s| ==> s[i] != s[j]
  {
    forall i, j | 0 <= i < j < |s|
      ensures s[i] != s[j]
    {
      assert s == s[..j] + [s[j]] + s[j + 1..];
      assert multiset(s)[s[j]] == multiset(s[..j])[s[j]] + 1 + multiset(s[j + 1..])[s[j]];
      assert s[..j][i] == s[i];
      assert s[i] in multiset(s[..j]);
    }
  }

  /**
   * The scan of a sessions tree of session keys reports each device of `name` that has a
   * session, and reports it once.
   */
  method SubDevicesOfWellFormedTree<C(!new), P(!new), S(!new), R(!new), I(!new,==)>(
    store: SledConfigStore<C, P, S, R, I>, name: string)
    returns (ids: seq<u32>)
    requires SessionsWellFormed(store.sessions)
    ensures forall d: u32 :: d in ids <==> SessionKey(ProtocolAddress(name, d)) in store.sessions
    ensures forall i, j :: 0 <= i < j < |ids| ==> ids[i] != ids[j]
  {
    ids := store.GetSubDeviceSessions(name);
    SubDevicesExact(store.sessions, name);
    forall d: u32
      ensures multiset(ids)[d] <= 1
    {
      OneKeyPerId(store.sessions, name, d);
    }
    DistinctFromCounts(ids);
  }

  /** Two devices of `name` and one of another peer: the scan for `name` reports the two, once each. */
  lemma TwoDevicesAmongThree(name: string, other: string, d1: u32, d2: u32, d3: u32)
    requires other != name && d1 != d2
    ensures var keys := {SessionKey(ProtocolAddress(name, d1)), SessionKey(ProtocolAddress(name, d2)),
                         SessionKey(ProtocolAddress(other, d3))};
            SubDevices(keys, name) == {d1, d2} && |Matching(keys, name)| == 2
  {
    var a1, a2, a3 := ProtocolAddress(name, d1), ProtocolAddress(name, d2), ProtocolAddress(other, d3);
    var k1, k2, k3 := SessionKey(a1), SessionKey(a2), SessionKey(a3);
    DeviceSuffixOfSessionKey(name, a1);
    DeviceSuffixOfSessionKey(name, a2);
    DeviceSuffixOfSessionKey(name, a3);
    SessionKeyInjective(a1, a2);
    MatchingOfThree(name, k1, k2, k3, d1, d2);
  }

  /** Three keys of which the first two yield device ids for `name` and the third does not. */
  lemma MatchingOfThree(name: string, k1: string, k2: string, k3: string, d1: u32, d2: u32)
    requires DeviceSuffix(name, k1) == Some(d1) && DeviceSuffix(name, k2) == Some(d2)
    requires DeviceSuffix(name, k3) == None && k1 != k2
    ensures Matching({k1, k2, k3}, name) == {k1, k2} && |Matching({k1, k2, k3}, name)| == 2
    ensures SubDevices({k1, k2, k3}, name) == {d1, d2}
  {
    var suffix := k => DeviceSuffix(name, k);
    FilterOfThree(suffix, k1, k2, k3, d1, d2);
    assert Matching({k1, k2, k3}, name) == set k | k in {k1, k2, k3} && suffix(k).Some?;
    assert SubDevices({k1, k2, k3}, name) == set k | k in {k1, k2, k3} && suffix(k).Some? :: suffix(k).value;
  }

  /** The same over any function from keys to ids: two keys map to ids, the third to `None`. */
  lemma FilterOfThree(suffix: string -> Option<u32>, k1: string, k2: string, k3: string, d1: u32, d2: u32)
    requires suffix(k1) == Some(d1) && suffix(k2) == Some(d2) && suffix(k3) == None && k1 != k2
    ensures (set k | k in {k1, k2, k3} && suffix(k).Some?) == {k1, k2}
    ensures (set k | k in {k1, k2, k3} && suffix(k).Some? :: suffix(k).value) == {d1, d2}
  {
    var ys := set k | k in {k1, k2, k3} && suffix(k).Some? :: suffix(k).value;
    assert d1 in ys && d2 in ys;
  }

  /** Sessions for `alice.1`, `alice.2` and `alicebob.1`: the scan for `alice` reports 1 and 2, once each. */
  lemma AliceAndAlicebob()
    ensures var keys := {SessionKey(ProtocolAddress("alice", 1)), SessionKey(ProtocolAddress("alice", 2)),
                         SessionKey(ProtocolAddress("alicebob", 1))};
            SubDevices(keys, "alice") == {1, 2} && |Matching(keys, "alice")| == 2
  {
    assert |"alicebob"| != |"alice"|;
    TwoDevicesAmongThree("alice", "alicebob", 1, 2, 1);
  }

  /* ---------- registration state and counters ---------- */

  /**
   * A fresh store reads as `New` with both counters at zero; after `save(s)` it reads `s`,
   * the default tree holds the state document alone (every counter, pre-key and identity
   * is gone), and the sessions tree is as it was.
   */
  method SaveReplacesDefaultTree<C(!new), P(!new), S(!new), R(!new), I(!new,==)>(
    store: SledConfigStore<C, P, S, R, I>, s: State, id: u32)
    returns (before: Result<State, StoreError>, after: Result<State, StoreError>,
             offset: Result<u32, StoreError>, preKey: Result<P, StoreError>)
    requires RoundTrips(store.codecs.state)
    modifies store
    ensures StateKey !in old(store.tree) ==> before == Ok(New)
    ensures after == Ok(s)
    ensures store.tree.Keys == {StateKey} && store.sessions == old(store.sessions)
    ensures offset == Ok(0) && preKey == Err(InvalidPreKeyId)
  {
    before := store.GetState();
    store.Save(s);
    after := store.GetState();
    offset := store.PreKeysOffsetId();
    preKey := store.GetPreKey(id);
  }

  /** A counter reads back what was set, and setting it touches no other key. */
  method CountersRoundTrip<C(!new), P(!new), S(!new), R(!new), I(!new,==)>(
    store: SledConfigStore<C, P, S, R, I>, offset: u32, next: u32)
    returns (offsetRead: Result<u32, StoreError>, nextRead: Result<u32, StoreError>)
    modifies store
    ensures offsetRead == Ok(offset) && nextRead == Ok(next)
    ensures forall k :: k !in {PreKeysOffsetIdKey, NextSignedPreKeyIdKey} ==>
              (k in store.tree <==> k in old(store.tree)) && (k in store.tree ==> store.tree[k] == old(store.tree)[k])
    ensures store.sessions == old(store.sessions)
  {
    store.SetPreKeysOffsetId(offset);
    store.SetNextSignedPreKeyId(next);
    offsetRead := store.PreKeysOffsetId();
    nextRead := store.NextSignedPreKeyId();
    LeRoundTrip(offset);
    LeRoundTrip(next);
  }

  /** On a fresh store both counters read zero. */
  method FreshCountersAreZero<C(!new), P(!new), S(!new), R(!new), I(!new,==)>(
    codecs: Codecs<C, P, S, R, I>)
    returns (offset: Result<u32, StoreError>, next: Result<u32, StoreError>, state: Result<State, StoreError>)
    ensures offset == Ok(0) && next == Ok(0) && state == Ok(New)
  {
    var store := new SledConfigStore.Temporary(codecs);
    offset := store.PreKeysOffsetId();
    next := store.NextSignedPreKeyId();
    state := store.GetState();
  }

  /* ---------- contacts ---------- */

  method ContactsRoundTrip<C(!new), P(!new), S(!new), R(!new), I(!new,==)>(
    store: SledConfigStore<C, P, S, R, I>, contacts: seq<C>)
    returns (before: Result<seq<C>, StoreError>, after: Result<seq<C>, StoreError>)
    requires RoundTrips(store.codecs.contacts)
    modifies store
    ensures ContactsKey !in old(store.tree) ==> before == Ok([])
    ensures after == Ok(contacts)
    ensures store.tree - {ContactsKey} == old(store.tree) - {ContactsKey}
    ensures store.sessions == old(store.sessions)
  {
    before := store.Contacts();
    store.SaveContacts(contacts);
    after := store.Contacts();
  }

  /* ---------- pre-keys and signed pre-keys ---------- */

  /**
   * A saved pre-key reads back; once removed it is `InvalidPreKeyId`; removing it again
   * changes nothing.
   */
  method PreKeyLifecycle<C(!new), P(!new), S(!new), R(!new), I(!new,==)>(
    store: SledConfigStore<C, P, S, R, I>, id: u32, record: P)
    returns (saved: Result<P, StoreError>, removed: Result<P, StoreError>)
    requires RoundTrips(store.codecs.preKey)
    modifies store
    ensures saved == Ok(record) && removed == Err(InvalidPreKeyId)
    ensures store.tree == old(store.tree) - {PrekeyKey(id)}
    ensures store.sessions == old(store.sessions)
  {
    store.SavePreKey(id, record);
    saved := store.GetPreKey(id);
    store.RemovePreKey(id);
    removed := store.GetPreKey(id);
    ghost var once := store.tree;
    store.RemovePreKey(id);
    assert store.tree == once;
  }

  /** A saved signed pre-key reads back, and every other signed pre-key stays as it was. */
  method SignedPreKeyRoundTrip<C(!new), P(!new), S(!new), R(!new), I(!new,==)>(
    store: SledConfigStore<C, P, S, R, I>, id: u32, record: S, other: u32)
    returns (read: Result<S, StoreError>, otherBefore: Result<S, StoreError>, otherAfter: Result<S, StoreError>)
    requires RoundTrips(store.codecs.signedPreKey)
    requires other != id
    modifies store
    ensures read == Ok(record)
    ensures otherAfter == otherBefore
    ensures SignedPrekeyKey(other) !in old(store.tree) ==> otherAfter == Err(InvalidSignedPreKeyId)
  {
    otherBefore := store.GetSignedPreKey(other);
    store.SaveSignedPreKey(id, record);
    read := store.GetSignedPreKey(id);
    SignedPrekeyKeyInjective(id, other);
    otherAfter := store.GetSignedPreKey(other);
  }

  /**
   * Saving a signed pre-key leaves the pre-key of every id as it was, the pre-key with the
   * same id included: the two families live under different keys.
   */
  method SignedPreKeyKeepsPreKeys<C(!new), P(!new), S(!new), R(!new), I(!new,==)>(
    store: SledConfigStore<C, P, S, R, I>, id: u32, record: S, other: u32)
    returns (preKeyBefore: Result<P, StoreError>, sameIdBefore: Result<P, StoreError>,
             preKeyAfter: Result<P, StoreError>, sameIdAfter: Result<P, StoreError>)
    modifies store
    ensures preKeyAfter == preKeyBefore && sameIdAfter == sameIdBefore
  {
    preKeyBefore := store.GetPreKey(other);
    sameIdBefore := store.GetPreKey(id);
    ghost var before := store.tree;
    store.SaveSignedPreKey(id, record);
    SignedSaveKeepsPreKey(before, other, id, store.codecs.signedPreKey.encode(record));
    SignedSaveKeepsPreKey(before, id, id, store.codecs.signedPreKey.encode(record));
    preKeyAfter := store.GetPreKey(other);
    sameIdAfter := store.GetPreKey(id);
  }

  /** Writing a signed pre-key leaves the entry of every pre-key id of the tree as it was. */
  lemma SignedSaveKeepsPreKey(tree: map<string, Bytes>, i: u32, j: u32, value: Bytes)
    ensures PrekeyKey(i) in tree[SignedPrekeyKey(j) := value] <==> PrekeyKey(i) in tree
    ensures PrekeyKey(i) in tree ==> tree[SignedPrekeyKey(j) := value][PrekeyKey(i)] == tree[PrekeyKey(i)]
  {
    DefaultTreeKeysDisjoint(i, j, ProtocolAddress("", 0));
  }

  /* ---------- sessions ---------- */

  /**
   * A stored session loads back; the session of any other address and the default tree are
   * untouched.
   */
  method SessionRoundTrip<C(!new), P(!new), S(!new), R(!new), I(!new,==)>(
    store: SledConfigStore<C, P, S, R, I>, address: ProtocolAddress, record: R, other: ProtocolAddress)
    returns (loaded: Result<Option<R>, StoreError>, otherBefore: Result<Option<R>, StoreError>,
             otherAfter: Result<Option<R>, StoreError>)
    requires RoundTrips(store.codecs.session)
    requires other != address
    modifies store
    ensures loaded == Ok(Some(record))
    ensures otherAfter == otherBefore
    ensures store.tree == old(store.tree)
  {
    otherBefore := store.LoadSession(other);
    store.StoreSession(address, record);
    loaded := store.LoadSession(address);
    SessionKeyInjective(address, other);
    otherAfter := store.LoadSession(other);
  }

  /** After deletion a session loads as `None`, and only its own key has left the tree. */
  method SessionDeletion<C(!new), P(!new), S(!new), R(!new), I(!new,==)>(
    store: SledConfigStore<C, P, S, R, I>, address: ProtocolAddress, record: R)
    returns (deleted: Result<Option<R>, StoreError>)
    modifies store
    ensures deleted == Ok(None)
    ensures store.tree == old(store.tree)
    ensures store.sessions == old(store.sessions) - {SessionKey(address)}
  {
    store.StoreSession(address, record);
    store.DeleteSession(address);
    deleted := store.LoadSession(address);
  }

  /** `delete_all_sessions` reports the prior size and empties the tree for any name. */
  method DeleteAllSessionsEmptiesTree<C(!new), P(!new), S(!new), R(!new), I(!new,==)>(
    store: SledConfigStore<C, P, S, R, I>, name: string, anyName: string)
    returns (count: nat, ids: seq<u32>)
    modifies store
    ensures count == |old(store.sessions)|
    ensures ids == [] && store.sessions == map[] && store.tree == old(store.tree)
  {
    count := store.DeleteAllSessions(name);
    ids := store.GetSubDeviceSessions(anyName);
    assert Matching(store.sessions.Keys, anyName) == {};
  }

  /** `delete_all_sessions(name)` also deletes the session of every other peer: the name is not used. */
  method DeleteAllSessionsIgnoresName<C(!new), P(!new), S(!new), R(!new), I(!new,==)>(
    codecs: Codecs<C, P, S, R, I>, record: R, mine: ProtocolAddress, theirs: ProtocolAddress)
    returns (asWritten: Result<Option<R>, StoreError>)
    requires mine.name != theirs.name
    ensures asWritten == Ok(None)
  {
    var store := new SledConfigStore.Temporary(codecs);
    store.StoreSession(mine, record);
    store.StoreSession(theirs, record);
    var n := store.DeleteAllSessions(mine.name);
    asWritten := store.LoadSession(theirs);
  }

  /** The name-scoped `DeleteAllSessionsOf` removes the session of `name` and keeps the other peer's. */
  method DeleteAllSessionsOfKeepsOthers<C(!new), P(!new), S(!new), R(!new), I(!new,==)>(
    codecs: Codecs<C, P, S, R, I>, record: R, mine: ProtocolAddress, theirs: ProtocolAddress)
    returns (scoped: Result<Option<R>, StoreError>, scopedMine: Result<Option<R>, StoreError>)
    requires RoundTrips(codecs.session)
    requires mine.name != theirs.name
    ensures scoped == Ok(Some(record)) && scopedMine == Ok(None)
  {
    var fixed := new SledConfigStore.Temporary(codecs);
    fixed.StoreSession(mine, record);
    fixed.StoreSession(theirs, record);
    SessionKeyInjective(mine, theirs);
    var m := fixed.DeleteAllSessionsOf(mine.name);
    scoped := fixed.LoadSession(theirs);
    scopedMine := fixed.LoadSession(mine);
  }

  /** The scan of a store written only through `store_session` is exact. */
  method SubDevicesOfStoredSessions<C(!new), P(!new), S(!new), R(!new), I(!new,==)>(
    codecs: Codecs<C, P, S, R, I>, record: R)
    returns (ids: seq<u32>)
    ensures (set i | i in ids) == {1, 2} && |ids| == 2
  {
    var store := new SledConfigStore.Temporary(codecs);
    store.StoreSession(ProtocolAddress("alice", 1), record);
    store.StoreSession(ProtocolAddress("alice", 2), record);
    store.StoreSession(ProtocolAddress("alicebob", 1), record);
    assert store.sessions.Keys == {SessionKey(ProtocolAddress("alice", 1)), SessionKey(ProtocolAddress("alice", 2)),
                                   SessionKey(ProtocolAddress("alicebob", 1))};
    AliceAndAlicebob();
    ids := store.GetSubDeviceSessions("alice");
  }

  /* ---------- identities ---------- */

  /**
   * An address never seen is trusted with any key; after `save_identity` (which reports
   * `false`) the key reads back and is trusted, and any other key is not.
   */
  method TrustOnFirstUse<C(!new), P(!new), S(!new), R(!new), I(!new,==)>(
    store: SledConfigStore<C, P, S, R, I>, address: ProtocolAddress, key: I, otherKey: I)
    returns (firstSight: Result<bool, StoreError>, replaced: bool, read: Result<Option<I>, StoreError>,
             same: Result<bool, StoreError>, different: Result<bool, StoreError>)
    requires RoundTrips(store.codecs.identity)
    requires otherKey != key
    modifies store
    ensures IdentityKey(address) !in old(store.tree) ==> firstSight == Ok(true)
    ensures !replaced && read == Ok(Some(key))
    ensures same == Ok(true) && different == Ok(false)
    ensures store.sessions == old(store.sessions)
  {
    firstSight := store.IsTrustedIdentity(address, otherKey);
    replaced := store.SaveIdentity(address, key);
    read := store.GetIdentity(address);
    same := store.IsTrustedIdentity(address, key);
    different := store.IsTrustedIdentity(address, otherKey);
  }

  /**
   * The identity key pair and the registration id are available only once the saved state
   * is `Registered`; before that both are `WrongState`.
   */
  method RegistrationGate<C(!new), P(!new), S(!new), R(!new), I(!new,==)>(
    store: SledConfigStore<C, P, S, R, I>, id: u32, pub: Bytes, priv: Bytes, account: Bytes)
    returns (pairNew: Result<IdentityKeyPair, StoreError>, idNew: Result<u32, StoreError>,
             pair: Result<IdentityKeyPair, StoreError>, regId: Result<u32, StoreError>)
    requires RoundTrips(store.codecs.state)
    modifies store
    ensures pairNew == Err(WrongState) && idNew == Err(WrongState)
    ensures pair == Ok(IdentityKeyPair(pub, priv)) && regId == Ok(id)
  {
    store.Save(New);
    pairNew := store.GetIdentityKeyPair();
    idNew := store.GetLocalRegistrationId();
    store.Save(Registered(id, pub, priv, account));
    pair := store.GetIdentityKeyPair();
    regId := store.GetLocalRegistrationId();
  }
}
