/**
 * `SledConfigStore`: the client's persistent store of registration state, counters,
 * contacts, pre-keys, signed pre-keys, sessions and remote identities, kept in an embedded
 * key-value engine. The engine is two finite maps from key to bytes: the default tree and
 * the `"sessions"` tree. Every operation of the store is a method on those two maps.
 */
module SledStore {
  import opened Wrappers
  import opened Encoding
  import opened Keys

  const StateKey := "state"
  const ContactsKey := "contacts"
  const PreKeysOffsetIdKey := "pre_keys_offset_id"
  const NextSignedPreKeyIdKey := "next_signed_pre_key_id"

  /** The outcomes other than success that the store's operations report. */
  datatype StoreError =
    | InvalidPreKeyId        // no pre-key under the requested id
    | InvalidSignedPreKeyId  // no signed pre-key under the requested id
    | WrongState             // registration data asked for before registration
    | UnhandledError         // reading the state document failed inside an identity lookup
    | DecodeError            // stored bytes do not deserialize
    | Panicked               // the operation aborts the process instead of returning

  /** The registration state document; the account fields the store never reads are one blob. */
  datatype State =
    | New
    | Registered(registrationId: u32, publicKey: Bytes, privateKey: Bytes, account: Bytes)

  datatype IdentityKeyPair = IdentityKeyPair(publicKey: Bytes, privateKey: Bytes)

  /** The serializers the store calls, one per kind of stored value. */
  datatype Codecs<!Contact, !PreKey, !SignedPreKey, !Session, !Identity> = Codecs(
    state: Codec<State>,
    contacts: Codec<seq<Contact>>,
    preKey: Codec<PreKey>,
    signedPreKey: Codec<SignedPreKey>,
    session: Codec<Session>,
    identity: Codec<Identity>)

  function Decoded<T>(c: Codec<T>, b: Bytes): Result<T, StoreError>
  {
    match c.decode(b)
    case Some(x) => Ok(x)
    case None => Err(DecodeError)
  }

  /**
   * The keys a prefix scan of the sessions tree visits for `name`. It reaches the session
   * of every device of `name`, and every key that yields a device id for `name`.
   */
  function Scanned(keys: set<string>, name: string): (r: set<string>)
    ensures r <= keys
    ensures forall a: ProtocolAddress :: a.name == name && SessionKey(a) in keys ==> SessionKey(a) in r
    ensures forall k :: k in keys && DeviceSuffix(name, k).Some? ==> k in r
  {
    set k | k in keys && SessionPrefix(name) <= k
  }

  /** The scanned keys whose remainder parses as a device id. */
  ghost function Matching(keys: set<string>, name: string): set<string>
  {
    set k | k in keys && DeviceSuffix(name, k).Some?
  }

  /** The keys that yield the device id `d` for `name`: how often the scan reports `d`. */
  ghost function KeysWithId(keys: set<string>, name: string, d: u32): set<string>
  {
    set k | k in keys && DeviceSuffix(name, k) == Some(d)
  }

  /** The device ids `get_sub_device_sessions(name)` reports for a sessions tree with these keys. */
  ghost function SubDevices(keys: set<string>, name: string): set<u32>
  {
    set k | k in keys && DeviceSuffix(name, k).Some? :: DeviceSuffix(name, k).value
  }

  ghost predicate IsSessionKey(k: string)
  {
    exists a :: SessionKey(a) == k
  }

  /** A sessions tree written only by `store_session`: every key is the key of some address. */
  ghost predicate SessionsWellFormed(sessions: map<string, Bytes>)
  {
    forall k :: k in sessions ==> IsSessionKey(k)
  }

  class SledConfigStore<Contact(!new), PreKey(!new), SignedPreKey(!new), Session(!new), Identity(!new,==)> {
    /** The engine's default tree. */
    var tree: map<string, Bytes>
    /** The engine's `"sessions"` tree. */
    var sessions: map<string, Bytes>
    const codecs: Codecs<Contact, PreKey, SignedPreKey, Session, Identity>

    /** Open a database whose trees hold what was last written to disk. */
    constructor Open(onDisk: map<string, Bytes>, sessionsOnDisk: map<string, Bytes>,
                     codecs: Codecs<Contact, PreKey, SignedPreKey, Session, Identity>)
      ensures tree == onDisk && sessions == sessionsOnDisk && this.codecs == codecs
    {
      tree := onDisk;
      sessions := sessionsOnDisk;
      this.codecs := codecs;
    }

    /** A fresh temporary database: both trees empty. */
    constructor Temporary(codecs: Codecs<Contact, PreKey, SignedPreKey, Session, Identity>)
      ensures tree == map[] && sessions == map[] && this.codecs == codecs
    {
      tree := map[];
      sessions := map[];
      this.codecs := codecs;
    }

    /* ---------- engine access on the default tree ---------- */

    /** Point lookup; a missing key is `None`, not an error. */
    method Get(key: string) returns (v: Option<Bytes>)
      ensures v.Some? <==> key in tree
      ensures v.Some? ==> v.value == tree[key]
    {
      v := if key in tree then Some(tree[key]) else None;
    }

    /** A counter: absent reads as `None`; present must be exactly four bytes, else the copy panics. */
    method GetU32(key: string) returns (r: Result<Option<u32>, StoreError>)
      ensures key !in tree ==> r == Ok(None)
      ensures key in tree && |tree[key]| == 4 ==> r == Ok(Some(U32FromLe(tree[key])))
      ensures key in tree && |tree[key]| != 4 ==> r == Err(Panicked)
    {
      var data := Get(key);
      match data
      case None =>
        r := Ok(None);
      case Some(bytes) =>
        if |bytes| != 4 {
          r := Err(Panicked);
        } else {
          r := Ok(Some(U32FromLe(bytes)));
        }
    }

    method Insert(key: string, value: Bytes)
      modifies this
      ensures tree == old(tree)[key := value] && sessions == old(sessions)
    {
      tree := tree[key := value];
    }

    method InsertU32(key: string, value: u32)
      modifies this
      ensures tree == old(tree)[key := U32ToLe(value)] && sessions == old(sessions)
    {
      Insert(key, U32ToLe(value));
    }

    /** Removing a key that is not there changes nothing and is not an error. */
    method Remove(key: string)
      modifies this
      ensures tree == old(tree) - {key} && sessions == old(sessions)
    {
      tree := tree - {key};
    }

    /** The debug dump: the keys of both trees. */
    method AllKeys() returns (global: set<string>, sessionKeys: set<string>)
      ensures global == tree.Keys && sessionKeys == sessions.Keys
    {
      global := tree.Keys;
      sessionKeys := sessions.Keys;
    }

    /* ---------- ConfigStore ---------- */

    /** The state document; its absence means `New`, a malformed document is an error. */
    method GetState() returns (r: Result<State, StoreError>)
      ensures StateKey !in tree ==> r == Ok(New)
      ensures StateKey in tree ==> r == Decoded(codecs.state, tree[StateKey])
    {
      var data := Get(StateKey);
      match data
      case None =>
        r := Ok(New);
      case Some(bytes) =>
        r := Decoded(codecs.state, bytes);
    }

    /** Saving the state wipes the whole default tree, then writes the document alone. */
    method Save(s: State)
      modifies this
      ensures tree == map[StateKey := codecs.state.encode(s)]
      ensures sessions == old(sessions)
    {
      tree := map[];
      tree := tree[StateKey := codecs.state.encode(s)];
    }

    method PreKeysOffsetId() returns (r: Result<u32, StoreError>)
      ensures PreKeysOffsetIdKey !in tree ==> r == Ok(0)
      ensures PreKeysOffsetIdKey in tree && |tree[PreKeysOffsetIdKey]| == 4 ==>
                r == Ok(U32FromLe(tree[PreKeysOffsetIdKey]))
      ensures PreKeysOffsetIdKey in tree && |tree[PreKeysOffsetIdKey]| != 4 ==> r == Err(Panicked)
    {
      var v := GetU32(PreKeysOffsetIdKey);
      r := match v
        case Ok(Some(n)) => Ok(n)
        case Ok(None) => Ok(0)
        case Err(e) => Err(e);
    }

    method SetPreKeysOffsetId(id: u32)
      modifies this
      ensures tree == old(tree)[PreKeysOffsetIdKey := U32ToLe(id)] && sessions == old(sessions)
    {
      InsertU32(PreKeysOffsetIdKey, id);
    }

    method NextSignedPreKeyId() returns (r: Result<u32, StoreError>)
      ensures NextSignedPreKeyIdKey !in tree ==> r == Ok(0)
      ensures NextSignedPreKeyIdKey in tree && |tree[NextSignedPreKeyIdKey]| == 4 ==>
                r == Ok(U32FromLe(tree[NextSignedPreKeyIdKey]))
      ensures NextSignedPreKeyIdKey in tree && |tree[NextSignedPreKeyIdKey]| != 4 ==> r == Err(Panicked)
    {
      var v := GetU32(NextSignedPreKeyIdKey);
      r := match v
        case Ok(Some(n)) => Ok(n)
        case Ok(None) => Ok(0)
        case Err(e) => Err(e);
    }

    method SetNextSignedPreKeyId(id: u32)
      modifies this
      ensures tree == old(tree)[NextSignedPreKeyIdKey := U32ToLe(id)] && sessions == old(sessions)
    {
      InsertU32(NextSignedPreKeyIdKey, id);
    }

    /* ---------- ContactsStore ---------- */

    method SaveContacts(contacts: seq<Contact>)
      modifies this
      ensures tree == old(tree)[ContactsKey := codecs.contacts.encode(contacts)]
      ensures sessions == old(sessions)
    {
      tree := tree[ContactsKey := codecs.contacts.encode(contacts)];
    }

    /** The contact list; its absence means the empty list. */
    method Contacts() returns (r: Result<seq<Contact>, StoreError>)
      ensures ContactsKey !in tree ==> r == Ok([])
      ensures ContactsKey in tree ==> r == Decoded(codecs.contacts, tree[ContactsKey])
    {
      var data := Get(ContactsKey);
      match data
      case None =>
        r := Ok([]);
      case Some(bytes) =>
        r := Decoded(codecs.contacts, bytes);
    }

    /* ---------- PreKeyStore ---------- */

    /** A missing pre-key is the error `InvalidPreKeyId`. */
    method GetPreKey(id: u32) returns (r: Result<PreKey, StoreError>)
      ensures PrekeyKey(id) !in tree ==> r == Err(InvalidPreKeyId)
      ensures PrekeyKey(id) in tree ==> r == Decoded(codecs.preKey, tree[PrekeyKey(id)])
    {
      var data := Get(PrekeyKey(id));
      match data
      case None =>
        r := Err(InvalidPreKeyId);
      case Some(bytes) =>
        r := Decoded(codecs.preKey, bytes);
    }

    method SavePreKey(id: u32, record: PreKey)
      modifies this
      ensures tree == old(tree)[PrekeyKey(id) := codecs.preKey.encode(record)]
      ensures sessions == old(sessions)
    {
      Insert(PrekeyKey(id), codecs.preKey.encode(record));
    }

    method RemovePreKey(id: u32)
      modifies this
      ensures tree == old(tree) - {PrekeyKey(id)} && sessions == old(sessions)
    {
      Remove(PrekeyKey(id));
    }

    /* ---------- SignedPreKeyStore ---------- */

    /** A missing signed pre-key is the error `InvalidSignedPreKeyId`. */
    method GetSignedPreKey(id: u32) returns (r: Result<SignedPreKey, StoreError>)
      ensures SignedPrekeyKey(id) !in tree ==> r == Err(InvalidSignedPreKeyId)
      ensures SignedPrekeyKey(id) in tree ==> r == Decoded(codecs.signedPreKey, tree[SignedPrekeyKey(id)])
    {
      var data := Get(SignedPrekeyKey(id));
      match data
      case None =>
        r := Err(InvalidSignedPreKeyId);
      case Some(bytes) =>
        r := Decoded(codecs.signedPreKey, bytes);
    }

    method SaveSignedPreKey(id: u32, record: SignedPreKey)
      modifies this
      ensures tree == old(tree)[SignedPrekeyKey(id) := codecs.signedPreKey.encode(record)]
      ensures sessions == old(sessions)
    {
      Insert(SignedPrekeyKey(id), codecs.signedPreKey.encode(record));
    }

    /* ---------- SessionStore and SessionStoreExt ---------- */

    /** A session never stored is `None`, not an error. */
    method LoadSession(address: ProtocolAddress) returns (r: Result<Option<Session>, StoreError>)
      ensures SessionKey(address) !in sessions ==> r == Ok(None)
      ensures SessionKey(address) in sessions ==>
                r == match Decoded(codecs.session, sessions[SessionKey(address)])
                     case Ok(s) => Ok(Some(s))
                     case Err(e) => Err(e)
    {
      var key := SessionKey(address);
      if key !in sessions {
        r := Ok(None);
      } else {
        var decoded := Decoded(codecs.session, sessions[key]);
        r := match decoded
          case Ok(s) => Ok(Some(s))
          case Err(e) => Err(e);
      }
    }

    method StoreSession(address: ProtocolAddress, record: Session)
      modifies this
      ensures sessions == old(sessions)[SessionKey(address) := codecs.session.encode(record)]
      ensures tree == old(tree)
      ensures SessionsWellFormed(old(sessions)) ==> SessionsWellFormed(sessions)
    {
      sessions := sessions[SessionKey(address) := codecs.session.encode(record)];
    }

    /**
     * The device ids of the scanned keys under `name`: every key of the sessions tree that
     * starts with `session-<name>.` and whose remainder parses as a `u32`, one id per key.
     */
    method GetSubDeviceSessions(name: string) returns (ids: seq<u32>)
      ensures (set i | i in ids) == SubDevices(sessions.Keys, name)
      ensures |ids| == |Matching(sessions.Keys, name)|
      ensures forall d: u32 :: multiset(ids)[d] == |KeysWithId(sessions.Keys, name, d)|
    {
      var prefix := SessionPrefix(name);
      var scan := Scanned(sessions.Keys, name);
      ghost var visited: set<string> := {};
      ids := [];
      while scan != {}
        invariant scan !! visited && scan + visited == Scanned(sessions.Keys, name)
        invariant (set i | i in ids) == SubDevices(visited, name)
        invariant |ids| == |Matching(visited, name)|
        invariant forall d: u32 :: multiset(ids)[d] == |KeysWithId(visited, name, d)|
        decreases scan
      {
        var key :| key in scan;
        assert prefix <= key;
        var id := ParseU32(key[|prefix|..]);
        assert id == DeviceSuffix(name, key);
        ScanStep(ids, visited, key, name);
        CountStep(ids, visited, key, name);
        ids := if id.Some? then ids + [id.value] else ids;
        scan := scan - {key};
        visited := visited + {key};
      }
      ScanKeepsMatches(sessions.Keys, name);
    }

    /** Removing a session that is not there is not an error. */
    method DeleteSession(address: ProtocolAddress)
      modifies this
      ensures sessions == old(sessions) - {SessionKey(address)}
      ensures tree == old(tree)
      ensures SessionsWellFormed(old(sessions)) ==> SessionsWellFormed(sessions)
    {
      sessions := sessions - {SessionKey(address)};
    }

    /** Empties the whole sessions tree, whatever name is passed, and reports how much it held. */
    method DeleteAllSessions(name: string) returns (count: nat)
      modifies this
      ensures count == |old(sessions)|
      ensures sessions == map[] && tree == old(tree)
    {
      count := |sessions|;
      sessions := map[];
    }

    /**
     * What `delete_all_sessions(name)` is evidently meant to do: remove the sessions of the
     * devices of `name` only (the keys its prefix scan reports) and count them.
     */
    method DeleteAllSessionsOf(name: string) returns (count: nat)
      modifies this
      ensures count == |Matching(old(sessions).Keys, name)|
      ensures sessions == old(sessions) - Matching(old(sessions).Keys, name)
      ensures tree == old(tree)
      ensures forall a: ProtocolAddress :: SessionKey(a) in sessions <==> SessionKey(a) in old(sessions) && a.name != name
    {
      var doomed := set k | k in sessions.Keys && DeviceSuffix(name, k).Some?;
      assert doomed == Matching(sessions.Keys, name);
      count := |doomed|;
      sessions := sessions - doomed;
      forall a: ProtocolAddress
        ensures SessionKey(a) in sessions <==> SessionKey(a) in old(sessions) && a.name != name
      {
        DeviceSuffixOfSessionKey(name, a);
      }
    }

    /* ---------- IdentityKeyStore ---------- */

    method GetIdentityKeyPair() returns (r: Result<IdentityKeyPair, StoreError>)
      ensures StateKey !in tree ==> r == Err(WrongState)
      ensures StateKey in tree ==>
                r == match codecs.state.decode(tree[StateKey])
                     case None => Err(UnhandledError)
                     case Some(New) => Err(WrongState)
                     case Some(Registered(_, pub, priv, _)) => Ok(IdentityKeyPair(pub, priv))
    {
      var s := GetState();
      r := match s
        case Ok(Registered(_, pub, priv, _)) => Ok(IdentityKeyPair(pub, priv))
        case Ok(New) => Err(WrongState)
        case Err(_) => Err(UnhandledError);
    }

    method GetLocalRegistrationId() returns (r: Result<u32, StoreError>)
      ensures StateKey !in tree ==> r == Err(WrongState)
      ensures StateKey in tree ==>
                r == match codecs.state.decode(tree[StateKey])
                     case None => Err(UnhandledError)
                     case Some(New) => Err(WrongState)
                     case Some(Registered(id, _, _, _)) => Ok(id)
    {
      var s := GetState();
      r := match s
        case Ok(Registered(id, _, _, _)) => Ok(id)
        case Ok(New) => Err(WrongState)
        case Err(_) => Err(UnhandledError);
    }

    /** Overwrites the stored identity and always reports that none was replaced. */
    method SaveIdentity(address: ProtocolAddress, key: Identity) returns (replaced: bool)
      modifies this
      ensures !replaced
      ensures tree == old(tree)[IdentityKey(address) := codecs.identity.encode(key)]
      ensures sessions == old(sessions)
    {
      Insert(IdentityKey(address), codecs.identity.encode(key));
      replaced := false;
    }

    /** Trust on first use: an unknown address is trusted, a known one only with the same key. */
    method IsTrustedIdentity(address: ProtocolAddress, key: Identity) returns (r: Result<bool, StoreError>)
      ensures IdentityKey(address) !in tree ==> r == Ok(true)
      ensures IdentityKey(address) in tree ==>
                r == match codecs.identity.decode(tree[IdentityKey(address)])
                     case None => Err(DecodeError)
                     case Some(stored) => Ok(stored == key)
    {
      var data := Get(IdentityKey(address));
      match data
      case None =>
        r := Ok(true);
      case Some(bytes) =>
        var stored := Decoded(codecs.identity, bytes);
        r := match stored
          case Ok(k) => Ok(k == key)
          case Err(e) => Err(e);
    }

    /** The stored identity, if any; a malformed one makes the lookup panic. */
    method GetIdentity(address: ProtocolAddress) returns (r: Result<Option<Identity>, StoreError>)
      ensures IdentityKey(address) !in tree ==> r == Ok(None)
      ensures IdentityKey(address) in tree ==>
                r == match codecs.identity.decode(tree[IdentityKey(address)])
                     case None => Err(Panicked)
                     case Some(stored) => Ok(Some(stored))
    {
      var data := Get(IdentityKey(address));
      match data
      case None =>
        r := Ok(None);
      case Some(bytes) =>
        r := match codecs.identity.decode(bytes)
          case Some(k) => Ok(Some(k))
          case None => Err(Panicked);
    }
  }

  /* ---------- the prefix scan ---------- */

  lemma SetOfAppend(ids: seq<u32>, v: u32)
    ensures (set i | i in ids + [v]) == (set i | i in ids) + {v}
  {
  }

  lemma MatchingAdd(visited: set<string>, key: string, name: string)
    requires key !in visited
    ensures SubDevices(visited + {key}, name) ==
              SubDevices(visited, name) + (if DeviceSuffix(name, key).Some? then {DeviceSuffix(name, key).value} else {})
    ensures Matching(visited + {key}, name) ==
              Matching(visited, name) + (if DeviceSuffix(name, key).Some? then {key} else {})
    ensures key !in Matching(visited, name)
  {
  }

  /** One key of the scan: its id, when it has one, joins the ids reported so far. */
  lemma ScanStep(ids: seq<u32>, visited: set<string>, key: string, name: string)
    requires key !in visited
    requires (set i | i in ids) == SubDevices(visited, name)
    requires |ids| == |Matching(visited, name)|
    ensures var id := DeviceSuffix(name, key);
            var ids' := if id.Some? then ids + [id.value] else ids;
            (set i | i in ids') == SubDevices(visited + {key}, name) &&
            |ids'| == |Matching(visited + {key}, name)|
  {
    MatchingAdd(visited, key, name);
    var id := DeviceSuffix(name, key);
    if id.Some? {
      SetOfAppend(ids, id.value);
    }
  }

  /** One key of the scan adds one report of its own id and changes no other id's count. */
  lemma CountStep(ids: seq<u32>, visited: set<string>, key: string, name: string)
    requires key !in visited
    requires forall d: u32 :: multiset(ids)[d] == |KeysWithId(visited, name, d)|
    ensures var id := DeviceSuffix(name, key);
            var ids' := if id.Some? then ids + [id.value] else ids;
            forall d: u32 :: multiset(ids')[d] == |KeysWithId(visited + {key}, name, d)|
  {
    var id := DeviceSuffix(name, key);
    var ids' := if id.Some? then ids + [id.value] else ids;
    forall d: u32
      ensures multiset(ids')[d] == |KeysWithId(visited + {key}, name, d)|
    {
      if id == Some(d) {
        assert KeysWithId(visited + {key}, name, d) == KeysWithId(visited, name, d) + {key};
      } else {
        assert KeysWithId(visited + {key}, name, d) == KeysWithId(visited, name, d);
      }
    }
  }

  lemma ScanKeepsMatches(keys: set<string>, name: string)
    ensures SubDevices(Scanned(keys, name), name) == SubDevices(keys, name)
    ensures Matching(Scanned(keys, name), name) == Matching(keys, name)
    ensures forall d: u32 :: KeysWithId(Scanned(keys, name), name, d) == KeysWithId(keys, name, d)
  {
  }
}
