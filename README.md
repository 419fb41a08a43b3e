# presage client store and memo cell, in Dafny

This project models two parts of the presage Signal client library.

**`SledConfigStore`** (`src/config/sled.rs`) is the client's persistent store. It holds:

- the registration state document;
- the two pre-key counters;
- the contact list;
- pre-keys and signed pre-keys;
- sessions with peer devices;
- the identity keys of remote peers.

All of it lives in an embedded key-value engine, made of a default tree and a `"sessions"` tree. Here the engine is two finite maps from key to bytes, the fields `tree` and `sessions` of the class `SledStore.SledConfigStore`. Every store operation is a method on that class. Reads leave both maps alone. Writes state the whole new value of both maps.

Every key is a string built by the encoders in module `Keys`:

- `prekey-{:09}` and `signed-prekey-{:09}`;
- `session-<name>.<device>`, and the scan prefix `session-<name>.`;
- `identity-remote-<name>.<device>`.

The counters are stored as four little-endian bytes (module `Encoding`). The serializers the store calls are not part of this model. They are `Codec` values, each a pair of an encoding function and a decoding function that may fail. They are given to the store when it is opened. Wherever a property needs a round trip, it takes the round trip as a precondition (`RoundTrips`).

The store also panics in two places this model covers: `copy_from_slice` on a counter whose length is not four, and `unwrap` on a stored identity that does not decode. Both are modelled as the error outcome `Panicked`. The other panics of the store are the `expect`s on a poisoned lock and on a failed write in `save_pre_key` and `remove_pre_key` (`src/config/sled.rs:224` and `:234`); they are listed under "Left out".

**`CacheMutex<T>`** (`src/cache.rs`) is a single-slot memo cell, the class `Cache.CacheMutex` with one `Option<T>` field. `get` is given the factory's result as a `Result<T, E>` argument. A ghost flag tells whether `get` consulted the factory.

Module `StoreProperties` holds the properties that span several calls. It has lemmas about the sub-device scan, and client methods that run sequences of operations on a store and state what a caller observes. `Cache` holds the client methods for the memo cell.

## Model

| member | source | states |
|---|---|---|
| Encoding.U32ToLe | src/config/sled.rs:80-90 | `u32::to_le_bytes` gives exactly four bytes |
| Encoding.LeRoundTrip | src/config/sled.rs:54-64 | reading back the four bytes written for a counter gives the counter |
| Encoding.U32FromLe | src/config/sled.rs:59-62 | `u32::from_le_bytes` inverts `to_le_bytes` on every four-byte value: the number it reads encodes back to the same four bytes |
| Keys.Decimal | src/config/sled.rs:112-114 | the `Display` of a device id is a nonempty digit string without a leading zero whose value is the id |
| Keys.Format09 | src/config/sled.rs:104-110 | `{:09}` output is all digits, has the id's value, is at least nine long, and exactly nine below 10^9 |
| Keys.AddressString | src/config/sled.rs:112-114 | the display of an address is its name, a dot, and a remainder that parses back to the device id |
| Keys.PrekeyKey | src/config/sled.rs:104-106 | a pre-key's key is `prekey-` followed by at least nine digits whose value is the id |
| Keys.SignedPrekeyKey | src/config/sled.rs:108-110 | a signed pre-key's key is `signed-prekey-` followed by at least nine digits whose value is the id |
| Keys.SessionKey | src/config/sled.rs:112-114 | a session key is its name's scan prefix followed by the device id's decimal digits |
| Keys.SessionPrefix | src/config/sled.rs:116-118 | the scan prefix is `session-`, the name, and a final dot |
| Keys.IdentityKey | src/config/sled.rs:120-122 | an identity key is `identity-remote-` followed by the address's display |
| Keys.ParseU32 | src/config/sled.rs:344 | parsing succeeds exactly on an optional `+` then one or more digits whose value is below 2^32, and returns that value |
| Keys.DeviceSuffix | src/config/sled.rs:340-345 | a key yields an id only when it starts with the scan prefix and its remainder parses to that id; a key without the prefix yields none |
| Keys.PrekeyKeyInjective | src/config/sled.rs:104-106 | distinct pre-key ids get distinct keys |
| Keys.SignedPrekeyKeyInjective | src/config/sled.rs:108-110 | distinct signed pre-key ids get distinct keys |
| Keys.DefaultTreeKeysDisjoint | src/config/sled.rs:21-22 | pre-key, signed pre-key and identity keys never equal each other or `state`, `contacts`, `pre_keys_offset_id`, `next_signed_pre_key_id` |
| Keys.LexLessDigits | src/config/sled.rs:104-110 | on digit strings of one length, byte order holds exactly when numeric order does |
| Keys.PaddedKeyOrder | src/config/sled.rs:104-110 | below 10^9, one padded key sorts before another exactly when its id is smaller |
| Keys.PrekeyKeyOrder | src/config/sled.rs:104-106 | pre-key key order is numeric order, in both directions, for ids below 10^9 |
| Keys.SignedPrekeyKeyOrder | src/config/sled.rs:108-110 | signed pre-key key order is numeric order, in both directions, for ids below 10^9 |
| Keys.PrekeyKeyOrderBreaksAtTenDigits | src/config/sled.rs:104-106 | the key of id 10^9 sorts before the key of id 10^9 - 1 |
| Keys.PaddedKeyOrderBreaks | src/config/sled.rs:104-110 | with any prefix, the padded key of 10^9 sorts before that of 10^9 - 1 |
| Keys.AddressStringInjective | src/config/sled.rs:112-114 | distinct addresses display differently, even when a name contains dots |
| Keys.SessionKeyInjective | src/config/sled.rs:112-114 | each peer device has its own session key |
| Keys.IdentityKeyInjective | src/config/sled.rs:120-122 | each peer device has its own identity key |
| Keys.ParseDecimal | src/config/sled.rs:344 | parsing the decimal display of a `u32` gives it back |
| Keys.ParseRejectsDot | src/config/sled.rs:344 | a remainder that contains a dot never parses as a device id |
| Keys.DeviceSuffixOfSessionKey | src/config/sled.rs:339-344 | the scan for `name` yields a session key's device id exactly when the key belongs to `name`, and yields nothing for keys of other names (`alicebob`, or `alice.5` with device 3) |
| SledStore.Scanned | src/config/sled.rs:339 | the prefix scan visits only keys of the tree; it reaches the session of every device of `name` stored there, and every key from which an id for `name` is parsed |
| SledStore.SledConfigStore.Open | src/config/sled.rs:32-36 | an opened store holds what its trees held on disk |
| SledStore.SledConfigStore.Temporary | src/config/sled.rs:38-44 | a temporary store starts with both trees empty |
| SledStore.SledConfigStore.Get | src/config/sled.rs:46-52 | a lookup finds a value exactly when the key is present, and returns that key's value |
| SledStore.SledConfigStore.GetU32 | src/config/sled.rs:54-64 | an absent counter is `None`; four bytes decode little-endian; any other length panics |
| SledStore.SledConfigStore.Insert | src/config/sled.rs:66-78 | insertion sets one key of the default tree and changes nothing else |
| SledStore.SledConfigStore.InsertU32 | src/config/sled.rs:80-90 | a counter is stored as its four little-endian bytes, and nothing else changes |
| SledStore.SledConfigStore.Remove | src/config/sled.rs:92-102 | removal deletes one key, succeeds when the key is absent, and changes nothing else |
| SledStore.SledConfigStore.AllKeys | src/config/sled.rs:124-146 | the debug dump returns the key sets of both trees |
| SledStore.SledConfigStore.GetState | src/config/sled.rs:150-155 | an absent state document reads as `New`; a present one is deserialized, and a malformed one is an error |
| SledStore.SledConfigStore.Save | src/config/sled.rs:157-162 | saving the state leaves the default tree holding the state document alone, and the sessions tree unchanged |
| SledStore.SledConfigStore.PreKeysOffsetId | src/config/sled.rs:164-166 | the pre-key offset reads 0 when absent, its little-endian value when four bytes long, and panics otherwise |
| SledStore.SledConfigStore.SetPreKeysOffsetId | src/config/sled.rs:168-170 | sets only the pre-key offset's key |
| SledStore.SledConfigStore.NextSignedPreKeyId | src/config/sled.rs:172-174 | the next signed pre-key id reads 0 when absent, its little-endian value when four bytes long, and panics otherwise |
| SledStore.SledConfigStore.SetNextSignedPreKeyId | src/config/sled.rs:176-178 | sets only the next signed pre-key id's key |
| SledStore.SledConfigStore.SaveContacts | src/config/sled.rs:182-189 | sets only the contacts key, to the serialized list |
| SledStore.SledConfigStore.Contacts | src/config/sled.rs:191-197 | absent contacts read as the empty list; present ones are deserialized, and a malformed list is an error |
| SledStore.SledConfigStore.GetPreKey | src/config/sled.rs:202-215 | a missing pre-key is `InvalidPreKeyId`; a present one is deserialized |
| SledStore.SledConfigStore.SavePreKey | src/config/sled.rs:217-226 | sets only the pre-key's key |
| SledStore.SledConfigStore.RemovePreKey | src/config/sled.rs:228-236 | deletes only the pre-key's key, and succeeds when it is absent |
| SledStore.SledConfigStore.GetSignedPreKey | src/config/sled.rs:241-254 | a missing signed pre-key is `InvalidSignedPreKeyId`; a present one is deserialized |
| SledStore.SledConfigStore.SaveSignedPreKey | src/config/sled.rs:256-270 | sets only the signed pre-key's key |
| SledStore.SledConfigStore.LoadSession | src/config/sled.rs:275-299 | a session never stored is `None`, not an error; a stored one is deserialized |
| SledStore.SledConfigStore.StoreSession | src/config/sled.rs:301-323 | sets one key of the sessions tree, leaves the default tree alone, and keeps every sessions key a session key |
| SledStore.SledConfigStore.GetSubDeviceSessions | src/config/sled.rs:328-348 | the ids reported are exactly the parsed remainders of the scanned keys, and each id is reported as many times as there are keys whose remainder parses to it |
| SledStore.SledConfigStore.DeleteSession | src/config/sled.rs:350-364 | removes exactly that address's session, succeeds when it is absent, and touches nothing else |
| SledStore.SledConfigStore.DeleteAllSessions | src/config/sled.rs:366-380 | reports how many sessions the tree held and leaves it empty, whatever the name; the default tree is unchanged |
| SledStore.SledConfigStore.DeleteAllSessionsOf | src/config/sled.rs:366-380 | the name-scoped deletion: a session survives exactly when it was stored and belongs to another name; the count is the number removed |
| SledStore.SledConfigStore.GetIdentityKeyPair | src/config/sled.rs:385-407 | the key pair of a `Registered` state; `WrongState` before registration; an unreadable state is `UnhandledError` |
| SledStore.SledConfigStore.GetLocalRegistrationId | src/config/sled.rs:409-423 | the registration id of a `Registered` state; `WrongState` before registration; an unreadable state is `UnhandledError` |
| SledStore.SledConfigStore.SaveIdentity | src/config/sled.rs:425-439 | stores the peer's identity under its key and always reports `false` |
| SledStore.SledConfigStore.IsTrustedIdentity | src/config/sled.rs:441-458 | an unknown address is trusted; a known one exactly when the stored key equals the given one |
| SledStore.SledConfigStore.GetIdentity | src/config/sled.rs:460-470 | the stored identity, or `None`; a malformed one panics |
| SledStore.ScanStep | src/config/sled.rs:340-346 | one scanned key adds its parsed id, if any, to the ids and to the count reported so far |
| SledStore.CountStep | src/config/sled.rs:340-346 | one scanned key adds one report of its own parsed id and changes no other id's number of reports |
| SledStore.ScanKeepsMatches | src/config/sled.rs:339-344 | restricting the tree to the scanned range loses no reported id |
| StoreProperties.StoredSessionIsScanned | src/config/sled.rs:328-347 | every stored session of a device of `name` is among the ids reported for `name` |
| StoreProperties.ScannedIdHasKey | src/config/sled.rs:339-344 | every reported id comes from a key with the prefix whose remainder parses to it |
| StoreProperties.SubDevicesExact | src/config/sled.rs:328-347 | on a sessions tree written through `store_session`, the ids reported for `name` are exactly the devices of `name` with a session |
| StoreProperties.OneKeyPerId | src/config/sled.rs:112-118 | on a sessions tree of session keys, the only key that can yield device `d` of `name` is the session key of that device |
| StoreProperties.SubDevicesOfWellFormedTree | src/config/sled.rs:301-347 | on a sessions tree written through `store_session`, the scan reports each device of `name` with a session, and reports it once |
| StoreProperties.MatchingOfThree | src/config/sled.rs:339-345 | among three keys of which two yield ids for `name`, the scan matches those two and reports their ids |
| StoreProperties.TwoDevicesAmongThree | src/config/sled.rs:328-347 | two devices of one name and one of another: the scan reports the two, once each |
| StoreProperties.AliceAndAlicebob | src/config/sled.rs:116-118 | sessions for `alice.1`, `alice.2`, `alicebob.1`: the scan for `alice` reports 1 and 2, once each |
| StoreProperties.SaveReplacesDefaultTree | src/config/sled.rs:150-166 | an absent state reads `New`; after `save(s)` the state reads `s`, only the state key is left, counters read 0 and pre-keys are gone; the sessions tree is unchanged |
| StoreProperties.CountersRoundTrip | src/config/sled.rs:164-178 | both counters read back what was set, and no other key changes |
| StoreProperties.FreshCountersAreZero | src/config/sled.rs:164-174 | on a fresh store both counters read 0 and the state reads `New` |
| StoreProperties.ContactsRoundTrip | src/config/sled.rs:181-197 | absent contacts read empty; saved contacts read back; no other key changes |
| StoreProperties.PreKeyLifecycle | src/config/sled.rs:202-236 | a saved pre-key reads back; once removed it is `InvalidPreKeyId`; removing it again changes nothing |
| StoreProperties.SignedPreKeyRoundTrip | src/config/sled.rs:241-270 | a saved signed pre-key reads back; other signed pre-keys read as before, and a missing one is `InvalidSignedPreKeyId` |
| StoreProperties.SignedPreKeyKeepsPreKeys | src/config/sled.rs:202-215 | saving a signed pre-key leaves every pre-key reading as before, the pre-key with the same id included |
| StoreProperties.SessionRoundTrip | src/config/sled.rs:275-323 | a stored session loads back; the session of any other address and the default tree are untouched |
| StoreProperties.SessionDeletion | src/config/sled.rs:275-364 | after deletion a session loads as `None`; only its key has left the sessions tree and the default tree is untouched |
| StoreProperties.DeleteAllSessionsEmptiesTree | src/config/sled.rs:366-380 | the count is the prior size, and afterwards no name has any sub-device |
| StoreProperties.DeleteAllSessionsIgnoresName | src/config/sled.rs:366-380 | deleting all sessions of one peer also deletes another peer's session |
| StoreProperties.DeleteAllSessionsOfKeepsOthers | src/config/sled.rs:366-380 | the name-scoped deletion removes the peer's own session and keeps another peer's |
| StoreProperties.SubDevicesOfStoredSessions | src/config/sled.rs:301-347 | after storing `alice.1`, `alice.2` and `alicebob.1`, the scan for `alice` returns the ids 1 and 2 |
| StoreProperties.TrustOnFirstUse | src/config/sled.rs:425-470 | an unseen address is trusted; after saving (which reports `false`) the key reads back, is trusted, and any other key is not |
| StoreProperties.RegistrationGate | src/config/sled.rs:385-423 | before registration the key pair and registration id are `WrongState`; after it they are the saved ones |
| Cache.CacheMutex.constructor | src/cache.rs:19-25 | `default()` is an empty cell |
| Cache.CacheMutex.Holding | src/cache.rs:13-15 | a cell built around a value holds it |
| Cache.CacheMutex.Get | src/cache.rs:28-36 | a filled slot answers without the factory and keeps its value; an empty one consults the factory, stores success, and stays empty on error |
| Cache.CacheMutex.Clear | src/cache.rs:38-40 | the slot is empty whatever it held |
| Cache.CacheMutex.Clone | src/cache.rs:8-17 | a fresh cell with the same value; the original keeps its value |
| Cache.CloneIsIndependent | src/cache.rs:8-40 | after a clone, clearing and refilling the original leaves the copy answering with the old value without its factory |
| Cache.ClearCopyKeepsOriginal | src/cache.rs:8-40 | clearing a clone leaves the original's value |
| Cache.HelloWorldScenario | src/cache.rs:50-77 | the five `get` results and factory uses of the unit test: computed, cached, cached after clone, recomputed after clear, old value in the clone |
| Cache.FailureIsRetried | src/cache.rs:28-36 | a failing factory stores nothing, so the next `get` consults its factory and succeeds |

Points where the code behaves differently from what its key scheme suggests:

- Peer names may contain `.`. The prefix scan stays exact all the same (`Keys.DeviceSuffixOfSessionKey`): a device id is written in decimal digits, which never contain a dot.
- The scan returns one id per parsing key, not a set. Two keys can give the same id: `session-alice.01` and `session-alice.+1` both give 1, and the scan then reports 1 twice (`SledStore.SledConfigStore.GetSubDeviceSessions` counts the reports of each id). A tree written only through `store_session` never holds such keys, so there every id is reported once (`StoreProperties.SubDevicesOfWellFormedTree`).
- Zero padding keeps key order equal to numeric order only below 10^9. Ten-digit `u32` ids break it (`Keys.PrekeyKeyOrderBreaksAtTenDigits`).
- `get_identity` panics on a malformed stored identity instead of returning an error.

## Left out

- Locking: the `RwLock` and `Mutex` guards and the "poisoned mutex" panics. These concern concurrency; every operation here runs alone.
- Engine failures and their mapping to `InternalError`, including the `expect` on write failures in `save_pre_key` and `remove_pre_key`. The engine is a pair of maps that never fail.
- Opening the database from a path, durability and crashes. `save`'s clear-then-insert is one step here, so the model does not show a reader that sees the tree empty in between.
- Serializers: `serde_json` and the record types' `serialize`, `deserialize` and `decode` are `Codec` parameters, not implementations. A failing `serialize` is not modelled.
- Logging, `async`, and the unused context and direction parameters.
- SledStore.SledConfigStore.GetSubDeviceSessions: does not state the order of the ids. The engine returns them in key byte order; the model visits the scanned keys in an unspecified order.
- SledStore.SledConfigStore.AllKeys: returns sets of keys, not vectors in engine order. Lossy UTF-8 conversion is not modelled, because keys are strings here.
- Keys are strings of characters, not byte strings. Every key the store writes is ASCII apart from peer names.
- The `Arbitrary` test generators and random key generation.

## Findings

| source | as written | input that shows it | evidently intended | confidence | as-written member | corrected member |
|---|---|---|---|---|---|---|
| src/config/sled.rs:366-380 | `delete_all_sessions(name)` clears the whole sessions tree and never uses `name` | store sessions for `alice.1` and `bob.1`, then call `delete_all_sessions("alice")`: the session of `bob.1` is gone | remove only the sessions of `name`'s devices and return how many were removed | medium; not executed | StoreProperties.DeleteAllSessionsIgnoresName | SledStore.SledConfigStore.DeleteAllSessionsOf |
