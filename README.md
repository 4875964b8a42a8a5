# leveldbraft replication storage, modelled in Dafny

This project models the storage side of a small replicated key-value
service that uses a Raft consensus library. It covers five parts.

- **The log and stable store** (`LevelDBStore`). It keeps the consensus
  log and the node's durable variables in an embedded ordered key-value
  engine (goleveldb).
  - Log records sit under the 8-byte big-endian form of their index.
    Their bytes are produced by a MessagePack codec.
  - The engine is modelled as a map from byte keys to byte values. Its
    keys are ordered by the engine's bytewise comparer (`Bytes.KeyLess`).
  - Batches are the unit of atomicity.
  - Any failure the engine reports is passed in as a parameter.
  - The central lemma is `Bytes.KeyOrderIsIndexOrder`: on 8-byte keys,
    the comparer's order is the numeric order of the indices. `FirstIndex`,
    `LastIndex` and the inclusive `DeleteRange` rest on it.
- **The in-memory cache** (`cache`). This is the replica state: a
  string-to-string map. It is written to snapshots as JSON and read back
  from them.
- **The state machine** (`FSM`).
  - It decodes each committed record's JSON command (`set` or `del`) and
    applies it to the cache.
  - A record that does not decode panics. The model keeps this as an
    absorbing `Halted` state.
  - `Fsm.Replay` is the reference state of a replica after a log.
    `FSM.Apply` is proved against it.
  - Lemmas prove that replay composes, and that restoring a persisted
    snapshot and then applying the rest of the log gives the same state
    as replaying the whole log.
- **The snapshot writer** (`snapshot`).
  - `Persist` writes the cache's JSON to a sink and then closes it. It
    cancels the sink on the first failure.
  - The sink records the events it sees.
  - `Snapshots.Persisted` states the protocol exactly: what the sink sees
    and what error comes back, in each case.
  - `Release` does nothing, and is modelled as a method with an empty
    body.
- **The node facade** (`RaftNodeInfo`).
  - `Set` and `Delete` submit encoded commands and pass the submission's
    error through.
  - `Get` reads the local cache.
  - `Join` asks for a voter whose ID and address are both the peer
    string.
  - The leadership flag follows leader notifications, and the last one
    wins.

The JSON texts are modelled as sequences of already-parsed top-level
values (`Json.Value`). The MessagePack encoding of a log record is a
concrete fixed layout (`LogCodec`). Like MessagePack's `bin 32` format, it
cannot carry a payload of 2^32 bytes or more. Both codecs come with
round-trip lemmas (`LogCodec.MsgPackRoundTrip` and `Json.MapRoundTrip`).

Two behaviours of the code are modelled as written:

- `DeleteRange` computes its exclusive limit as `max + 1` in wrapping
  64-bit arithmetic. So `DeleteRange(min, 2^64-1)` deletes nothing
  (`Store.DeleteRangeTopIsEmpty`), although the comment calls the range
  inclusive.
- `FirstIndex` and `LastIndex` return 0 with no error when the iterator
  fails, as they do on an empty store.

## Model

| member | source | states |
|---|---|---|
| Bytes.EncodeBEDecodes | store/store.go:89-108 | reading back the fixed-width big-endian form of a number gives the number |
| Bytes.BytesToUint64 | store/store.go:107 | reads the first eight bytes, most significant first (the first byte is the leading base-256 digit); fewer than eight are excluded because the big-endian reader panics |
| Bytes.Uint64ToBytes | store/store.go:89-93 | the key of an index is 8 bytes and reads back as that index |
| Bytes.KeyRoundTrip | store/store.go:116-119 | an 8-byte key read as an index and encoded again is the same key |
| Bytes.DecodeBEInjective | store/store.go:107 | two equal-length byte strings with the same big-endian value are equal |
| Bytes.KeyLessIrreflexive | store/store.go:116-118 | no key sorts before itself in the engine's order |
| Bytes.KeyLessTransitive | store/store.go:116-118 | the engine's key order is transitive |
| Bytes.KeyLessConnected | store/store.go:116-118 | any two distinct keys are ordered one way or the other |
| Bytes.DecodeBEMonotone | store/store.go:112-135 | on equal-length keys the comparer's order is exactly the order of their big-endian values |
| Bytes.KeyOrderIsIndexOrder | store/store.go:112-135 | on 8-byte keys the engine's order is exactly the numeric order of the indices they name |
| Bytes.IndexOrderIsKeyOrder | store/store.go:178-181 | encoding indices as keys preserves and reflects their order |
| Bytes.LeastKey | store/store.go:116-119 | the iterator's first key is in the set and sorts before every other key |
| Bytes.GreatestKey | store/store.go:128-132 | the iterator's last key is in the set and sorts after every other key |
| LogCodec.EncodeMsgPack | store/store.go:163-166 | encoding fails exactly when the payload is too long for the format, and the failure is an opaque error |
| LogCodec.DecodeMsgPack | store/store.go:148 | decoding fails with an opaque error, never the not-found sentinel; in the fixed-layout stand-in a decoded record's payload fills the rest of the input |
| LogCodec.MsgPackRoundTrip | store/store.go:138-171 | every encodable record decodes back to itself |
| Store.LogBatchIndices | store/store.go:156-171 | committing the batch of `StoreLogs` adds exactly the records' indices to the stored ones and keeps a store of 8-byte index keys so |
| Store.ReadLog | store/store.go:141-148 | a read gives the not-found sentinel exactly when no key holds the index; any other failure is an opaque error |
| Store.LogBatchSucceeds | store/store.go:161-167 | the batch of `StoreLogs` exists exactly when every record encodes |
| Store.LogBatchContents | store/store.go:161-168 | the batch holds, at each position, the `Put` of that record's encoding under its index key |
| Store.LogBatchFails | store/store.go:161-166 | when the batch does not exist, the error is that of the first record that fails to encode |
| Store.LogBatchPrefixFails | store/store.go:163-166 | a failing prefix decides the outcome for the whole list |
| Store.StoredLogsReadable | store/store.go:157-171 | after the batch commits, each index given reads back as the last record given for it, and every other index reads as before |
| Store.StoredLogReadable | store/store.go:157-171 | with distinct indices, every stored record reads back as itself |
| Store.WrapInc | store/store.go:180 | `max + 1` is the successor below the top index and wraps to 0 at the top |
| Store.DeleteRangeSelectsInclusive | store/store.go:173-192 | below the top index, the scan selects an index key exactly when `min <= index <= max` |
| Store.DeleteRangeTopIsEmpty | store/store.go:178-181 | with `max` the top index the scan range is empty whatever `min` and the contents are |
| Store.ReadLogAfterDeleteRange | store/store.go:173-192 | after the delete, indices in `[min, max]` read as not found and all others read as before |
| Store.LeastKeyIsFirstIndex | store/store.go:110-122 | on a log store the first key names the smallest stored index |
| Store.GreatestKeyIsLastIndex | store/store.go:124-135 | on a log store the last key names the largest stored index |
| Store.LevelDBStore.Open | store/store.go:54-60 | an opened store holds the database's contents |
| Store.LevelDBStore.Write | store/store.go:170 | a batch commits as a whole, or the engine's error is returned and nothing changes |
| Store.LevelDBStore.Set | store/store.go:66-71 | binds the key to the value, or returns the engine's error and changes nothing |
| Store.LevelDBStore.Get | store/store.go:73-86 | returns the bound value; an absent key gives the store's own not-found error, distinct from an engine failure |
| Store.LevelDBStore.SetUint64 | store/store.go:88-93 | stores the 8-byte form of the value, which reads back as the value |
| Store.LevelDBStore.GetUint64 | store/store.go:95-108 | returns 0 with not-found for an absent key, the engine's error on failure, and the stored number otherwise |
| Store.LevelDBStore.FirstIndex | store/store.go:110-122 | returns 0 on an empty store or a failed iterator; otherwise the index of the first key, which on a log store (only 8-byte keys) is the smallest stored index |
| Store.LevelDBStore.LastIndex | store/store.go:124-135 | returns 0 on an empty store or a failed iterator; otherwise the index of the last key, which on a log store (only 8-byte keys) is the largest stored index |
| Store.LevelDBStore.GetLog | store/store.go:137-149 | returns the engine's error, or the not-found sentinel for an absent index, or the decoded record |
| Store.LevelDBStore.StoreLogs | store/store.go:156-171 | a record that fails to encode returns its error with nothing written; otherwise the whole batch commits or nothing does; a commit adds exactly the records' indices, and a log store stays a log store |
| Store.LevelDBStore.StoreLog | store/store.go:151-154 | behaves exactly as `StoreLogs` of the one record, so a commit adds exactly its index |
| Store.LevelDBStore.DeleteRange | store/store.go:173-192 | removes exactly the keys in the scan range in one batch, or returns the engine's error and changes nothing |
| Json.SortedKeysSpec | store/memcache.go:46-50 | the keys `json.Marshal` writes are exactly the map's keys, in strictly increasing order |
| Json.LeastString | store/memcache.go:49 | the scan finds the least key of a non-empty set |
| Json.SortKeys | store/memcache.go:49 | the key sort yields the keys in the order the encoder writes them |
| Json.MapOf | store/memcache.go:53-56 | the decoded map has exactly the members' names as keys; any failure is an opaque error |
| Json.DecodeMap | store/memcache.go:52-56 | decoding a snapshot fails only with an opaque error |
| Json.MembersDecode | store/memcache.go:46-61 | the members written for a list of keys decode to the map restricted to those keys |
| Json.EncodeMapShape | store/memcache.go:46-50 | the encoding is one object whose members are the map's entries, in strictly increasing key order |
| Json.MapRoundTrip | store/memcache.go:46-61 | decoding what the encoder wrote gives the same map back, the empty map included |
| MemCache.Source.Close | store/fsm.go:73 | a closed stream is marked closed |
| MemCache.Cache.constructor | store/memcache.go:22-26 | a new cache is empty |
| MemCache.Cache.Set | store/memcache.go:27-32 | binds the key, leaves every other key alone and never fails |
| MemCache.Cache.Get | store/memcache.go:34-39 | returns the value and true for a present key, and the empty string and false otherwise |
| MemCache.Cache.Del | store/memcache.go:40-44 | removes the key and nothing else; an absent key is a no-op |
| MemCache.Cache.Marshal | store/memcache.go:46-50 | yields the map's JSON encoding and never fails |
| MemCache.Cache.UnMarshal | store/memcache.go:52-61 | on a decoding error returns it and keeps the map; on success replaces the whole map with the decoded one |
| Snapshots.Sink.Write | store/snapshot.go:18-20 | the sink records the write, or its failure, and reports its error |
| Snapshots.Sink.Close | store/snapshot.go:22-24 | the sink records the close, or its failure, and reports its error |
| Snapshots.Sink.Cancel | store/snapshot.go:29 | the sink records the cancellation |
| Snapshots.Persisted | store/snapshot.go:10-33 | the sink is cancelled exactly when an error is returned, once and last; it is closed only after it got the marshalled text; on success it got exactly that text and then a close; the error is the failing step's, unchanged |
| Snapshots.PersistMarshalled | store/snapshot.go:12-33 | the sink sees exactly the protocol's events and the protocol's error comes back |
| Snapshots.Snapshot.constructor | store/fsm.go:66 | the handle refers to the given cache |
| Snapshots.Snapshot.Persist | store/snapshot.go:10-34 | the cache's contents at persist time are written with the protocol's events and error |
| Snapshots.Snapshot.Release | store/snapshot.go:36 | has no effect: it changes no state |
| Fsm.EntryOf | store/fsm.go:44-47 | decoding an object's fields fails only with an opaque error |
| Fsm.DecodeEntry | store/fsm.go:44-47 | a command decodes only from a text that is exactly one well-formed object |
| Fsm.EntryRoundTrip | store/fsm.go:33-47 | every encoded command decodes back to itself |
| Fsm.Transition | store/fsm.go:49-54 | `set` binds the key to the value, `del` removes the key, any other operation changes nothing, and no other key is touched |
| Fsm.ReplayHaltedStays | store/fsm.go:45-47 | a panicked replica applies nothing more |
| Fsm.ReplayAppend | store/fsm.go:43-57 | replaying a log in two pieces equals replaying it whole |
| Fsm.ReplayHaltsIffUndecodable | store/fsm.go:43-57 | a running replica stops exactly when some record of its log does not decode |
| Fsm.SnapshotCatchUp | store/fsm.go:59-75 | restoring a snapshot persisted after a log prefix and then applying the rest gives the state of replaying the whole log |
| Fsm.FSM.constructor | store/fsm.go:18-20 | a new state machine runs over the given cache |
| Fsm.FSM.Apply | store/fsm.go:43-57 | the new replica state is one replay step from the old; an undecodable record halts with the cache unchanged; otherwise the command's transition is applied and the result is nil |
| Fsm.FSM.Snapshot | store/fsm.go:65-67 | returns a new handle on the live cache, not a copy, with no error |
| Fsm.FSM.Restore | store/fsm.go:72-75 | returns exactly the cache's unmarshal result, replacing or keeping the cache accordingly, and closes the stream either way |
| Cluster.FlagFor | cluster/cluster.go:125-132 | a notification stores the enabling value exactly when it says leader |
| Cluster.LastWriteWins | cluster/cluster.go:121-134 | after a non-empty run of notifications the flag enables writes exactly when the last one said leader; with none it is unchanged |
| Cluster.Raft.Apply | cluster/cluster.go:69-73 | the command is recorded as submitted and the future's error is returned |
| Cluster.Raft.AddVoter | cluster/cluster.go:110-114 | the voter is recorded as requested and the future's error is returned |
| Cluster.RaftNodeInfo.constructor | cluster/cluster.go:208-214 | a new node's flag holds the disabling value, so it starts as a follower |
| Cluster.RaftNodeInfo.Set | cluster/cluster.go:56-75 | submits the encoded `set` command for the key and value, and passes the submission's error through unchanged |
| Cluster.RaftNodeInfo.Delete | cluster/cluster.go:77-95 | submits the encoded `del` command for the key with an empty value, and passes the submission's error through unchanged |
| Cluster.RaftNodeInfo.Get | cluster/cluster.go:97-101 | answers exactly as the local cache does |
| Cluster.RaftNodeInfo.Join | cluster/cluster.go:108-116 | requests a voter whose ID and address are both the peer string, and passes the error through |
| Cluster.RaftNodeInfo.IsLeader | cluster/cluster.go:118-120 | true exactly when the flag holds the enabling value |
| Cluster.RaftNodeInfo.Notify | cluster/cluster.go:125-132 | one notification stores the flag value for it |
| Cluster.RaftNodeInfo.MonitorLeadship | cluster/cluster.go:121-135 | after the notifications received so far, the flag is what they give in order |
| Cluster.SetCommandApplies | cluster/cluster.go:56-75 | once applied, the submitted `set` command binds the key to the value on a running replica, and nothing else changes |
| Cluster.DeleteCommandApplies | cluster/cluster.go:77-95 | once applied, the submitted `del` command removes the key on a running replica, and nothing else changes |

## Left out

- Locking and atomics are not modelled: `sync.RWMutex`, `atomic.LoadInt32`/`StoreInt32`, the `MonitorLeadship` goroutine and its channel. The model is sequential, so races are out of scope. These include `Del` taking only a read lock and `Marshal` releasing its lock at once. `MonitorLeadship` is modelled over the notifications received so far.
- Byte-level formats are replaced by stand-ins. The MessagePack format is a fixed layout with the same failure condition as `bin 32`. JSON texts are sequences of parsed values. Only the properties stated above are claimed for either.
- LogCodec.DecodeMsgPack: the stand-in is canonical and reads the whole input. Real MessagePack decoding is not canonical, since an integer has several encodings and a struct's fields may come in any order, and it reads one value and ignores trailing bytes. The model claims neither property for the real decoder.
- LogCodec.EncodeMsgPack: the record's `Extensions` and `AppendedAt` fields are not carried. Only index, term, kind and payload are.
- Json.DecodeMap: JSON `null` is treated as an error. Go decodes `null` into a nil map with no error, and a later `Set` on that map would panic. A member whose value is `null`, as in `{"a":null}`, is an error here too (`Json.MapOf`); Go decodes it to `"a"` bound to the empty string with no error.
- Fsm.DecodeEntry: JSON `null`, as the whole text or as a field's value, is treated as an error. Go treats it as leaving the fields unchanged. Field names match exactly here, while Go also accepts other capitalisations.
- Invalid UTF-8 in keys and values is not modelled. Strings are sequences of characters.
- Cluster.RaftNodeInfo.Set and Cluster.RaftNodeInfo.Delete do not model the error branch of `json.Marshal`. Encoding a `LogEntryData` of strings cannot fail.
- The 5-second apply timeout is not modelled, and neither are the futures' internals. A submission's outcome is a parameter.
- Store.LevelDBStore.FirstIndex and Store.LevelDBStore.LastIndex require the first or last key to have at least 8 bytes. On a shorter key the source's big-endian read panics.
- Store.LevelDBStore.GetUint64 requires a stored value of at least 8 bytes for the same reason.
- Store.LevelDBStore.DeleteRange collects the keys of the range in an unspecified order, where the iterator visits them in key order. The batch only deletes, so the resulting contents are the same. Iterator errors during the scan are ignored by the source and are not modelled.
- Store.LevelDBStore.Set, StoreLogs and DeleteRange model engine failures as one error for the whole operation. Partial disk writes are not modelled.
- `New`'s opening of the database file, and that opening's failure, are not modelled, nor are `Close`, `NewLevelDBStableLogStore` and `NewLevelDBCommitLogStore`; they open and close files. `Store.LevelDBStore.Open` stands for a successful `New` over existing contents.
- `Members`, `NewRaftNode`, `newTransport` and `JoinCluster` are not modelled: they are network, filesystem and consensus-library setup. The flag's zero value from `NewRaftNode` is modelled in the `RaftNodeInfo` constructor.
- Logging is not modelled.
- The HTTP layer, command-line entry point and store options are not part of this model.
