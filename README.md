# gorilla-session-redis-store, modelled in Dafny

This project models the core of `redistore`, a Redis-backed store for gorilla/sessions (Go), and proves properties of that model:

- **`Redistore`** (`redistore.dfy`, module `Store`). `New` builds a session for a cookie name. It loads the stored values when the request carries a cookie with the session ID. `Save` does one of three things:
  - with `MaxAge <= 0`, it deletes the stored session and emits an empty cookie;
  - for a session without an ID, it generates one, assigns it, and writes only if the key is free (SetNX);
  - for a session with an ID, it overwrites (Set), with a TTL of MaxAge seconds.

  `storeSession` and `loadSession` are the helpers those two call. In no-wait mode the delete or write is dispatched, and `Save` reports success at once.
- **The JSON serializer** (`json_serializer.dfy`). `Marshal` copies the string-keyed values into a fresh map and refuses a non-string key. `Unmarshal` merges decoded pairs into the session's existing values, so existing keys are overwritten and the others kept. `Serialize` and `Deserialize` wrap their errors. The JSON byte format is a codec parameter. `Lossless` states the round trip that the codec is assumed to satisfy.
- **`SessionKey.ToString`** (`session_key.dfy`): the prefix followed by the ID.
- **The default key generator** (`key_generator.dfy`, with Base32 per section 6 of RFC 4648 in `base32.dfy`). It produces 32 random bytes, encodes them in standard base32, and trims the `=` padding. The random source is a parameter: the bytes it delivers before failing.
- **Collaborators.** The Redis client is an in-memory class, `MemoryRedis`, holding a map from storage key to (bytes, TTL). Its `reachable` flag stands for a client error raised before the command reaches the server, so a failed command leaves the map unchanged. gorilla's `Session` is a class with an ID, a value map, options and IsNew.
- **Scenarios** (`scenarios.dfy`). Sequences of calls on one store, proved from the contracts of `New` and `Save`:
  - save then load;
  - delete then load;
  - two new sessions colliding on one ID;
  - last write wins;
  - retry after a collision;
  - the effect of a failed random read.

Four places where the code does less than its own structure suggests; the model follows the code:

- **Failed random read.** `KeyGenerator.GenerateKey` has an error result (Key_generator.go:11), and `Save` treats an error there as fatal (redistore.go:84-87). The default generator never returns one: a failed read yields the empty ID with a nil error (see Findings).
- **Key prefixes.** `KeyPrefix` namespaces the storage keys (redistore.go:18, session_key.go:9). There is no separator, so two prefixes are kept apart only when neither starts the other (`UnrelatedPrefixesIsolate`), and nested prefixes share keys (`NestedPrefixesCollide`).
- **No-wait mode.** The background delete at redistore.go:71 gets its own `SessionKey`, built from the session's ID before the goroutine starts (redistore.go:66-69). The background write at redistore.go:93 gets the session pointer, not a copy of its values. Both goroutines get `r.Context()`, which ends with the request.
- **Retry after a collision.** A new session's ID is assigned at redistore.go:88, before the SetNX at redistore.go:127-136 can fail. After a duplicated-ID failure, the session therefore keeps the colliding ID. Saving the same session object again takes the Set path (redistore.go:116-124) and overwrites the other session's data (`Scenarios.RetryAfterCollision`).

## Model

| member | source | states |
|---|---|---|
| SessionKeys.SessionKey.ToString | session_key.go:8-10 | the key is the prefix followed directly by the ID: its length is the sum, the first part is the prefix and the rest is the ID |
| SessionKeys.ToStringInjective | session_key.go:8-10 | under one prefix, equal storage keys mean equal session IDs |
| SessionKeys.EmptyPrefixKeyIsId | redistore.go:31 | with the default empty prefix the storage key is the session ID itself |
| SessionKeys.DistinctPrefixesSameId | session_key.go:8-10 | the same ID under two different prefixes gives two different keys |
| SessionKeys.UnrelatedPrefixesIsolate | session_key.go:8-10 | when neither prefix starts the other, no two IDs under them share a key |
| SessionKeys.NestedPrefixesCollide | session_key.go:8-10 | with no separator, prefix p with ID x+id and prefix p+x with ID id address the same key |
| Base32.BytesRoundTrip | Key_generator.go:18 | the MSB-first bit string of a byte string converts back to the same bytes |
| Base32.SymbolTable | Key_generator.go:18 | each 5-bit value maps to the RFC 4648 standard-alphabet symbol, which is never `=` and decodes back to the value |
| Base32.SymbolsRoundTrip | Key_generator.go:18 | splitting bits into 5-bit symbols and reading the symbols back gives the same bits |
| Base32.EncodeUnpadded | Key_generator.go:18 | the encoding of n bytes has ceil(8n/5) characters, all from the alphabet |
| Base32.StdEncode | Key_generator.go:18 | `base32.StdEncoding.EncodeToString`: the unpadded symbols followed by `=` up to a multiple of 8 characters |
| Base32.PadTo8 | Key_generator.go:18 | `=` padding makes the length a multiple of 8, keeps the symbols as a prefix and adds fewer than 8 `=` |
| Base32.DecodeUnpadded | Key_generator.go:18 | decoder of the unpadded form: rejects non-alphabet characters, a length leaving five or more bits, and non-zero fill bits; a success gives 5/8 of the length in bytes |
| Base32.DecodeEncode | Key_generator.go:18 | decoding the encoding of any byte string gives back that byte string |
| Base32.EncodeDecode | Key_generator.go:18 | every string the decoder accepts is exactly the encoding of the bytes it decodes to |
| Base32.DecodeIffEncode | Key_generator.go:18 | a string decodes to some bytes if and only if it is the encoding of those bytes |
| Base32.RfcVectorFo | Key_generator.go:18 | the standard encoding of "fo" is "MZXQ====", the test vector of section 10 of RFC 4648, which fixes the bit order and the alphabet |
| Base32.EncodeInjective | Key_generator.go:18 | different byte strings never get the same encoding |
| KeyGenerator.TrimRight | Key_generator.go:18 | the result is a prefix of the input that does not end in the cut character, and everything cut is that character |
| KeyGenerator.TrimPadding | Key_generator.go:18 | trimming `=` from the padded standard encoding leaves exactly the unpadded symbols |
| KeyGenerator.GenerateRandomKey | Key_generator.go:21-28 | the buffer holds exactly `length` bytes, the source's first ones; a source that cannot fill it gives nil |
| KeyGenerator.GenerateKey | Key_generator.go:17-19 | the error is always nil; a full read gives the unpadded base32 of the first 32 bytes; a failed read gives the empty ID |
| KeyGenerator.DefaultKeyShape | Key_generator.go:17-19 | 32 bytes give a 52-character ID from the alphabet, with no `=`, that decodes back to the bytes |
| KeyGenerator.GenerateKeyChecked | Key_generator.go:17-28 | corrected generator: fails exactly when the read fails; otherwise the ID has the default shape and decodes to the bytes read |
| JsonSerializer.StringKeyed | json_serializer.go:44-52 | the copied map has a name exactly when the session has that string key, with the same value |
| JsonSerializer.Lift | json_serializer.go:68-70 | the decoded map seen as session values: string keys only, with the decoded values |
| JsonSerializer.Serialized | json_serializer.go:24-59 | the outcome of serializing session values: no bytes when a key is not a string or the codec fails, otherwise the codec's encoding of the string-keyed copy |
| JsonSerializer.Merge | json_serializer.go:68-70 | the values after the decoded pairs are written into them: the existing values overridden by the decoded ones under string keys |
| JsonSerializer.MergeSemantics | json_serializer.go:68-70 | after a merge, decoded names hold the decoded values, other existing keys keep theirs, and nothing else appears |
| JsonSerializer.MergeStringKeyed | json_serializer.go:43-72 | merging the copied map of string-keyed values into empty values rebuilds exactly those values |
| JsonSerializer.StringKeyedUnique | json_serializer.go:44-52 | any map agreeing pointwise with the string-keyed copy is that copy |
| JsonSerializer.MergeUnique | json_serializer.go:68-70 | any map satisfying the merge's pointwise description is the merge |
| JsonSerializer.DefaultJsonSerde.Marshal | json_serializer.go:43-59 | fails with a non-string-key error exactly when a key is not a string, naming such a key; otherwise gives the codec's encoding of the string-keyed copy, or its failure |
| JsonSerializer.DefaultJsonSerde.Unmarshal | json_serializer.go:61-72 | undecodable bytes are an error and leave the values alone; otherwise the decoded pairs are merged into the existing values |
| JsonSerializer.JsonSerializer.Serialize | json_serializer.go:24-30 | succeeds exactly when Marshal does, with the same bytes; a failure wraps Marshal's error |
| JsonSerializer.JsonSerializer.Deserialize | json_serializer.go:32-38 | succeeds exactly when Unmarshal does, with the same new values; a failure wraps Unmarshal's error |
| RedisClient.MemoryRedis.Get | redis_client.go:12 | an unreachable server is an error; otherwise found iff the key is stored, with its bytes |
| RedisClient.MemoryRedis.Set | redis_client.go:13 | stores the bytes with the TTL under the key, replacing any entry, or fails with nothing changed |
| RedisClient.MemoryRedis.SetNX | redis_client.go:14 | succeeds iff the key was absent and only then stores; a refusal or a failure changes nothing |
| RedisClient.MemoryRedis.Del | redis_client.go:15 | removes the key and nothing else, or fails with nothing changed |
| Store.Load | redistore.go:140-157 | the outcome of loading a session: a transport error fails; an absent key is absent; undecodable bytes fail; otherwise the decoded pairs merged into the current values |
| Store.Write | redistore.go:116-137 | the store and error after `storeSession`'s write: Set replaces the entry, SetNX stores only under a free key and otherwise names the duplicated ID, and an unreachable server changes nothing |
| Store.WriteSemantics | redistore.go:110-138 | a write touches only the session's key; it succeeds iff the server is reachable and overwriting is allowed or the key is free, and a failed write changes nothing |
| Store.Redistore.MakeDefaultWithGoRedisV9 | redistore.go:23-35 | path "/", MaxAge thirty days, empty prefix, the JSON serializer, synchronous writes |
| Store.Redistore.New | redistore.go:43-62 | without a cookie: a new empty session with the store's options, and the store untouched; with one: the ID is the cookie value, and found values clear IsNew, an absent key keeps it new, a load error gives no session |
| Store.Redistore.Save | redistore.go:64-103 | per path: delete and empty cookie; ID generation failure; the ID assigned before a SetNX-only-if-free write; overwrite for known IDs; no-wait dispatch with an unchanged store; a cookie only on success |
| Store.Redistore.StoreSession | redistore.go:110-138 | a serialization failure writes nothing; otherwise Set or SetNX under the session's key with a TTL of MaxAge, and a refused SetNX names the duplicated ID |
| Store.Redistore.LoadSession | redistore.go:140-157 | a client error is an error; an absent key is "not found" without error; found bytes are merged into the values, and undecodable ones are an error |
| Store.SaveThenLoad | redistore.go:140-157 | with a lossless codec, a session written under its key loads back with exactly the saved values, whatever else the store holds |
| Store.DeleteThenLoad | redistore.go:65-79 | after its key is deleted a session loads as absent |
| Scenarios.SaveThenNew | redistore.go:43-103 | a saved session, requested again with the emitted cookie, comes back not new with the same ID and values |
| Scenarios.DeleteThenNew | redistore.go:65-80 | saving with MaxAge <= 0 emits an empty cookie, and the old ID then loads as a new, empty session |
| Scenarios.CollidingFirstSaves | redistore.go:82-98 | two new sessions given the same ID: the first is stored, the second fails with a duplicated-ID error and leaves the first's data |
| Scenarios.OverwriteLastWins | redistore.go:116-125 | saving a known session twice leaves the second serialization in the store |
| Scenarios.RetryAfterCollision | redistore.go:82-90 | after a duplicated-ID failure the session keeps the colliding ID, so saving it again overwrites the other session's data |
| Scenarios.EntropyFailure | Key_generator.go:17-28 | a failed random read stores a new session under the bare prefix with an empty cookie, and any request whose cookie of any name is empty loads its values |

## Left out

- **HTTP cookie mechanics.** `r.Cookie` becomes a map from cookie name to value. `http.SetCookie` becomes the returned `Cookie`. Cookie attributes other than path and MaxAge are not modelled.
- **Concurrency.** No-wait mode's goroutines are not modelled. `Save` returns the operation it dispatched (`Dispatched`) and leaves the store unchanged. Races between concurrent requests, and between the goroutine and later mutation of the session, are not modelled.
- **The request context.** It is not modelled, and neither is cancellation.
- **`Get`** (redistore.go:38-40) delegates to gorilla's per-request registry, which is not part of this model.
- **`Close`** (redistore.go:106-108) only closes the connection.
- **`GoRedisV9Client`** (redis_client.go:19-64) is replaced by `MemoryRedis`. A real connection, its error texts and `redis.Nil` are represented by the `reachable` flag and `found`.
- **TTL.** The TTL is recorded, but key expiry over time is not modelled, since no clock is modelled.
- **RedisClient.MemoryRedis:** a client error is modelled as a command that was not applied. An error reported after Redis applied the SET, SETNX or DEL (a timeout, a cancelled context) is not modelled. So `Store.WriteSemantics`' "a failed write changes nothing", and the unchanged store on `Save`'s `SetFailed`, `SetNXFailed` and `DeleteFailed` paths, hold only for failures before the server.
- **Store.Redistore.StoreSession:** records the TTL as MaxAge seconds. It does not model the int64 nanosecond overflow of `time.Duration(MaxAge) * time.Second` for MaxAge above 9223372036.
- **JSON byte format.** go-json's byte format is not modelled. The codec is a pair of functions, and `Lossless` is assumed where round trips are proved. Values whose JSON type changes on decode (numbers becoming float64) are outside `Lossless`.
- **Error texts.** Error messages are replaced by error constructors that name the failed phase.
- **Pluggable implementations.** Other `KeyGenerator` and `JSONSerde` implementations are not modelled. `Save` takes the generator's outcome as a parameter, and the serializer is the default one.
- **crypto/rand.** The random source becomes a parameter: the bytes delivered before the read fails.
- **Map iteration order.** Go's nondeterministic order in `Marshal` and `Unmarshal` is modelled by picking any remaining key.
- **JsonSerializer.DefaultJsonSerde.Marshal:** when several keys are not strings, it names some non-string key, not the one Go's iteration happens to reach first.

## Findings

| source | as written | input that shows it | evidently intended | confidence | as-written member | corrected member |
|---|---|---|---|---|---|---|
| Key_generator.go:17-28 | when the random read fails, `generateRandomKey` returns nil, and `GenerateKey` returns the base32 of nil (the empty string) with a nil error; `Save` then stores the new session under the bare prefix and every such session shares that ID | a random source that delivers fewer than 32 bytes | `GenerateKey` reports the failed read as an error, so `Save` fails with a generation error | not executed | KeyGenerator.GenerateKey | KeyGenerator.GenerateKeyChecked |
