/**
 * `Redistore` (redistore.go): the session store. `New` creates or loads a session from
 * the cookie carrying its ID; `Save` deletes it (MaxAge <= 0), or writes it, first
 * allocating an ID and writing only if that ID is free, later overwriting.
 */
module Store {
  import opened Types
  import opened Sessions
  import opened SessionKeys
  import opened JsonSerializer
  import opened RedisClient
  import opened KeyGenerator

  /** Errors of `loadSession`, and so of `New`, each naming the failed phase. */
  datatype LoadError =
    | GetFailed(clientError: ClientError)
    | DeserializeOnLoadFailed(serializerError: SerializerError)

  /** Errors of `storeSession`, each naming the failed phase. */
  datatype StoreError =
    | SerializeOnStoreFailed(serializerError: SerializerError)
    | SetFailed(clientError: ClientError)
    | SetNXFailed(clientError: ClientError)
    | DuplicatedId(id: string)

  /** Errors of `Save`. */
  datatype SaveError =
    | DeleteFailed(key: string, clientError: ClientError)
    | GenerateIdFailed
    | StoreFailed(storeError: StoreError)

  /** The store operation handed to a goroutine in no-wait mode, whose outcome nobody observes. */
  datatype Dispatched = BackgroundDel(key: SessionKey) | BackgroundStore(id: string, allowOverwrite: bool)

  /** What reading a session from the store gives. */
  datatype Loaded = Absent | Found(values: map<Key, Value>) | LoadFailed(error: LoadError)

  /**
   * Loading `key` from a store holding `entries` into a session whose values are `current`:
   * an unreachable store and undecodable bytes are errors, an absent key is not.
   */
  function Load(entries: map<string, Entry>, reachable: bool, key: SessionKey, codec: JsonCodec,
                current: map<Key, Value>): Loaded
  {
    if !reachable then LoadFailed(GetFailed(Unreachable))
    else if key.ToString() !in entries then Absent
    else match codec.decode(entries[key.ToString()].data)
      case None => LoadFailed(DeserializeOnLoadFailed(DeserializeFailed(DecodeFailed)))
      case Some(decoded) => Found(Merge(current, decoded))
  }

  /**
   * The store after `storeSession` writes `entry` under `key`, and its error: an unconditional
   * Set when overwriting is allowed, otherwise a SetNX whose refusal is an error naming `id`.
   */
  function Write(entries: map<string, Entry>, reachable: bool, key: string, id: string, entry: Entry,
                 allowOverwrite: bool): (map<string, Entry>, Option<StoreError>)
  {
    if !reachable then
      (entries, Some(if allowOverwrite then SetFailed(Unreachable) else SetNXFailed(Unreachable)))
    else if allowOverwrite || key !in entries then (entries[key := entry], None)
    else (entries, Some(DuplicatedId(id)))
  }

  /** Writing leaves every other key alone, and either stores the entry or changes nothing. */
  lemma WriteSemantics(entries: map<string, Entry>, reachable: bool, key: string, id: string, entry: Entry,
                       allowOverwrite: bool)
    ensures var (after, err) := Write(entries, reachable, key, id, entry, allowOverwrite);
      && (forall k :: k != key ==> (k in after <==> k in entries))
      && (forall k :: k != key && k in after ==> after[k] == entries[k])
      && (err == None <==> reachable && (allowOverwrite || key !in entries))
      && (err == None ==> key in after && after[key] == entry)
      && (err != None ==> after == entries)
  {
  }

  /** The options `MakeDefaultWithGoRedisV9` installs: path "/" and thirty days. */
  const DefaultOptions: Options := Options("/", 86400 * 30)

  class Redistore {
    var client: MemoryRedis
    var options: Options
    var keyPrefix: string
    var serializer: JsonSerializer
    var noWaitWritingMode: bool

    /** `MakeDefaultWithGoRedisV9`: no prefix, thirty-day cookies, JSON, synchronous writes. */
    constructor MakeDefaultWithGoRedisV9(client: MemoryRedis, codec: JsonCodec)
      ensures this.client == client && options == DefaultOptions && keyPrefix == ""
      ensures serializer == JsonSerializer(DefaultJsonSerde(codec)) && !noWaitWritingMode
    {
      this.client := client;
      options := DefaultOptions;
      keyPrefix := "";
      serializer := JsonSerializer(DefaultJsonSerde(codec));
      noWaitWritingMode := false;
    }

    function Codec(): JsonCodec
      reads this
    {
      serializer.serde.codec
    }

    /** The storage key of session `id` under this store's prefix. */
    function StorageKey(id: string): string
      reads this
    {
      SessionKey(keyPrefix, id).ToString()
    }

    /**
     * `New`: a session marked new, with its own copy of the store's options. Without a cookie
     * for `name` it is returned as is, without touching the store; with one, its ID is the
     * cookie's value and it is loaded: found values clear IsNew, an absent key keeps the
     * session new, and a load error gives no session at all.
     */
    method New(cookies: map<string, string>, name: string) returns (session: Session?, err: Option<LoadError>)
      ensures name !in cookies ==>
        && err == None && session != null && fresh(session)
        && session.name == name && session.id == "" && session.values == map[]
        && session.isNew && session.options == options
      ensures name in cookies ==>
        match Load(client.entries, client.reachable, SessionKey(keyPrefix, cookies[name]), Codec(), map[])
        case LoadFailed(e) => session == null && err == Some(e)
        case Absent =>
          && err == None && session != null && fresh(session)
          && session.name == name && session.id == cookies[name] && session.values == map[]
          && session.isNew && session.options == options
        case Found(v) =>
          && err == None && session != null && fresh(session)
          && session.name == name && session.id == cookies[name] && session.values == v
          && !session.isNew && session.options == options
    {
      session := new Session(name);
      session.options := options;
      session.isNew := true;
      if name !in cookies {
        return session, None;
      }
      session.id := cookies[name];
      var found, e := LoadSession(session);
      if e.Some? {
        return null, e;
      }
      session.isNew := !found;
      return session, None;
    }

    /**
     * `Save`. With MaxAge <= 0 it deletes the stored session and emits an empty cookie. Otherwise
     * a session without an ID gets a generated one, assigned before the write, and is written only
     * if that key is free; a session with an ID overwrites its key. The cookie carries the ID.
     * In no-wait mode the delete or write is dispatched and Save reports success at once.
     */
    method Save(session: Session, generated: Result<string, GeneratorError>)
      returns (err: Option<SaveError>, cookie: Option<Cookie>, dispatched: Option<Dispatched>)
      modifies session, client
      ensures session.values == old(session.values) && session.options == old(session.options)
      ensures session.isNew == old(session.isNew) && client.reachable == old(client.reachable)
      // The cookie is emitted exactly when Save succeeds.
      ensures err == None ==>
        cookie == Some(Cookie(session.name, if old(session.options.maxAge) <= 0 then "" else session.id, session.options))
      ensures err != None ==> cookie == None && dispatched == None
      // Deletion.
      ensures old(session.options.maxAge) <= 0 ==> session.id == old(session.id)
      ensures old(session.options.maxAge) <= 0 && noWaitWritingMode ==>
        && err == None && client.entries == old(client.entries)
        && dispatched == Some(BackgroundDel(SessionKey(keyPrefix, session.id)))
      ensures old(session.options.maxAge) <= 0 && !noWaitWritingMode ==>
        && dispatched == None
        && (old(client.reachable) ==> err == None && client.entries == old(client.entries) - {StorageKey(session.id)})
        && (!old(client.reachable) ==>
              err == Some(DeleteFailed(StorageKey(session.id), Unreachable)) && client.entries == old(client.entries))
      // Choosing the ID.
      ensures old(session.options.maxAge) > 0 && old(session.id) == "" && generated.Failure? ==>
        err == Some(GenerateIdFailed) && session.id == "" && client.entries == old(client.entries)
      ensures old(session.options.maxAge) > 0 && old(session.id) == "" && generated.Success? ==>
        session.id == generated.value
      ensures old(session.id) != "" ==> session.id == old(session.id)
      // Writing.
      ensures old(session.options.maxAge) > 0 && (old(session.id) != "" || generated.Success?) && noWaitWritingMode ==>
        && err == None && client.entries == old(client.entries)
        && dispatched == Some(BackgroundStore(session.id, old(session.id) != ""))
      ensures old(session.options.maxAge) > 0 && (old(session.id) != "" || generated.Success?) && !noWaitWritingMode ==>
        && dispatched == None
        && match Serialized(Codec(), session.values)
           case None =>
             && client.entries == old(client.entries)
             && err.Some? && err.value.StoreFailed? && err.value.storeError.SerializeOnStoreFailed?
             && SerializeErrorFor(Codec(), session.values, err.value.storeError.serializerError)
           case Some(b) =>
             var (after, e) := Write(old(client.entries), old(client.reachable), StorageKey(session.id), session.id,
                                     Entry(b, session.options.maxAge), old(session.id) != "");
             client.entries == after && err == (if e.Some? then Some(StoreFailed(e.value)) else None)
    {
      dispatched := None;
      if session.options.maxAge <= 0 {
        var key := SessionKey(keyPrefix, session.id);
        if noWaitWritingMode {
          dispatched := Some(BackgroundDel(key));
        } else {
          var e := client.Del(key);
          if e.Some? {
            return Some(DeleteFailed(key.ToString(), e.value)), None, None;
          }
        }
        return None, Some(Cookie(session.name, "", session.options)), dispatched;
      }

      var allowOverwrite := true;
      if session.id == "" {
        if generated.Failure? {
          return Some(GenerateIdFailed), None, None;
        }
        session.id := generated.value;
        allowOverwrite := false;
      }

      if noWaitWritingMode {
        dispatched := Some(BackgroundStore(session.id, allowOverwrite));
      } else {
        var e := StoreSession(session, allowOverwrite);
        if e.Some? {
          return Some(StoreFailed(e.value)), None, None;
        }
      }
      return None, Some(Cookie(session.name, session.id, session.options)), dispatched;
    }

    /**
     * `storeSession`: serializes the session, then writes it under its key with a TTL of
     * MaxAge seconds, by Set when overwriting is allowed and by SetNX otherwise.
     */
    method StoreSession(session: Session, allowOverwrite: bool) returns (err: Option<StoreError>)
      modifies client
      ensures client.reachable == old(client.reachable)
      ensures Serialized(Codec(), session.values).None? ==>
        && client.entries == old(client.entries)
        && err.Some? && err.value.SerializeOnStoreFailed?
        && SerializeErrorFor(Codec(), session.values, err.value.serializerError)
      ensures Serialized(Codec(), session.values).Some? ==>
        (client.entries, err) == Write(old(client.entries), old(client.reachable), StorageKey(session.id), session.id,
                                       Entry(Serialized(Codec(), session.values).value, session.options.maxAge),
                                       allowOverwrite)
    {
      var b := serializer.Serialize(session);
      if b.Failure? {
        return Some(SerializeOnStoreFailed(b.error));
      }
      var key := SessionKey(keyPrefix, session.id);
      if allowOverwrite {
        var e := client.Set(key, b.value, session.options.maxAge);
        if e.Some? {
          return Some(SetFailed(e.value));
        }
        return None;
      }
      var succeeded, e := client.SetNX(key, b.value, session.options.maxAge);
      if e.Some? {
        return Some(SetNXFailed(e.value));
      }
      if !succeeded {
        return Some(DuplicatedId(session.id));
      }
      return None;
    }

    /**
     * `loadSession`: reads the session's key; an absent key reports "not found" without
     * error and leaves the values alone, found bytes are merged into the values.
     */
    method LoadSession(session: Session) returns (found: bool, err: Option<LoadError>)
      modifies session
      ensures session.id == old(session.id) && session.options == old(session.options)
      ensures session.isNew == old(session.isNew)
      ensures match Load(client.entries, client.reachable, SessionKey(keyPrefix, session.id), Codec(), old(session.values))
        case Absent => !found && err == None && session.values == old(session.values)
        case Found(v) => found && err == None && session.values == v
        case LoadFailed(e) => !found && err == Some(e) && session.values == old(session.values)
    {
      var data, present, e := client.Get(SessionKey(keyPrefix, session.id));
      if e.Some? {
        return false, Some(GetFailed(e.value));
      }
      if !present {
        return false, None;
      }
      var de := serializer.Deserialize(data, session);
      if de.Some? {
        return false, Some(DeserializeOnLoadFailed(de.value));
      }
      return true, None;
    }
  }

  /**
   * A session written with a lossless codec loads back with exactly the values it was saved with,
   * whatever else the store holds.
   */
  lemma SaveThenLoad(entries: map<string, Entry>, key: SessionKey, codec: JsonCodec, values: map<Key, Value>, ttl: int)
    requires Lossless(codec) && Serialized(codec, values).Some?
    ensures Load(entries[key.ToString() := Entry(Serialized(codec, values).value, ttl)], true, key, codec, map[])
            == Found(values)
  {
    MergeStringKeyed(values);
  }

  /** Once its key is deleted, a session loads as absent. */
  lemma DeleteThenLoad(entries: map<string, Entry>, key: SessionKey, codec: JsonCodec, current: map<Key, Value>)
    ensures Load(entries - {key.ToString()}, true, key, codec, current) == Absent
  {
  }
}
