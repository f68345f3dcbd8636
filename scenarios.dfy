/**
 * Sequences of calls on one store, proved from the contracts of `New` and `Save` alone:
 * what a later request observes after an earlier one saved or deleted a session.
 */
module Scenarios {
  import opened Types
  import opened Sessions
  import opened SessionKeys
  import opened JsonSerializer
  import opened RedisClient
  import opened KeyGenerator
  import opened Store

  /** A store that writes synchronously to a reachable server with a lossless codec. */
  predicate SyncReachable(store: Redistore)
    reads store, store.client
  {
    !store.noWaitWritingMode && store.client.reachable
  }

  /**
   * Save, then a new request carrying the emitted cookie: the session loads back with the
   * saved values and is not new.
   */
  method SaveThenNew(store: Redistore, session: Session, generated: Result<string, GeneratorError>)
    returns (loaded: Session?)
    requires SyncReachable(store) && Lossless(store.Codec())
    requires session.options.maxAge > 0 && Serialized(store.Codec(), session.values).Some?
    requires session.id != "" || (generated.Success? && store.StorageKey(generated.value) !in store.client.entries)
    modifies session, store.client
    ensures loaded != null && !loaded.isNew && loaded.id == session.id && loaded.values == session.values
  {
    var err, cookie, _ := store.Save(session, generated);
    SaveThenLoad(old(store.client.entries), SessionKey(store.keyPrefix, session.id), store.Codec(),
                 session.values, session.options.maxAge);
    var e;
    loaded, e := store.New(map[session.name := cookie.value.value], session.name);
  }

  /**
   * Save with MaxAge <= 0, then a new request with the old ID: the cookie emitted is empty
   * and the ID is no longer found, so the session comes back new and empty.
   */
  method DeleteThenNew(store: Redistore, session: Session) returns (cookie: Option<Cookie>, loaded: Session?)
    requires SyncReachable(store) && session.options.maxAge <= 0
    modifies session, store.client
    ensures cookie.Some? && cookie.value.value == ""
    ensures loaded != null && loaded.isNew && loaded.id == session.id && loaded.values == map[]
  {
    var err, dispatched;
    err, cookie, dispatched := store.Save(session, Failure(EntropyUnavailable));
    DeleteThenLoad(old(store.client.entries), SessionKey(store.keyPrefix, session.id), store.Codec(), map[]);
    var e;
    loaded, e := store.New(map[session.name := session.id], session.name);
  }

  /**
   * Two brand-new sessions that are given the same ID: the first write wins, the second
   * fails with an error naming the ID and does not overwrite the first one's data.
   */
  method CollidingFirstSaves(store: Redistore, first: Session, second: Session, id: string)
    returns (err1: Option<SaveError>, err2: Option<SaveError>)
    requires SyncReachable(store) && first != second
    requires first.id == "" && second.id == "" && first.options.maxAge > 0 && second.options.maxAge > 0
    requires Serialized(store.Codec(), first.values).Some? && Serialized(store.Codec(), second.values).Some?
    requires store.StorageKey(id) !in store.client.entries
    modifies first, second, store.client
    ensures err1 == None && err2 == Some(StoreFailed(DuplicatedId(id))) && first.id == id
    ensures && Serialized(store.Codec(), first.values).Some? && store.StorageKey(id) in store.client.entries
            && store.client.entries[store.StorageKey(id)]
               == Entry(Serialized(store.Codec(), first.values).value, first.options.maxAge)
  {
    var c1, d1, c2, d2;
    err1, c1, d1 := store.Save(first, Success(id));
    err2, c2, d2 := store.Save(second, Success(id));
  }

  /** Saving an established session twice: the store holds the second serialization. */
  method OverwriteLastWins(store: Redistore, session: Session, later: map<Key, Value>)
    returns (err1: Option<SaveError>, err2: Option<SaveError>)
    requires SyncReachable(store) && session.id != "" && session.options.maxAge > 0
    requires Serialized(store.Codec(), session.values).Some? && Serialized(store.Codec(), later).Some?
    modifies session, store.client
    ensures err1 == None && err2 == None && session.values == later
    ensures store.client.entries == old(store.client.entries)[store.StorageKey(session.id) :=
              Entry(Serialized(store.Codec(), later).value, session.options.maxAge)]
  {
    var c1, d1, c2, d2;
    err1, c1, d1 := store.Save(session, Failure(EntropyUnavailable));
    assert err1 == None && session.id == old(session.id);
    assert store.client.entries == old(store.client.entries)[store.StorageKey(session.id) :=
             Entry(Serialized(store.Codec(), session.values).value, session.options.maxAge)];
    session.values := later;
    err2, c2, d2 := store.Save(session, Failure(EntropyUnavailable));
  }

  /**
   * The ID is assigned before the write. A first save that collides leaves the session holding
   * the colliding ID, so saving it again takes the overwrite path and replaces the other
   * session's stored data.
   */
  method RetryAfterCollision(store: Redistore, session: Session, id: string)
    returns (err1: Option<SaveError>, err2: Option<SaveError>)
    requires SyncReachable(store) && id != "" && session.id == "" && session.options.maxAge > 0
    requires Serialized(store.Codec(), session.values).Some?
    requires store.StorageKey(id) in store.client.entries
    modifies session, store.client
    ensures err1 == Some(StoreFailed(DuplicatedId(id))) && err2 == None && session.id == id
    ensures && Serialized(store.Codec(), session.values).Some? && store.StorageKey(id) in store.client.entries
            && store.client.entries[store.StorageKey(id)]
               == Entry(Serialized(store.Codec(), session.values).value, session.options.maxAge)
  {
    var c1, d1, c2, d2;
    err1, c1, d1 := store.Save(session, Success(id));
    err2, c2, d2 := store.Save(session, Failure(EntropyUnavailable));
  }

  /**
   * With the default generator and a failed random read, a new session is stored under the
   * bare prefix with an empty cookie, and any request whose cookie `name` is empty then loads
   * that session's values. (A second new session then collides on the ID "", as
   * `CollidingFirstSaves` shows for any ID.)
   */
  method EntropyFailure(store: Redistore, first: Session, source: seq<Byte>,
                        cookies: map<string, string>, name: string)
    returns (cookie: Option<Cookie>, stranger: Session?)
    requires SyncReachable(store) && Lossless(store.Codec())
    requires name in cookies && cookies[name] == ""
    requires |source| < KeyLength
    requires first.id == "" && first.options.maxAge > 0 && Serialized(store.Codec(), first.values).Some?
    requires store.keyPrefix !in store.client.entries
    modifies first, store.client
    ensures first.id == "" && cookie.Some? && cookie.value.value == ""
    ensures stranger != null && !stranger.isNew && stranger.values == first.values
  {
    var id, genErr := GenerateKey(source);
    assert store.StorageKey(id) == store.keyPrefix;
    var err1, d1;
    err1, cookie, d1 := store.Save(first, Success(id));
    SaveThenLoad(old(store.client.entries), SessionKey(store.keyPrefix, ""), store.Codec(),
                 first.values, first.options.maxAge);
    var e;
    stranger, e := store.New(cookies, name);
  }
}
