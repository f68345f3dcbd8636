/**
 * The `RedisClient` interface (redis_client.go), implemented by an in-memory map from
 * storage keys to stored values. Time-based expiry is not modelled: the TTL is recorded
 * with the value. A client that cannot reach its server fails every operation.
 */
module RedisClient {
  import opened Types
  import opened SessionKeys

  /** A stored value and the TTL, in seconds, it was written with. */
  datatype Entry = Entry(data: seq<Byte>, ttlSeconds: int)

  /** A transport or backend failure. */
  datatype ClientError = Unreachable

  class MemoryRedis {
    var entries: map<string, Entry>
    var reachable: bool

    /** An empty store. */
    constructor (reachable: bool)
      ensures entries == map[] && this.reachable == reachable
    {
      entries := map[];
      this.reachable := reachable;
    }

    /** `Get`: the stored bytes and whether the key found; an absent key is not an error. */
    method Get(key: SessionKey) returns (data: seq<Byte>, found: bool, err: Option<ClientError>)
      ensures !reachable ==> err == Some(Unreachable) && !found && data == []
      ensures reachable ==> err == None && (found <==> key.ToString() in entries)
      ensures reachable && found ==> data == entries[key.ToString()].data
      ensures !found ==> data == []
    {
      if !reachable {
        return [], false, Some(Unreachable);
      }
      var k := key.ToString();
      if k !in entries {
        return [], false, None;
      }
      return entries[k].data, true, None;
    }

    /** `Set`: unconditional write with expiry; the last write wins. */
    method Set(key: SessionKey, data: seq<Byte>, ttlSeconds: int) returns (err: Option<ClientError>)
      modifies this
      ensures reachable == old(reachable)
      ensures !reachable ==> err == Some(Unreachable) && entries == old(entries)
      ensures reachable ==> err == None && entries == old(entries)[key.ToString() := Entry(data, ttlSeconds)]
    {
      if !reachable {
        return Some(Unreachable);
      }
      entries := entries[key.ToString() := Entry(data, ttlSeconds)];
      return None;
    }

    /** `SetNX`: atomic write that happens only when the key is absent; `succeeded` says whether it did. */
    method SetNX(key: SessionKey, data: seq<Byte>, ttlSeconds: int) returns (succeeded: bool, err: Option<ClientError>)
      modifies this
      ensures reachable == old(reachable)
      ensures !reachable ==> err == Some(Unreachable) && !succeeded && entries == old(entries)
      ensures reachable ==> err == None && (succeeded <==> key.ToString() !in old(entries))
      ensures reachable && succeeded ==> entries == old(entries)[key.ToString() := Entry(data, ttlSeconds)]
      ensures !succeeded ==> entries == old(entries)
    {
      if !reachable {
        return false, Some(Unreachable);
      }
      var k := key.ToString();
      if k in entries {
        return false, None;
      }
      entries := entries[k := Entry(data, ttlSeconds)];
      return true, None;
    }

    /** `Del`: removes the key; deleting an absent key is not an error. */
    method Del(key: SessionKey) returns (err: Option<ClientError>)
      modifies this
      ensures reachable == old(reachable)
      ensures !reachable ==> err == Some(Unreachable) && entries == old(entries)
      ensures reachable ==> err == None && entries == old(entries) - {key.ToString()}
    {
      if !reachable {
        return Some(Unreachable);
      }
      entries := entries - {key.ToString()};
      return None;
    }
  }
}
