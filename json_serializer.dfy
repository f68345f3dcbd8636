/**
 * `JSONSerializer` and `defaultJSONSerde` (json_serializer.go). The JSON byte format
 * of the encoding library is opaque here: a codec is a pair of functions, and the
 * only thing assumed about it, where needed, is that it round-trips (Lossless).
 */
module JsonSerializer {
  import opened Types
  import opened Sessions

  /** The JSON library: `json.Marshal` and `json.Unmarshal` on string-keyed maps; None is an error. */
  datatype JsonCodec = JsonCodec(
    encode: map<string, Value> -> Option<seq<Byte>>,
    decode: seq<Byte> -> Option<map<string, Value>>)

  /** Whatever the codec encodes, it decodes back to the same map. */
  ghost predicate Lossless(codec: JsonCodec)
  {
    forall m :: codec.encode(m).Some? ==> codec.decode(codec.encode(m).value) == Some(m)
  }

  /** The errors of `defaultJSONSerde`. */
  datatype SerdeError =
    | NonStringKey(key: Key)   // a key of Values that is not a string, named in the message
    | EncodeFailed             // json.Marshal refused the map
    | DecodeFailed             // json.Unmarshal refused the bytes

  /** The errors of `JSONSerializer`, each wrapping the serde's error. */
  datatype SerializerError = SerializeFailed(cause: SerdeError) | DeserializeFailed(cause: SerdeError)

  predicate HasNonStringKey(values: map<Key, Value>)
  {
    exists k :: k in values && !k.StringKey?
  }

  /** The map Marshal hands to the encoder: the string-keyed entries of Values. */
  function StringKeyed(values: map<Key, Value>): (m: map<string, Value>)
    ensures forall s :: s in m <==> StringKey(s) in values
    ensures forall s :: s in m ==> m[s] == values[StringKey(s)]
  {
    map k | k in values && k.StringKey? :: k.name := values[k]
  }

  /** The bytes a successful serialization produces, None when it fails. */
  function Serialized(codec: JsonCodec, values: map<Key, Value>): Option<seq<Byte>>
  {
    if HasNonStringKey(values) then None else codec.encode(StringKeyed(values))
  }

  /** The decoded entries as entries of Values: each decoded name becomes a string key. */
  function Lift(decoded: map<string, Value>): (r: map<Key, Value>)
    ensures forall k :: k in r <==> k.StringKey? && k.name in decoded
    ensures forall k :: k in r ==> r[k] == decoded[k.name]
  {
    map s | s in decoded :: StringKey(s) := decoded[s]
  }

  /** Values after decoded entries are written into them. */
  function Merge(values: map<Key, Value>, decoded: map<string, Value>): map<Key, Value>
  {
    values + Lift(decoded)
  }

  /** Merging overwrites every decoded key, keeps every other key of Values, and adds nothing else. */
  lemma MergeSemantics(values: map<Key, Value>, decoded: map<string, Value>)
    ensures var r := Merge(values, decoded);
      && (forall s :: s in decoded ==> StringKey(s) in r && r[StringKey(s)] == decoded[s])
      && (forall k :: k in values && !(k.StringKey? && k.name in decoded) ==> k in r && r[k] == values[k])
      && (forall k :: k in r ==> k in values || (k.StringKey? && k.name in decoded))
  {
    var r := Merge(values, decoded);
    forall s | s in decoded ensures StringKey(s) in r && r[StringKey(s)] == decoded[s] {
      assert StringKey(s) in Lift(decoded);
    }
  }

  /** A map with only string keys is rebuilt exactly by merging its string-keyed copy into nothing. */
  lemma MergeStringKeyed(values: map<Key, Value>)
    requires !HasNonStringKey(values)
    ensures Merge(map[], StringKeyed(values)) == values
  {
    var r := Merge(map[], StringKeyed(values));
    forall k | k in values ensures k in r && r[k] == values[k] {
      assert k.StringKey?;
      assert k.name in StringKeyed(values);
    }
  }

  /** Which error a failed Marshal may report: a non-string key of Values, whichever the loop meets first. */
  predicate NamesNonStringKey(values: map<Key, Value>, e: SerdeError)
  {
    e.NonStringKey? && e.key in values && !e.key.StringKey?
  }

  /** StringKeyed is the only map with exactly its entries. */
  lemma StringKeyedUnique(v: map<Key, Value>, m: map<string, Value>)
    requires forall s :: s in m <==> StringKey(s) in v
    requires forall s :: s in m ==> m[s] == v[StringKey(s)]
    ensures m == StringKeyed(v)
  {
  }

  /** Merge is the only map with exactly its entries. */
  lemma MergeUnique(values: map<Key, Value>, decoded: map<string, Value>, r: map<Key, Value>)
    requires forall s :: s in decoded ==> StringKey(s) in r && r[StringKey(s)] == decoded[s]
    requires forall k :: k in values && !(k.StringKey? && k.name in decoded) ==> k in r && r[k] == values[k]
    requires forall k :: k in r ==> k in values || (k.StringKey? && k.name in decoded)
    ensures r == Merge(values, decoded)
  {
    var expected := Merge(values, decoded);
    forall k | k in r ensures k in expected && expected[k] == r[k] {
      if k.StringKey? && k.name in decoded {
        assert k == StringKey(k.name);
      }
    }
  }

  /** The error Serialize may report for `values`: the serde's error, wrapped. */
  predicate SerializeErrorFor(codec: JsonCodec, values: map<Key, Value>, e: SerializerError)
  {
    && e.SerializeFailed?
    && (if HasNonStringKey(values) then NamesNonStringKey(values, e.cause) else e.cause == EncodeFailed)
  }

  /** `defaultJSONSerde`. */
  datatype DefaultJsonSerde = DefaultJsonSerde(codec: JsonCodec) {

    /**
     * `Marshal`: copies the entries of Values into a string-keyed map, failing at the first
     * non-string key met, then encodes the copy. Go's map iteration order is unspecified,
     * so the key visited next is chosen arbitrarily.
     */
    method Marshal(session: Session) returns (r: Result<seq<Byte>, SerdeError>)
      ensures HasNonStringKey(session.values) <==> r.Failure? && r.error.NonStringKey?
      ensures r.Failure? && r.error.NonStringKey? ==> NamesNonStringKey(session.values, r.error)
      ensures !HasNonStringKey(session.values) ==>
        r == (match codec.encode(StringKeyed(session.values))
              case Some(b) => Success(b)
              case None => Failure(EncodeFailed))
    {
      var v := session.values;
      var m: map<string, Value> := map[];
      var todo := v.Keys;
      while todo != {}
        invariant todo <= v.Keys
        invariant forall k :: k in v && k !in todo ==> k.StringKey?
        invariant forall s :: s in m <==> StringKey(s) in v && StringKey(s) !in todo
        invariant forall s :: s in m ==> m[s] == v[StringKey(s)]
        decreases todo
      {
        var k :| k in todo;
        if !k.StringKey? {
          return Failure(NonStringKey(k));
        }
        m := m[k.name := v[k]];
        todo := todo - {k};
      }
      StringKeyedUnique(v, m);
      var serialized := codec.encode(m);
      if serialized.None? {
        return Failure(EncodeFailed);
      }
      return Success(serialized.value);
    }

    /**
     * `Unmarshal`: decodes the bytes and writes every decoded entry into Values, leaving
     * keys the bytes do not mention untouched. A decoding error leaves Values as it was.
     */
    method Unmarshal(serialized: seq<Byte>, session: Session) returns (err: Option<SerdeError>)
      modifies session
      ensures session.id == old(session.id) && session.options == old(session.options)
      ensures session.isNew == old(session.isNew)
      ensures codec.decode(serialized).None? ==> err == Some(DecodeFailed) && session.values == old(session.values)
      ensures codec.decode(serialized).Some? ==>
        err == None && session.values == Merge(old(session.values), codec.decode(serialized).value)
    {
      var decoded := codec.decode(serialized);
      if decoded.None? {
        return Some(DecodeFailed);
      }
      var m := decoded.value;
      ghost var initial := session.values;
      var todo := m.Keys;
      while todo != {}
        invariant todo <= m.Keys
        invariant session.id == old(session.id) && session.options == old(session.options)
        invariant session.isNew == old(session.isNew)
        invariant forall s :: s in m && s !in todo ==>
          StringKey(s) in session.values && session.values[StringKey(s)] == m[s]
        invariant forall k :: k in initial && !(k.StringKey? && k.name in m && k.name !in todo) ==>
          k in session.values && session.values[k] == initial[k]
        invariant forall k :: k in session.values ==> k in initial || (k.StringKey? && k.name in m && k.name !in todo)
        decreases todo
      {
        var k :| k in todo;
        session.values := session.values[StringKey(k) := m[k]];
        todo := todo - {k};
      }
      MergeUnique(initial, m, session.values);
      return None;
    }
  }

  /** `JSONSerializer`: delegates to its serde and wraps the serde's error. */
  datatype JsonSerializer = JsonSerializer(serde: DefaultJsonSerde) {

    /** `Serialize`: succeeds exactly when Marshal does, with Marshal's bytes unchanged. */
    method Serialize(session: Session) returns (r: Result<seq<Byte>, SerializerError>)
      ensures r.Success? <==> Serialized(serde.codec, session.values).Some?
      ensures r.Success? ==> r.value == Serialized(serde.codec, session.values).value
      ensures r.Failure? ==> SerializeErrorFor(serde.codec, session.values, r.error)
    {
      var serialized := serde.Marshal(session);
      if serialized.Failure? {
        return Failure(SerializeFailed(serialized.error));
      }
      return Success(serialized.value);
    }

    /** `Deserialize`: errors exactly when Unmarshal does, wrapping its error. */
    method Deserialize(serialized: seq<Byte>, session: Session) returns (err: Option<SerializerError>)
      modifies session
      ensures session.id == old(session.id) && session.options == old(session.options)
      ensures session.isNew == old(session.isNew)
      ensures serde.codec.decode(serialized).None? ==>
        err == Some(DeserializeFailed(DecodeFailed)) && session.values == old(session.values)
      ensures serde.codec.decode(serialized).Some? ==>
        err == None && session.values == Merge(old(session.values), serde.codec.decode(serialized).value)
    {
      var e := serde.Unmarshal(serialized, session);
      if e.Some? {
        return Some(DeserializeFailed(e.value));
      }
      return None;
    }
  }
}
