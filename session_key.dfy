/** `SessionKey` (session_key.go): the storage-layer key of a session. */
module SessionKeys {

  /** A namespace prefix and a session ID. */
  datatype SessionKey = SessionKey(keyPrefix: string, sessionId: string) {

    /** The string the key-value store is addressed with: the prefix immediately followed by the ID. */
    function ToString(): (r: string)
      ensures |r| == |keyPrefix| + |sessionId|
      ensures r[..|keyPrefix|] == keyPrefix && r[|keyPrefix|..] == sessionId
    {
      keyPrefix + sessionId
    }
  }

  /** Under one prefix, distinct IDs give distinct storage keys. */
  lemma ToStringInjective(prefix: string, a: string, b: string)
    requires SessionKey(prefix, a).ToString() == SessionKey(prefix, b).ToString()
    ensures a == b
  {
  }

  /** With the default empty prefix the storage key is the ID itself. */
  lemma EmptyPrefixKeyIsId(id: string)
    ensures SessionKey("", id).ToString() == id
  {
  }

  /** Two prefixes give distinct keys for the same ID. */
  lemma DistinctPrefixesSameId(p: string, q: string, id: string)
    requires p != q
    ensures SessionKey(p, id).ToString() != SessionKey(q, id).ToString()
  {
  }

  /** Neither prefix starts the other. */
  predicate Unrelated(p: string, q: string)
  {
    !(|p| <= |q| && q[..|p|] == p) && !(|q| <= |p| && p[..|q|] == q)
  }

  /** Prefixes neither of which starts the other keep every pair of IDs apart. */
  lemma UnrelatedPrefixesIsolate(p: string, q: string, a: string, b: string)
    requires Unrelated(p, q)
    ensures SessionKey(p, a).ToString() != SessionKey(q, b).ToString()
  {
  }

  /** With no separator, a prefix that extends another by ID characters shares its key space. */
  lemma NestedPrefixesCollide(p: string, extra: string, id: string)
    ensures SessionKey(p, extra + id).ToString() == SessionKey(p + extra, id).ToString()
  {
  }
}
