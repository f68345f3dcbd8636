/**
 * `DefaultRandomKeyGenerator` (Key_generator.go): session IDs made of 32 random
 * bytes in base32. The random source (crypto/rand) is a parameter: the bytes it
 * delivers before it fails, so a source shorter than the request is a failed read.
 */
module KeyGenerator {
  import opened Types
  import opened Base32

  /** The number of random bytes behind one session ID. */
  const KeyLength: nat := 32

  /** The error a generator can report. */
  datatype GeneratorError = EntropyUnavailable

  /** `strings.TrimRight(s, cutset)` for a one-character cutset: drops every trailing `c`. */
  function TrimRight(s: string, c: char): (r: string)
    ensures |r| <= |s| && r == s[..|r|]
    ensures r == [] || r[|r| - 1] != c
    ensures forall i :: |r| <= i < |s| ==> s[i] == c
  {
    if s != [] && s[|s| - 1] == c then TrimRight(s[..|s| - 1], c) else s
  }

  /** Trimming `=` from a padded encoding leaves exactly the symbols. */
  lemma TrimPadding(data: seq<Byte>)
    ensures TrimRight(StdEncode(data), Padding) == EncodeUnpadded(data)
  {
    var body := EncodeUnpadded(data);
    var s := StdEncode(data);
    var r := TrimRight(s, Padding);
    if |r| < |body| {
      assert s[|body| - 1] == body[|body| - 1];
      SymbolTable(SymbolValue(body[|body| - 1]));
    }
    assert r == s[..|body|];
  }

  /**
   * `generateRandomKey(length)`: allocates a buffer and fills it from the random source.
   * A read that cannot fill the buffer gives nil (None); a successful one gives exactly
   * `length` bytes, the first ones the source delivers.
   */
  method GenerateRandomKey(length: nat, source: seq<Byte>) returns (k: Option<seq<Byte>>)
    ensures |source| >= length ==> k == Some(source[..length])
    ensures |source| < length ==> k == None
    ensures k.Some? ==> |k.value| == length
  {
    var buf := new Byte[length];
    var i := 0;
    while i < length
      invariant 0 <= i <= length && i <= |source|
      invariant buf[..i] == source[..i]
    {
      if i == |source| {
        return None;
      }
      buf[i] := source[i];
      i := i + 1;
    }
    assert buf[..] == buf[..i];
    return Some(buf[..]);
  }

  /**
   * `GenerateKey`, as written: base32 of 32 random bytes with the `=` padding trimmed.
   * The error result is always nil: a failed random read yields the nil slice, whose
   * encoding is the empty ID.
   */
  method GenerateKey(source: seq<Byte>) returns (id: string, err: Option<GeneratorError>)
    ensures err == None
    ensures |source| >= KeyLength ==> id == EncodeUnpadded(source[..KeyLength])
    ensures |source| < KeyLength ==> id == ""
  {
    var k := GenerateRandomKey(KeyLength, source);
    var raw := if k.Some? then k.value else [];
    id := TrimRight(StdEncode(raw), Padding);
    TrimPadding(raw);
    err := None;
  }

  /** The shape of every ID the default generator produces from a full read. */
  predicate IsDefaultKey(id: string)
  {
    |id| == 52 && AllSymbols(id) && Padding !in id
  }

  /**
   * 32 bytes give 52 symbols from the alphabet, with no `=`, and the ID decodes back to the
   * bytes, so two reads that differ give two IDs that differ.
   */
  lemma DefaultKeyShape(data: seq<Byte>)
    requires |data| == KeyLength
    ensures IsDefaultKey(EncodeUnpadded(data))
    ensures DecodeUnpadded(EncodeUnpadded(data)) == Some(data)
  {
    var id := EncodeUnpadded(data);
    if Padding in id {
      var i :| 0 <= i < |id| && id[i] == Padding;
      SymbolTable(SymbolValue(id[i]));
    }
    DecodeEncode(data);
  }

  /**
   * `GenerateKey` as evidently intended: the failed random read is reported as an error
   * instead of turning into the empty ID.
   */
  method GenerateKeyChecked(source: seq<Byte>) returns (r: Result<string, GeneratorError>)
    ensures r.Failure? <==> |source| < KeyLength
    ensures r.Success? ==> IsDefaultKey(r.value) && DecodeUnpadded(r.value) == Some(source[..KeyLength])
  {
    var k := GenerateRandomKey(KeyLength, source);
    if k.None? {
      return Failure(EntropyUnavailable);
    }
    var id := TrimRight(StdEncode(k.value), Padding);
    TrimPadding(k.value);
    DefaultKeyShape(k.value);
    return Success(id);
  }
}
