/**
 * Base32 with the standard alphabet of RFC 4648, section 6: the encoding behind
 * Go's `base32.StdEncoding`. Bytes are read as one bit string, most significant
 * bit first, cut into 5-bit groups, and every group becomes one symbol.
 */
module Base32 {
  import opened Types

  function Pow2(n: nat): (r: nat)
    ensures r >= 1
  {
    if n == 0 then 1 else 2 * Pow2(n - 1)
  }

  /** The `width` low-order bits of `v`, most significant first. */
  function Bits(v: nat, width: nat): (r: seq<bool>)
    ensures |r| == width
  {
    if width == 0 then [] else Bits(v / 2, width - 1) + [v % 2 == 1]
  }

  /** The number a bit string denotes, most significant bit first. */
  function Value(bits: seq<bool>): (r: nat)
    ensures r < Pow2(|bits|)
  {
    if bits == [] then 0
    else 2 * Value(bits[..|bits| - 1]) + (if bits[|bits| - 1] then 1 else 0)
  }

  lemma {:induction false} ValueOfBits(v: nat, width: nat)
    requires v < Pow2(width)
    ensures Value(Bits(v, width)) == v
  {
    if width > 0 {
      var b := Bits(v, width);
      assert b[..|b| - 1] == Bits(v / 2, width - 1);
      ValueOfBits(v / 2, width - 1);
    }
  }

  lemma {:induction false} BitsOfValue(bits: seq<bool>)
    ensures Bits(Value(bits), |bits|) == bits
  {
    if bits != [] {
      var init := bits[..|bits| - 1];
      BitsOfValue(init);
      assert bits == init + [bits[|bits| - 1]];
    }
  }

  /** Eight bits per byte, in order. */
  function BytesToBits(data: seq<Byte>): (r: seq<bool>)
    ensures |r| == 8 * |data|
  {
    if data == [] then [] else Bits(data[0], 8) + BytesToBits(data[1..])
  }

  /** Reads a whole number of bytes back from a bit string. */
  function BitsToBytes(bits: seq<bool>): (r: seq<Byte>)
    requires |bits| % 8 == 0
    ensures |r| == |bits| / 8
  {
    if bits == [] then []
    else
      assert Pow2(8) == 256;
      [Value(bits[..8]) as Byte] + BitsToBytes(bits[8..])
  }

  lemma {:induction false} BytesRoundTrip(data: seq<Byte>)
    ensures BitsToBytes(BytesToBits(data)) == data
  {
    if data != [] {
      var bits := BytesToBits(data);
      assert bits[..8] == Bits(data[0], 8);
      assert bits[8..] == BytesToBits(data[1..]);
      assert Pow2(8) == 256;
      ValueOfBits(data[0], 8);
      BytesRoundTrip(data[1..]);
    }
  }

  /** The 32 symbols in the order of Table 3 of RFC 4648. */
  const StdAlphabet: string := "ABCDEFGHIJKLMNOPQRSTUVWXYZ234567"

  /** The padding character of RFC 4648. */
  const Padding: char := '='

  /** The symbol for a 5-bit value. */
  function Symbol(v: nat): char
    requires v < 32
  {
    if v < 26 then ('A' as int + v) as char else ('2' as int + (v - 26)) as char
  }

  predicate IsSymbol(c: char)
  {
    'A' <= c <= 'Z' || '2' <= c <= '7'
  }

  /** The 5-bit value of a symbol: the inverse of Symbol. */
  function SymbolValue(c: char): (v: nat)
    requires IsSymbol(c)
    ensures v < 32 && Symbol(v) == c
  {
    if 'A' <= c <= 'Z' then c as int - 'A' as int else c as int - '2' as int + 26
  }

  /** Symbol follows the alphabet table and never yields the padding character. */
  lemma SymbolTable(v: nat)
    requires v < 32
    ensures Symbol(v) == StdAlphabet[v]
    ensures IsSymbol(Symbol(v)) && Symbol(v) != Padding && SymbolValue(Symbol(v)) == v
  {
  }

  predicate AllSymbols(s: string)
  {
    forall i :: 0 <= i < |s| ==> IsSymbol(s[i])
  }

  /** One symbol per 5-bit group. */
  function Symbols(bits: seq<bool>): (s: string)
    requires |bits| % 5 == 0
    ensures |s| == |bits| / 5 && AllSymbols(s)
  {
    if bits == [] then []
    else
      assert Pow2(5) == 32;
      [Symbol(Value(bits[..5]))] + Symbols(bits[5..])
  }

  /** Five bits per symbol, in order. */
  function SymbolBits(s: string): (bits: seq<bool>)
    requires AllSymbols(s)
    ensures |bits| == 5 * |s|
  {
    if s == [] then [] else Bits(SymbolValue(s[0]), 5) + SymbolBits(s[1..])
  }

  lemma {:induction false} SymbolsRoundTrip(bits: seq<bool>)
    requires |bits| % 5 == 0
    ensures SymbolBits(Symbols(bits)) == bits
  {
    if bits != [] {
      assert Pow2(5) == 32;
      var s := Symbols(bits);
      assert s[1..] == Symbols(bits[5..]);
      SymbolTable(Value(bits[..5]));
      BitsOfValue(bits[..5]);
      SymbolsRoundTrip(bits[5..]);
      assert bits == bits[..5] + bits[5..];
    }
  }

  /** The zero bits that complete the last 5-bit group of `n` bytes. */
  function FillBits(n: nat): (k: nat)
    ensures k < 5 && (8 * n + k) % 5 == 0
  {
    (5 - (8 * n) % 5) % 5
  }

  function Zeros(n: nat): (r: seq<bool>)
    ensures |r| == n
  {
    seq(n, _ => false)
  }

  /** The symbols of the encoding, without the `=` padding (RFC 4648, section 3.2 allows omitting it). */
  function EncodeUnpadded(data: seq<Byte>): (s: string)
    ensures |s| == (8 * |data| + 4) / 5 && AllSymbols(s)
  {
    Symbols(BytesToBits(data) + Zeros(FillBits(|data|)))
  }

  /** Appends `=` until the length is a multiple of 8. */
  function PadTo8(body: string): (s: string)
    ensures |s| % 8 == 0 && |body| <= |s| < |body| + 8
    ensures s[..|body|] == body
    ensures forall i :: |body| <= i < |s| ==> s[i] == Padding
  {
    var n := (8 - |body| % 8) % 8;
    assert (|body| + n) % 8 == 0;
    body + seq(n, _ => Padding)
  }

  /** `base32.StdEncoding.EncodeToString`: the symbols padded with `=` to a multiple of 8 characters. */
  function StdEncode(data: seq<Byte>): string
  {
    PadTo8(EncodeUnpadded(data))
  }

  /**
   * Decoder for the unpadded form, the partner of EncodeUnpadded: fails on a character
   * outside the alphabet, on a length that leaves five or more bits after the last byte,
   * and on fill bits after the last byte that are not all zero.
   */
  function DecodeUnpadded(s: string): (r: Option<seq<Byte>>)
    ensures r.Some? ==> AllSymbols(s) && |r.value| == 5 * |s| / 8
  {
    if !AllSymbols(s) then None
    else
      var bits := SymbolBits(s);
      var extra := |bits| % 8;
      if extra >= 5 || bits[|bits| - extra..] != Zeros(extra) then None
      else Some(BitsToBytes(bits[..|bits| - extra]))
  }

  /** Decoding undoes encoding, for every byte string. */
  lemma DecodeEncode(data: seq<Byte>)
    ensures DecodeUnpadded(EncodeUnpadded(data)) == Some(data)
  {
    var payload := BytesToBits(data);
    var bits := payload + Zeros(FillBits(|data|));
    var k := FillBits(|data|);
    SymbolsRoundTrip(bits);
    assert SymbolBits(EncodeUnpadded(data)) == bits;
    assert |bits| == 8 * |data| + k;
    RemainderOfFill(|data|, k);
    assert bits[..|bits| - k] == payload;
    assert bits[|bits| - k..] == Zeros(k);
    BytesRoundTrip(data);
  }

  /** Fewer than eight extra bits after whole bytes are exactly the remainder modulo 8. */
  lemma RemainderOfFill(n: nat, k: nat)
    requires k < 8
    ensures (8 * n + k) % 8 == k
  {
  }

  /** Distinct byte strings have distinct encodings. */
  lemma EncodeInjective(a: seq<Byte>, b: seq<Byte>)
    requires EncodeUnpadded(a) == EncodeUnpadded(b)
    ensures a == b
  {
    DecodeEncode(a);
    DecodeEncode(b);
  }

  lemma {:induction false} BitsBytesRoundTrip(bits: seq<bool>)
    requires |bits| % 8 == 0
    ensures BytesToBits(BitsToBytes(bits)) == bits
  {
    if bits != [] {
      assert Pow2(8) == 256;
      var data := BitsToBytes(bits);
      assert data[0] == Value(bits[..8]) && data[1..] == BitsToBytes(bits[8..]);
      BitsOfValue(bits[..8]);
      BitsBytesRoundTrip(bits[8..]);
      assert bits == bits[..8] + bits[8..];
    }
  }

  lemma {:induction false} SymbolBitsRoundTrip(s: string)
    requires AllSymbols(s)
    ensures Symbols(SymbolBits(s)) == s
  {
    if s != [] {
      var bits := SymbolBits(s);
      var v := SymbolValue(s[0]);
      assert Pow2(5) == 32;
      assert bits[..5] == Bits(v, 5) && bits[5..] == SymbolBits(s[1..]);
      ValueOfBits(v, 5);
      SymbolBitsRoundTrip(s[1..]);
      assert s == [s[0]] + s[1..];
    }
  }

  /** Every string the decoder accepts is the encoding of what it decodes to. */
  lemma EncodeDecode(s: string)
    requires DecodeUnpadded(s).Some?
    ensures EncodeUnpadded(DecodeUnpadded(s).value) == s
  {
    var bits, extra := Accepted(s);
    var payload := bits[..|bits| - extra];
    var data := DecodeUnpadded(s).value;
    BitsBytesRoundTrip(payload);
    assert BytesToBits(data) == payload;
    FillIsUnique(|data|, extra, |s|);
    Refill(bits, payload, extra);
    SymbolBitsRoundTrip(s);
  }

  /** What the decoder checked of a string it accepts, and what it returned. */
  lemma Accepted(s: string) returns (bits: seq<bool>, extra: nat)
    requires DecodeUnpadded(s).Some?
    ensures AllSymbols(s) && bits == SymbolBits(s) && |bits| == 5 * |s|
    ensures extra < 5 && |bits| >= extra && bits[|bits| - extra..] == Zeros(extra)
    ensures (|bits| - extra) % 8 == 0 && DecodeUnpadded(s).value == BitsToBytes(bits[..|bits| - extra])
  {
    bits := SymbolBits(s);
    extra := |bits| % 8;
  }

  /** A bit string is its first part followed by the zero bits after it. */
  lemma Refill(bits: seq<bool>, payload: seq<bool>, extra: nat)
    requires extra <= |bits| && bits[|bits| - extra..] == Zeros(extra) && payload == bits[..|bits| - extra]
    ensures payload + Zeros(extra) == bits
  {
    assert bits == bits[..|bits| - extra] + bits[|bits| - extra..];
  }

  /** The only fill shorter than a symbol that completes whole symbols after `n` bytes is FillBits. */
  lemma FillIsUnique(n: nat, k: nat, symbols: nat)
    requires k < 5 && 8 * n + k == 5 * symbols
    ensures k == FillBits(n)
  {
  }

  /** A string decodes to `data` exactly when it is the encoding of `data`. */
  lemma DecodeIffEncode(s: string, data: seq<Byte>)
    ensures DecodeUnpadded(s) == Some(data) <==> EncodeUnpadded(data) == s
  {
    if DecodeUnpadded(s) == Some(data) {
      EncodeDecode(s);
    }
    if EncodeUnpadded(data) == s {
      DecodeEncode(data);
    }
  }

  /** Symbols reads one leading 5-bit group at a time. */
  lemma SymbolsCons(v: nat, rest: seq<bool>)
    requires v < 32 && |rest| % 5 == 0
    ensures Symbols(Bits(v, 5) + rest) == [Symbol(v)] + Symbols(rest)
  {
    assert Pow2(5) == 32;
    var group := Bits(v, 5);
    assert (group + rest)[..5] == group && (group + rest)[5..] == rest;
    ValueOfBits(v, 5);
  }

  /** The bits of "f" (0x66) and "o" (0x6F), most significant first. */
  lemma FoByteBits()
    ensures Bits(102, 8) == [false, true, true, false, false, true, true, false]
    ensures Bits(111, 8) == [false, true, true, false, true, true, true, true]
  {
  }

  /** "fo" followed by its four fill bits, as one bit string. */
  const FoBits: seq<bool> := [false, true, true, false, false, true, true, false,
                              false, true, true, false, true, true, true, true,
                              false, false, false, false]

  lemma FoDataBits()
    ensures BytesToBits([102, 111]) + Zeros(FillBits(2)) == FoBits
  {
    var data: seq<Byte> := [102, 111];
    assert data[1..] == [111] && data[2..] == [];
    FoByteBits();
    assert BytesToBits(data) == Bits(102, 8) + (Bits(111, 8) + []);
    assert Zeros(FillBits(2)) == [false, false, false, false];
  }

  /** The 5-bit groups of "fo": 12, 25, 23 and 16. */
  lemma FoGroupBits()
    ensures Bits(12, 5) == [false, true, true, false, false]
    ensures Bits(25, 5) == [true, true, false, false, true]
    ensures Bits(23, 5) == [true, false, true, true, true]
    ensures Bits(16, 5) == [true, false, false, false, false]
  {
  }

  lemma FoSplit()
    ensures FoBits == Bits(12, 5) + (Bits(25, 5) + (Bits(23, 5) + Bits(16, 5)))
  {
    FoGroupBits();
  }

  lemma FoSymbolChars()
    ensures Symbol(12) == 'M' && Symbol(25) == 'Z' && Symbol(23) == 'X' && Symbol(16) == 'Q'
  {
  }

  /** The symbols of the "fo" bit string, group by group. */
  lemma FoSymbols()
    ensures Symbols(FoBits) == "MZXQ"
  {
    var g3 := Bits(16, 5);
    var g2 := Bits(23, 5) + g3;
    var g1 := Bits(25, 5) + g2;
    var g0 := Bits(12, 5) + g1;
    FoSplit();
    assert FoBits == g0;
    SymbolsCons(16, []);
    assert g3 + [] == g3;
    SymbolsCons(23, g3);
    SymbolsCons(25, g2);
    SymbolsCons(12, g1);
    FoSymbolChars();
  }

  /** The test vector of RFC 4648, section 10, for "fo": "MZXQ====". */
  lemma RfcVectorFo()
    ensures StdEncode([102, 111]) == "MZXQ===="
  {
    FoDataBits();
    FoSymbols();
    assert EncodeUnpadded([102, 111]) == "MZXQ";
  }
}
