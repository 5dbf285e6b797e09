/**
 * URL-safe base64 without padding (section 5 of RFC 4648), as the `base64` crate's
 * `URL_SAFE_NO_PAD` engine encodes and decodes it.  Decoding rejects characters outside
 * the alphabet (padding included), a final group of one character, and a final group
 * whose unused low bits are not zero.
 */
module Base64Url {
  import opened Wrappers

  type byte = x: int | 0 <= x < 256
  type sextet = x: int | 0 <= x < 64

  /** The URL-safe alphabet: A-Z, a-z, 0-9, '-', '_'. */
  function Symbol(v: sextet): (c: char)
  {
    if v < 26 then ('A' as int + v) as char
    else if v < 52 then ('a' as int + v - 26) as char
    else if v < 62 then ('0' as int + v - 52) as char
    else if v == 62 then '-'
    else '_'
  }

  predicate IsUrlSafeSymbol(c: char)
  {
    'A' <= c <= 'Z' || 'a' <= c <= 'z' || '0' <= c <= '9' || c == '-' || c == '_'
  }

  /** Inverse of `Symbol`; `None` for anything outside the alphabet. */
  function Value(c: char): (r: Option<sextet>)
    ensures r.Some? <==> IsUrlSafeSymbol(c)
  {
    if 'A' <= c <= 'Z' then Some(c as int - 'A' as int)
    else if 'a' <= c <= 'z' then Some(c as int - 'a' as int + 26)
    else if '0' <= c <= '9' then Some(c as int - '0' as int + 52)
    else if c == '-' then Some(62)
    else if c == '_' then Some(63)
    else None
  }

  lemma SymbolValue(v: sextet)
    ensures Value(Symbol(v)) == Some(v)
    ensures IsUrlSafeSymbol(Symbol(v))
  {
  }

  lemma ValueSymbol(c: char)
    requires Value(c).Some?
    ensures Symbol(Value(c).value) == c
  {
  }

  /** Symbol-by-symbol translation, and its inverse on text made of alphabet symbols only. */
  function Symbols(v: seq<sextet>): (s: seq<char>)
    ensures |s| == |v|
    ensures forall i :: 0 <= i < |s| ==> s[i] == Symbol(v[i])
  {
    if v == [] then [] else [Symbol(v[0])] + Symbols(v[1..])
  }

  predicate AllSymbols(s: seq<char>)
  {
    forall i :: 0 <= i < |s| ==> IsUrlSafeSymbol(s[i])
  }

  function Values(s: seq<char>): (v: seq<sextet>)
    requires AllSymbols(s)
    ensures |v| == |s|
    ensures forall i :: 0 <= i < |v| ==> Value(s[i]) == Some(v[i])
  {
    if s == [] then [] else [Value(s[0]).value] + Values(s[1..])
  }

  lemma {:induction false} ValuesOfSymbols(v: seq<sextet>)
    ensures AllSymbols(Symbols(v)) && Values(Symbols(v)) == v
  {
    var s := Symbols(v);
    forall i | 0 <= i < |s| ensures IsUrlSafeSymbol(s[i]) && Value(s[i]) == Some(v[i]) {
      SymbolValue(v[i]);
    }
  }

  lemma {:induction false} SymbolsOfValues(s: seq<char>)
    requires AllSymbols(s)
    ensures Symbols(Values(s)) == s
  {
    var v := Values(s);
    forall i | 0 <= i < |s| ensures Symbols(v)[i] == s[i] {
      ValueSymbol(s[i]);
    }
  }

  // ---------------------------------------------------------------------------
  // Bit regrouping: three bytes are 24 bits, read as four sextets, and back.

  function Hi6(b0: byte): sextet { b0 / 4 }
  function Mid6(b0: byte, b1: byte): sextet { (b0 % 4) * 16 + b1 / 16 }
  function Next6(b1: byte, b2: byte): sextet { (b1 % 16) * 4 + b2 / 64 }
  function Lo6(b2: byte): sextet { b2 % 64 }

  function First8(c0: sextet, c1: sextet): byte { c0 * 4 + c1 / 16 }
  function Second8(c1: sextet, c2: sextet): byte { (c1 % 16) * 16 + c2 / 4 }
  function Third8(c2: sextet, c3: sextet): byte { (c2 % 4) * 64 + c3 }

  lemma BytesThroughSextets(b0: byte, b1: byte, b2: byte)
    ensures First8(Hi6(b0), Mid6(b0, b1)) == b0
    ensures Second8(Mid6(b0, b1), Next6(b1, b2)) == b1
    ensures Third8(Next6(b1, b2), Lo6(b2)) == b2
  {
  }

  /** A final byte, or pair of bytes, leaves the unused low bits of its last sextet zero. */
  lemma TailBitsClear(b0: byte, b1: byte)
    ensures Mid6(b0, 0) % 16 == 0
    ensures Next6(b1, 0) % 4 == 0
  {
    var m := b0 % 4;
    assert Mid6(b0, 0) == m * 16;
    var n := b1 % 16;
    assert Next6(b1, 0) == n * 4;
  }

  lemma SextetsThroughBytes(c0: sextet, c1: sextet, c2: sextet, c3: sextet)
    ensures Hi6(First8(c0, c1)) == c0
    ensures Mid6(First8(c0, c1), Second8(c1, c2)) == c1
    ensures Next6(Second8(c1, c2), Third8(c2, c3)) == c2
    ensures Lo6(Third8(c2, c3)) == c3
  {
  }

  // ---------------------------------------------------------------------------
  // Encoding: three bytes become four sextets; a final one or two bytes become two or three.

  function EncodeValues(b: seq<byte>): seq<sextet>
    decreases |b|
  {
    if |b| == 0 then []
    else if |b| == 1 then [Hi6(b[0]), Mid6(b[0], 0)]
    else if |b| == 2 then [Hi6(b[0]), Mid6(b[0], b[1]), Next6(b[1], 0)]
    else [Hi6(b[0]), Mid6(b[0], b[1]), Next6(b[1], b[2]), Lo6(b[2])] + EncodeValues(b[3..])
  }

  /** `URL_SAFE_NO_PAD.encode`. */
  function Encode(b: seq<byte>): (s: seq<char>)
    ensures AllSymbols(s)
  {
    ValuesOfSymbols(EncodeValues(b));
    Symbols(EncodeValues(b))
  }

  // ---------------------------------------------------------------------------
  // Decoding

  /**
   * Four sextets give three bytes; a final three give two bytes and a final two give one,
   * provided the bits they carry beyond those bytes are zero; a final single sextet is
   * an invalid length.
   */
  function DecodeValues(v: seq<sextet>): Option<seq<byte>>
    decreases |v|
  {
    if |v| == 0 then Some([])
    else if |v| == 1 then None
    else if |v| == 2 then
      if v[1] % 16 != 0 then None else Some([First8(v[0], v[1])])
    else if |v| == 3 then
      if v[2] % 4 != 0 then None else Some([First8(v[0], v[1]), Second8(v[1], v[2])])
    else
      match DecodeValues(v[4..])
      case None => None
      case Some(rest) => Some([First8(v[0], v[1]), Second8(v[1], v[2]), Third8(v[2], v[3])] + rest)
  }

  /** `URL_SAFE_NO_PAD.decode`; `None` stands for any `DecodeError`. */
  function Decode(s: seq<char>): (r: Option<seq<byte>>)
    ensures r.Some? ==> AllSymbols(s)
  {
    if !AllSymbols(s) then None else DecodeValues(Values(s))
  }

  // ---------------------------------------------------------------------------
  // Properties

  lemma DecodeTwoValues(c0: sextet, c1: sextet)
    requires c1 % 16 == 0
    ensures DecodeValues([c0, c1]) == Some([First8(c0, c1)])
  {
  }

  lemma DecodeThreeValues(c0: sextet, c1: sextet, c2: sextet)
    requires c2 % 4 == 0
    ensures DecodeValues([c0, c1, c2]) == Some([First8(c0, c1), Second8(c1, c2)])
  {
  }

  lemma DecodeEncodeOne(b0: byte)
    ensures DecodeValues(EncodeValues([b0])) == Some([b0])
  {
    assert EncodeValues([b0]) == [Hi6(b0), Mid6(b0, 0)];
    TailBitsClear(b0, 0);
    DecodeTwoValues(Hi6(b0), Mid6(b0, 0));
    BytesThroughSextets(b0, 0, 0);
  }

  lemma DecodeEncodeTwo(b0: byte, b1: byte)
    ensures DecodeValues(EncodeValues([b0, b1])) == Some([b0, b1])
  {
    assert EncodeValues([b0, b1]) == [Hi6(b0), Mid6(b0, b1), Next6(b1, 0)];
    TailBitsClear(b0, b1);
    DecodeThreeValues(Hi6(b0), Mid6(b0, b1), Next6(b1, 0));
    BytesThroughSextets(b0, b1, 0);
  }

  lemma {:induction false} DecodeEncodeValues(b: seq<byte>)
    ensures DecodeValues(EncodeValues(b)) == Some(b)
    decreases |b|
  {
    if |b| == 0 {
    } else if |b| == 1 {
      assert [b[0]] == b;
      DecodeEncodeOne(b[0]);
    } else if |b| == 2 {
      assert [b[0], b[1]] == b;
      DecodeEncodeTwo(b[0], b[1]);
    } else {
      DecodeEncodeValues(b[3..]);
      DecodeEncodeGroup(b);
    }
  }

  /** A full group of three bytes comes back in front of the rest. */
  lemma DecodeEncodeGroup(b: seq<byte>)
    requires |b| >= 3 && DecodeValues(EncodeValues(b[3..])) == Some(b[3..])
    ensures DecodeValues(EncodeValues(b)) == Some(b)
  {
    var v := EncodeValues(b);
    assert v[4..] == EncodeValues(b[3..]);
    BytesThroughSextets(b[0], b[1], b[2]);
    assert b == [b[0], b[1], b[2]] + b[3..];
  }

  /** Decoding an encoding gives the bytes back. */
  lemma DecodeEncode(b: seq<byte>)
    ensures Decode(Encode(b)) == Some(b)
  {
    ValuesOfSymbols(EncodeValues(b));
    DecodeEncodeValues(b);
  }

  /** A final sextet whose unused bits are clear is regenerated from the bytes it decodes to. */
  lemma TailSextetsBack(c0: sextet, c1: sextet, c2: sextet)
    ensures c1 % 16 == 0 ==> Mid6(First8(c0, c1), 0) == c1
    ensures c2 % 4 == 0 ==> Next6(Second8(c1, c2), 0) == c2
  {
    var q := c1 / 16;
    assert c1 == q * 16 + c1 % 16;
    assert First8(c0, c1) == c0 * 4 + q;
    assert First8(c0, c1) % 4 == q;
    var p := c2 / 4;
    assert c2 == p * 4 + c2 % 4;
    assert Second8(c1, c2) == (c1 % 16) * 16 + p;
    assert Second8(c1, c2) % 16 == p;
  }

  lemma HighSextetBack(c0: sextet, c1: sextet)
    ensures Hi6(First8(c0, c1)) == c0
  {
  }

  lemma EncodeValuesOfOne(b0: byte)
    ensures EncodeValues([b0]) == [Hi6(b0), Mid6(b0, 0)]
  {
  }

  lemma EncodeTwoBack(c0: sextet, c1: sextet)
    requires c1 % 16 == 0
    ensures EncodeValues([First8(c0, c1)]) == [c0, c1]
  {
    TailSextetsBack(c0, c1, 0);
    HighSextetBack(c0, c1);
    EncodeValuesOfOne(First8(c0, c1));
  }

  lemma EncodeThreeBack(c0: sextet, c1: sextet, c2: sextet)
    requires c2 % 4 == 0
    ensures EncodeValues([First8(c0, c1), Second8(c1, c2)]) == [c0, c1, c2]
  {
    SextetsThroughBytes(c0, c1, c2, 0);
    TailSextetsBack(c0, c1, c2);
    var b0, b1 := First8(c0, c1), Second8(c1, c2);
    assert EncodeValues([b0, b1]) == [Hi6(b0), Mid6(b0, b1), Next6(b1, 0)];
  }

  lemma {:induction false} EncodeDecodeValues(v: seq<sextet>)
    requires DecodeValues(v).Some?
    ensures EncodeValues(DecodeValues(v).value) == v
    decreases |v|
  {
    if |v| == 2 {
      DecodeTwoValues(v[0], v[1]);
      EncodeTwoBack(v[0], v[1]);
      assert [v[0], v[1]] == v;
    } else if |v| == 3 {
      DecodeThreeValues(v[0], v[1], v[2]);
      EncodeThreeBack(v[0], v[1], v[2]);
      assert [v[0], v[1], v[2]] == v;
    } else if |v| >= 4 {
      var b := DecodeValues(v).value;
      EncodeDecodeValues(v[4..]);
      SextetsThroughBytes(v[0], v[1], v[2], v[3]);
      assert b[3..] == DecodeValues(v[4..]).value;
      assert v == [v[0], v[1], v[2], v[3]] + v[4..];
    }
  }

  /** Decoding accepts only canonical text: whatever decodes is the encoding of its result. */
  lemma EncodeDecode(s: seq<char>)
    requires Decode(s).Some?
    ensures Encode(Decode(s).value) == s
  {
    EncodeDecodeValues(Values(s));
    SymbolsOfValues(s);
  }

  lemma {:induction false} EncodedValuesLength(b: seq<byte>)
    ensures |EncodeValues(b)| == (4 * |b| + 2) / 3
    decreases |b|
  {
    if |b| >= 3 {
      EncodedValuesLength(b[3..]);
    }
  }

  /** Every three bytes take four symbols and a final one or two bytes take two or three. */
  lemma EncodedLength(b: seq<byte>)
    ensures |Encode(b)| == (4 * |b| + 2) / 3
  {
    EncodedValuesLength(b);
  }

  lemma {:induction false} DecodeValuesRejectsLength(v: seq<sextet>)
    requires |v| % 4 == 1
    ensures DecodeValues(v).None?
    decreases |v|
  {
    if |v| > 1 {
      DecodeValuesRejectsLength(v[4..]);
    }
  }

  /** A text whose length leaves one symbol over after groups of four is rejected. */
  lemma RejectsDanglingSymbol(s: seq<char>)
    requires |s| % 4 == 1
    ensures Decode(s).None?
  {
    if AllSymbols(s) {
      DecodeValuesRejectsLength(Values(s));
    }
  }

  /** Text with a symbol outside the URL-safe alphabet (e.g. `+`, `/` or `=`) is rejected. */
  lemma RejectsForeignSymbols(s: seq<char>, i: nat)
    requires i < |s| && !IsUrlSafeSymbol(s[i])
    ensures Decode(s).None?
  {
  }
}
