/**
 * Authentication tokens (shift/src/auth/token.rs): N random bytes (N = 20 for shift),
 * transported as URL-safe base64 without padding, compared in constant time.
 */
module Tokens {
  import opened Wrappers
  import opened Base64Url

  /** The default `N` of `Token<N>`. */
  const TOKEN_BYTES: nat := 20

  datatype Token = Token(bytes: seq<byte>)

  /** `auth::token::Error`; the wrapped `getrandom` and `base64` errors are not distinguished. */
  datatype TokenError = GetRandom | Base64 | InvalidLength(expected: nat, got: nat)

  /**
   * `Token::generate`: `random` is what the operating system's random source produced for
   * the N bytes, or `None` when it failed.
   */
  function Generate(n: nat, random: Option<seq<byte>>): (r: Result<Token, TokenError>)
    requires random.Some? ==> |random.value| == n
    ensures r.Ok? <==> random.Some?
    ensures r.Ok? ==> |r.value.bytes| == n
    ensures r.Err? ==> r.error == GetRandom
  {
    match random
    case None => Err(GetRandom)
    case Some(bytes) => Ok(Token(bytes))
  }

  /** `to_base64url`, also the token's `Display`. */
  function ToBase64Url(t: Token): (s: string)
    ensures AllSymbols(s)
  {
    Encode(t.bytes)
  }

  /** `from_base64url`, also the token's `FromStr`, for `Token<n>`. */
  function FromBase64Url(s: string, n: nat): (r: Result<Token, TokenError>)
    ensures r.Ok? ==> |r.value.bytes| == n && ToBase64Url(r.value) == s
    ensures r == Err(Base64) <==> Decode(s).None?
    ensures Decode(s).Some? && |Decode(s).value| != n ==> r == Err(InvalidLength(n, |Decode(s).value|))
    ensures Decode(s).Some? && |Decode(s).value| == n ==> r == Ok(Token(Decode(s).value))
  {
    match Decode(s)
    case None => Err(Base64)
    case Some(decoded) =>
      if |decoded| != n then Err(InvalidLength(n, |decoded|))
      else
        EncodeDecode(s);
        Ok(Token(decoded))
  }

  /** A token survives transport: parsing its text gives it back. */
  lemma TokenRoundTrip(t: Token)
    ensures FromBase64Url(ToBase64Url(t), |t.bytes|) == Ok(t)
  {
    DecodeEncode(t.bytes);
  }

  /** A shift token (20 bytes) travels as exactly 27 URL-safe characters. */
  lemma ShiftTokenTextLength(t: Token)
    requires |t.bytes| == TOKEN_BYTES
    ensures |ToBase64Url(t)| == 27
  {
    EncodedLength(t.bytes);
  }

  /** A text of the wrong length for `n` bytes is refused, whatever its characters. */
  lemma {:induction false} WrongLengthTextRefused(s: string, n: nat)
    requires FromBase64Url(s, n).Ok?
    ensures |s| == (4 * n + 2) / 3
  {
    var t := FromBase64Url(s, n).value;
    EncodedLength(t.bytes);
  }

  // ---------------------------------------------------------------------------
  // Constant-time equality (`subtle::ConstantTimeEq` on byte slices)

  /** `u8::ct_eq`: 1 exactly when the bytes are equal, computed without branching. */
  function ByteCtEq(a: byte, b: byte): bv8
  {
    var x := (a as bv8) ^ (b as bv8);
    var y := (x | (0 - x)) >> 7;
    y ^ 1
  }

  /** The branch-free test: `((x | -x) >> 7) ^ 1` is 1 exactly when `x` is zero. */
  lemma ZeroFlag(x: bv8)
    ensures ((x | (0 - x)) >> 7) ^ 1 == if x == 0 then 1 else 0
  {
  }

  lemma CastBack(a: byte)
    ensures (a as bv8) as int == a
  {
    assert a % 256 == a;
  }

  lemma CastInjective(a: byte, b: byte)
    ensures (a as bv8 == b as bv8) <==> a == b
  {
    CastBack(a);
    CastBack(b);
  }

  lemma ByteCtEqIsEquality(a: byte, b: byte)
    ensures ByteCtEq(a, b) == if a == b then 1 else 0
  {
    var x := (a as bv8) ^ (b as bv8);
    ZeroFlag(x);
    assert x == 0 <==> (a as bv8) == (b as bv8);
    CastInjective(a, b);
  }

  /** The slice loop: `x &= a[i].ct_eq(b[i])` over the zipped bytes. */
  function AndFold(a: seq<byte>, b: seq<byte>, x: bv8): bv8
    requires |a| == |b|
  {
    if a == [] then x else AndFold(a[1..], b[1..], x & ByteCtEq(a[0], b[0]))
  }

  /** Slice `ct_eq`: unequal lengths compare unequal, otherwise the folded flag decides. */
  function SliceCtEq(a: seq<byte>, b: seq<byte>): bool
  {
    |a| == |b| && AndFold(a, b, 1) == 1
  }

  /** `Token::ct_eq`, which is also the token's `PartialEq`. */
  function CtEq(t: Token, u: Token): bool
  {
    SliceCtEq(t.bytes, u.bytes)
  }

  lemma {:induction false} AndFoldIsEquality(a: seq<byte>, b: seq<byte>, x: bv8)
    requires |a| == |b| && (x == 0 || x == 1)
    ensures AndFold(a, b, x) == if a == b then x else 0
    decreases |a|
  {
    if a != [] {
      ByteCtEqIsEquality(a[0], b[0]);
      AndFoldIsEquality(a[1..], b[1..], x & ByteCtEq(a[0], b[0]));
      assert a == b <==> a[0] == b[0] && a[1..] == b[1..] by {
        if a[0] == b[0] && a[1..] == b[1..] {
          assert a == [a[0]] + a[1..] && b == [b[0]] + b[1..];
        }
      }
    }
  }

  /** Token equality is exactly equality of the token bytes. */
  lemma CtEqIsByteEquality(t: Token, u: Token)
    ensures CtEq(t, u) <==> t == u
  {
    if |t.bytes| == |u.bytes| {
      AndFoldIsEquality(t.bytes, u.bytes, 1);
    }
  }
}
