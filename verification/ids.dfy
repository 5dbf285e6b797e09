/**
 * Prefixed identifiers (shift/src/ids.rs, the `define_id_type!` macro).
 *
 * An id is a 64-bit number.  It is displayed as its prefix followed by the number in
 * lower-case hexadecimal without leading zeros, and parsed back by checking the prefix and
 * handing the rest to Rust's `u64::from_str_radix(rest, 16)`, which also accepts a leading
 * `+`, upper-case digits and leading zeros.
 */
module Ids {
  import opened Wrappers

  const U64_MAX: nat := 0xFFFF_FFFF_FFFF_FFFF

  type U64 = n: nat | n <= U64_MAX

  /** `u64::saturating_add(1)`. */
  function SaturatingInc(x: nat): nat
  {
    if x < U64_MAX then x + 1 else U64_MAX
  }

  const SESSION_PREFIX: string := "se_"
  const MONITOR_PREFIX: string := "mon_"

  datatype SessionId = SessionId(raw: U64)
  datatype MonitorId = MonitorId(raw: U64)

  /** The kinds of `std::num::ParseIntError` that an unsigned parse can report. */
  datatype IntErrorKind = Empty | InvalidDigit | PosOverflow

  datatype IdParseError =
    | InvalidHex(kind: IntErrorKind)
    | InvalidPrefix(expected: string, found: Option<string>)

  // ---------------------------------------------------------------------------
  // Display: prefix + `{:x}`

  predicate IsLowerHexDigit(c: char)
  {
    '0' <= c <= '9' || 'a' <= c <= 'f'
  }

  function HexDigit(d: nat): (c: char)
    requires d < 16
    ensures IsLowerHexDigit(c)
    ensures c == '0' <==> d == 0
  {
    if d < 10 then ('0' as int + d) as char else ('a' as int + d - 10) as char
  }

  /** `{:x}`: lower-case hexadecimal, no leading zeros, "0" for zero. */
  function Hex(n: nat): (s: string)
    ensures |s| >= 1
    ensures forall i :: 0 <= i < |s| ==> IsLowerHexDigit(s[i])
    ensures s[0] == '0' ==> s == "0" && n == 0
    decreases n
  {
    if n < 16 then [HexDigit(n)] else Hex(n / 16) + [HexDigit(n % 16)]
  }

  function Display(prefix: string, n: U64): (s: string)
    ensures prefix <= s
    ensures |s| > |prefix|
  {
    prefix + Hex(n)
  }

  function SessionIdString(id: SessionId): string
  {
    Display(SESSION_PREFIX, id.raw)
  }

  function MonitorIdString(id: MonitorId): string
  {
    Display(MONITOR_PREFIX, id.raw)
  }

  // ---------------------------------------------------------------------------
  // Parsing: `u64::from_str_radix(s, 16)`

  /** `char::to_digit(16)`. */
  function DigitValue(c: char): (r: Option<nat>)
    ensures r.Some? ==> r.value < 16
    ensures r.Some? <==> ('0' <= c <= '9' || 'a' <= c <= 'f' || 'A' <= c <= 'F')
  {
    if '0' <= c <= '9' then Some(c as int - '0' as int)
    else if 'a' <= c <= 'f' then Some(c as int - 'a' as int + 10)
    else if 'A' <= c <= 'F' then Some(c as int - 'A' as int + 10)
    else None
  }

  /**
   * The digit loop of `from_str_radix`: digits are consumed left to right, an invalid
   * digit is reported before an overflow caused by the same position.
   */
  function Accumulate(acc: U64, s: string): (r: Result<U64, IntErrorKind>)
    ensures r.Ok? ==> acc <= r.value
    ensures r.Err? ==> r.error != Empty
    decreases |s|
  {
    if s == [] then Ok(acc)
    else match DigitValue(s[0])
      case None => Err(InvalidDigit)
      case Some(d) =>
        if acc * 16 + d > U64_MAX then Err(PosOverflow) else Accumulate(acc * 16 + d, s[1..])
  }

  /** Every character is a hex digit of either case. */
  predicate AllHex(s: string)
  {
    forall i :: 0 <= i < |s| ==> DigitValue(s[i]).Some?
  }

  /** The value of a run of hex digits appended to `acc`, without any width limit. */
  function Eval(acc: nat, s: string): (r: nat)
    requires AllHex(s)
    ensures r >= acc
    decreases |s|
  {
    if s == [] then acc else Eval(acc * 16 + DigitValue(s[0]).value, s[1..])
  }

  /** The length of the longest prefix made of hex digits. */
  function HexRun(s: string): (k: nat)
    ensures k <= |s| && AllHex(s[..k])
    ensures k < |s| ==> DigitValue(s[k]).None?
    decreases |s|
  {
    if s == [] || DigitValue(s[0]).None? then 0
    else
      var k := HexRun(s[1..]);
      assert s[..k + 1] == [s[0]] + s[1..][..k];
      k + 1
  }

  /**
   * What the digit loop answers, stated through the unbounded value of the leading hex
   * run: an overflow of that run is `PosOverflow`, a non-digit after it is `InvalidDigit`,
   * and a text made only of digits whose value fits is that value.
   */
  lemma {:induction false} AccumulateMeaning(acc: U64, s: string)
    ensures var k := HexRun(s); var v := Eval(acc, s[..k]);
      && (v > U64_MAX ==> Accumulate(acc, s) == Err(PosOverflow))
      && (v <= U64_MAX && k < |s| ==> Accumulate(acc, s) == Err(InvalidDigit))
      && (v <= U64_MAX && k == |s| ==> Accumulate(acc, s) == Ok(v))
    decreases |s|
  {
    var k := HexRun(s);
    if s != [] && DigitValue(s[0]).Some? {
      var d := DigitValue(s[0]).value;
      assert s[..k][0] == s[0];
      assert s[..k][1..] == s[1..][..k - 1];
      if acc * 16 + d <= U64_MAX {
        AccumulateMeaning(acc * 16 + d, s[1..]);
      }
    }
  }

  /** The digits `from_str_radix` reads: the text after an optional leading `+`. */
  function DigitsOf(s: string): string
  {
    if s != [] && s[0] == '+' then s[1..] else s
  }

  /**
   * `u64::from_str_radix(s, 16)`: the empty text is `Empty`, a lone sign is `InvalidDigit`;
   * otherwise the digits after an optional `+` are read, an overflow of their leading hex
   * run is `PosOverflow`, a non-digit after it (a `-` included) is `InvalidDigit`, and
   * digits whose value fits in a u64 give that value.
   */
  function ParseU64Hex(s: string): (r: Result<U64, IntErrorKind>)
    ensures r == Err(Empty) <==> s == []
    ensures s == "+" || s == "-" ==> r == Err(InvalidDigit)
    ensures s != [] && s != "+" && s != "-" ==>
      var t := DigitsOf(s); var k := HexRun(t); var v := Eval(0, t[..k]);
      && (v > U64_MAX ==> r == Err(PosOverflow))
      && (v <= U64_MAX && k < |t| ==> r == Err(InvalidDigit))
      && (v <= U64_MAX && k == |t| ==> r == Ok(v))
  {
    if s == [] then Err(Empty)
    else if s == ['+'] || s == ['-'] then Err(InvalidDigit)
    else
      AccumulateMeaning(0, DigitsOf(s));
      Accumulate(0, DigitsOf(s))
  }

  /** Index of the first `_`, as `split_once("_")` finds it. */
  function FirstUnderscore(s: string): (r: Option<nat>)
    ensures r.Some? ==> r.value < |s| && s[r.value] == '_' && '_' !in s[..r.value]
    ensures r.None? <==> '_' !in s
  {
    if s == [] then None
    else if s[0] == '_' then Some(0)
    else match FirstUnderscore(s[1..])
      case None => None
      case Some(i) => assert s[1..][..i] == s[1..i + 1]; Some(i + 1)
  }

  /** What `InvalidPrefix` reports as found: the text up to and including the first `_`. */
  function FoundPrefix(s: string): (r: Option<string>)
    ensures r.Some? ==> |r.value| > 0 && r.value <= s && r.value[|r.value| - 1] == '_'
    ensures r.None? <==> '_' !in s
  {
    match FirstUnderscore(s)
    case None => None
    case Some(i) => Some(s[..i] + "_")
  }

  /** `FromStr` generated by the macro for an id type with the given prefix. */
  function ParseId(prefix: string, s: string): (r: Result<U64, IdParseError>)
    ensures !(prefix <= s) <==> r == Err(InvalidPrefix(prefix, FoundPrefix(s)))
    ensures prefix <= s && |s| == |prefix| ==> r == Err(InvalidHex(Empty))
    ensures prefix <= s ==> (r.Ok? <==> ParseU64Hex(s[|prefix|..]).Ok?)
    ensures prefix <= s && r.Ok? ==> r.value == ParseU64Hex(s[|prefix|..]).value
    ensures prefix <= s && r.Err? ==> r.error == InvalidHex(ParseU64Hex(s[|prefix|..]).error)
  {
    if !(prefix <= s) then Err(InvalidPrefix(prefix, FoundPrefix(s)))
    else match ParseU64Hex(s[|prefix|..])
      case Ok(n) => Ok(n)
      case Err(k) => Err(InvalidHex(k))
  }

  function ParseSessionId(s: string): Result<SessionId, IdParseError>
  {
    match ParseId(SESSION_PREFIX, s)
    case Ok(n) => Ok(SessionId(n))
    case Err(e) => Err(e)
  }

  function ParseMonitorId(s: string): Result<MonitorId, IdParseError>
  {
    match ParseId(MONITOR_PREFIX, s)
    case Ok(n) => Ok(MonitorId(n))
    case Err(e) => Err(e)
  }

  // ---------------------------------------------------------------------------
  // Round trip

  lemma DigitValueOfHexDigit(d: nat)
    requires d < 16
    ensures DigitValue(HexDigit(d)) == Some(d)
  {
  }

  /** Consuming `s + t` is consuming `s`, then `t` from where `s` left off. */
  lemma {:induction false} AccumulateAppend(acc: U64, s: string, t: string)
    ensures Accumulate(acc, s + t) ==
      match Accumulate(acc, s)
      case Ok(a) => Accumulate(a, t)
      case Err(e) => Err(e)
    decreases |s|
  {
    if s == [] {
      assert s + t == t;
    } else {
      assert (s + t)[0] == s[0];
      assert (s + t)[1..] == s[1..] + t;
      match DigitValue(s[0]) {
        case None =>
        case Some(d) =>
          if acc * 16 + d <= U64_MAX {
            AccumulateAppend(acc * 16 + d, s[1..], t);
          }
      }
    }
  }

  lemma {:induction false} AccumulateHex(n: U64)
    ensures Accumulate(0, Hex(n)) == Ok(n)
    decreases n
  {
    if n < 16 {
      DigitValueOfHexDigit(n);
      assert Hex(n)[1..] == [];
    } else {
      var c := HexDigit(n % 16);
      AccumulateHex(n / 16);
      AccumulateAppend(0, Hex(n / 16), [c]);
      DigitValueOfHexDigit(n % 16);
      assert [c][1..] == [];
    }
  }

  /** Parsing a displayed id gives the id back. */
  lemma {:induction false} ParseDisplayRoundTrip(prefix: string, n: U64)
    ensures ParseId(prefix, Display(prefix, n)) == Ok(n)
  {
    var s := Display(prefix, n);
    assert s[|prefix|..] == Hex(n);
    AccumulateHex(n);
    assert Hex(n)[0] != '+';
    assert Hex(n) != ['-'];
  }

  lemma SessionIdRoundTrip(id: SessionId)
    ensures ParseSessionId(SessionIdString(id)) == Ok(id)
  {
    ParseDisplayRoundTrip(SESSION_PREFIX, id.raw);
  }

  lemma MonitorIdRoundTrip(id: MonitorId)
    ensures ParseMonitorId(MonitorIdString(id)) == Ok(id)
  {
    ParseDisplayRoundTrip(MONITOR_PREFIX, id.raw);
  }

  /** Distinct ids display differently. */
  lemma DisplayInjective(prefix: string, a: U64, b: U64)
    requires Display(prefix, a) == Display(prefix, b)
    ensures a == b
  {
    ParseDisplayRoundTrip(prefix, a);
    ParseDisplayRoundTrip(prefix, b);
  }

  /**
   * The parser is more lenient than the display: a `+` sign, upper-case digits and leading
   * zeros are accepted, so a parsed id need not display as the text it came from.
   */
  lemma ParseAcceptsNonCanonicalText()
    ensures ParseSessionId("se_+0A") == Ok(SessionId(10))
    ensures SessionIdString(SessionId(10)) == "se_a"
  {
    assert "se_+0A"[|SESSION_PREFIX|..] == "+0A";
    assert "+0A"[1..] == "0A";
    assert "0A"[1..] == "A";
    assert "A"[1..] == [];
    assert Accumulate(0, "A") == Ok(10);
    assert Accumulate(0, "0A") == Ok(10);
    assert ParseU64Hex("+0A") == Ok(10);
    assert Hex(10) == "a";
  }
}
