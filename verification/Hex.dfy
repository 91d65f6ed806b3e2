/** Hexadecimal text of fixed-width values (crates/core/src/types.rs). */
module Hex {
  import opened Wrappers
  import opened Bytes
  import opened Fields

  datatype HexError = InvalidData

  predicate IsHexDigit(c: char) {
    '0' <= c <= '9' || 'a' <= c <= 'f' || 'A' <= c <= 'F'
  }

  predicate AllHex(s: string) { forall i :: 0 <= i < |s| ==> IsHexDigit(s[i]) }

  function DigitValue(c: char): (d: nat)
    requires IsHexDigit(c)
    ensures d < 16
  {
    if c <= '9' then c as int - '0' as int
    else if c <= 'F' then c as int - 'A' as int + 10
    else c as int - 'a' as int + 10
  }

  /** The lower-case digit `hex::encode` writes. */
  function DigitChar(d: nat): (c: char)
    requires d < 16
    ensures IsHexDigit(c) && DigitValue(c) == d
  {
    if d < 10 then '0' + d as char else 'a' + (d - 10) as char
  }

  /** The number a hex text denotes, digit by digit: the reference the byte-wise decoder is held to. */
  function HexValue(s: string): nat
    requires AllHex(s)
  {
    if s == "" then 0 else 16 * HexValue(s[..|s| - 1]) + DigitValue(s[|s| - 1])
  }

  function Strip0x(s: string): string { if "0x" <= s then s[2..] else s }

  /** `hex::decode` on an even number of digits: one byte per pair. */
  function DecodePairs(s: string): (b: seq<Byte>)
    requires AllHex(s)
    ensures 2 * |b| <= |s| <= 2 * |b| + 1
  {
    if |s| < 2 then []
    else
      DecodePairs(s[..|s| - 2]) + [16 * DigitValue(s[|s| - 2]) + DigitValue(s[|s| - 1])]
  }

  lemma {:induction false} DecodePairsValue(s: string, pairs: nat)
    requires AllHex(s) && |s| == 2 * pairs
    ensures BeValue(DecodePairs(s)) == HexValue(s)
  {
    if s != "" {
      var n := |s|;
      DecodePairsValue(s[..n - 2], pairs - 1);
      LastByte(DecodePairs(s[..n - 2]), 16 * DigitValue(s[n - 2]) + DigitValue(s[n - 1]));
      LastTwoDigits(s);
    }
  }

  lemma LastByte(b: seq<Byte>, last: Byte)
    ensures BeValue(b + [last]) == 256 * BeValue(b) + last
  {
    assert (b + [last])[..|b|] == b;
  }

  lemma LastTwoDigits(s: string)
    requires AllHex(s) && |s| >= 2
    ensures HexValue(s) == 256 * HexValue(s[..|s| - 2]) + 16 * DigitValue(s[|s| - 2]) + DigitValue(s[|s| - 1])
  {
    assert s[..|s| - 1][..|s| - 2] == s[..|s| - 2];
  }

  lemma {:induction false} LeadingZeroDigit(s: string)
    requires AllHex(s)
    ensures AllHex("0" + s) && HexValue("0" + s) == HexValue(s)
  {
    if s != "" {
      LeadingZeroDigit(s[..|s| - 1]);
      assert ("0" + s)[..|s|] == "0" + s[..|s| - 1];
    }
  }

  lemma {:induction false} HexValueBound(s: string, n: nat)
    requires AllHex(s) && |s| <= 2 * n
    ensures HexValue(s) < Pow256(n)
  {
    if |s| >= 2 {
      HexValueBound(s[..|s| - 2], n - 1);
      assert s[..|s| - 1][..|s| - 2] == s[..|s| - 2];
    } else if |s| == 1 {
      assert HexValue(s[..0]) == 0;
    }
  }

  /** What `decode_fixed_hex` promises: the big-endian value in exactly `n` bytes, or an error. */
  function FixedHex(n: nat, s: string): (r: Result<seq<Byte>, HexError>)
  {
    var raw := Strip0x(s);
    if |raw| <= 2 * n && AllHex(raw) then Ok(ToBe(HexValue(raw), n)) else Err(InvalidData)
  }

  lemma FixedHexValue(n: nat, s: string)
    ensures FixedHex(n, s).Ok? <==> |Strip0x(s)| <= 2 * n && AllHex(Strip0x(s))
    ensures FixedHex(n, s).Ok? ==>
              |FixedHex(n, s).value| == n && BeValue(FixedHex(n, s).value) == HexValue(Strip0x(s))
  {
    var raw := Strip0x(s);
    if |raw| <= 2 * n && AllHex(raw) {
      HexValueBound(raw, n);
      BeOfToBe(HexValue(raw), n);
    }
  }

  /** The digits with the leading zero that makes their number even. */
  function Padded(raw: string): string { if |raw| % 2 == 1 then "0" + raw else raw }

  lemma PaddedDigits(raw: string) returns (pairs: nat)
    ensures |Padded(raw)| == 2 * pairs && pairs == (|raw| + 1) / 2
    ensures AllHex(Padded(raw)) <==> AllHex(raw)
    ensures AllHex(raw) ==> HexValue(Padded(raw)) == HexValue(raw)
  {
    pairs := (|raw| + 1) / 2;
    if AllHex(raw) { LeadingZeroDigit(raw); }
    if AllHex(Padded(raw)) && |raw| % 2 == 1 { assert Padded(raw)[1..] == raw; }
  }

  /** Once the digit count has passed the first check, the decoded bytes always fit. */
  lemma SecondLengthCheckIsDead(n: nat, raw: string)
    requires |raw| <= 2 * n && AllHex(raw)
    ensures AllHex(Padded(raw)) && |DecodePairs(Padded(raw))| <= n
  {
    var pairs := PaddedDigits(raw);
  }

  method DecodeFixedHex(n: nat, s: string) returns (r: Result<seq<Byte>, HexError>)
    ensures r == FixedHex(n, s)
  {
    var raw := Strip0x(s);
    if |raw| > 2 * n {
      return Err(InvalidData);
    }
    var padded := Padded(raw);
    ghost var pairs := PaddedDigits(raw);
    if !AllHex(padded) {
      return Err(InvalidData);
    }
    var decoded := DecodePairs(padded);
    if |decoded| > n {
      return Err(InvalidData);
    }
    var out := new Byte[n](_ => 0);
    for i := 0 to |decoded|
      invariant forall j :: 0 <= j < n - |decoded| ==> out[j] == 0
      invariant forall j :: 0 <= j < i ==> out[n - |decoded| + j] == decoded[j]
    {
      out[n - |decoded| + i] := decoded[i];
    }
    RightAligned(n, padded, pairs, out[..]);
    r := Ok(out[..]);
  }

  /** The decoded bytes at the right end of `n` bytes spell the value of the digits. */
  lemma RightAligned(n: nat, padded: string, pairs: nat, out: seq<Byte>)
    requires AllHex(padded) && |padded| == 2 * pairs && |out| == n && pairs <= n
    requires forall j :: 0 <= j < n - pairs ==> out[j] == 0
    requires forall j :: 0 <= j < pairs ==> out[n - pairs + j] == DecodePairs(padded)[j]
    ensures ToBe(HexValue(padded), n) == out
  {
    var decoded := DecodePairs(padded);
    var lead: seq<Byte> := seq(n - pairs, _ => 0);
    assert out == lead + decoded;
    DecodePairsValue(padded, pairs);
    BeValueLeadingZeros(n - pairs, decoded);
    ToBeOfBe(out);
  }

  /** `hex::encode`: two lower-case digits per byte. */
  function EncodeHex(b: seq<Byte>): (s: string)
    ensures |s| == 2 * |b| && AllHex(s)
  {
    if b == [] then ""
    else
      var last := b[|b| - 1];
      EncodeHex(b[..|b| - 1]) + [DigitChar(last / 16), DigitChar(last % 16)]
  }

  lemma {:induction false} EncodeHexValue(b: seq<Byte>)
    ensures HexValue(EncodeHex(b)) == BeValue(b)
  {
    if b != [] {
      var s := EncodeHex(b);
      EncodeHexValue(b[..|b| - 1]);
      assert s[..|s| - 1][..|s| - 2] == EncodeHex(b[..|b| - 1]);
    }
  }

  /** Display of a 32-byte value: `0x` and 64 digits. */
  function Display(b: seq<Byte>): string { "0x" + EncodeHex(b) }

  /** `decode_fixed_hex` undoes `encode_hex` on every byte string of the decoder's width. */
  lemma FixedHexUndoesDisplay(b: seq<Byte>)
    ensures FixedHex(|b|, Display(b)) == Ok(b)
  {
    assert Strip0x(Display(b)) == EncodeHex(b);
    EncodeHexValue(b);
    ToBeOfBe(b);
  }

  /** Only a lower-case "0x" in front is taken off; the digits written are lower-case. */
  lemma TextForm(digits: string, b: seq<Byte>)
    ensures Strip0x("0x" + digits) == digits
    ensures (|digits| < 2 || digits[0] != '0' || digits[1] != 'x') ==> Strip0x(digits) == digits
    ensures forall i :: 0 <= i < |EncodeHex(b)| ==> '0' <= EncodeHex(b)[i] <= '9' || 'a' <= EncodeHex(b)[i] <= 'f'
  {
    assert ("0x" + digits)[2..] == digits;
    LowerCase(b);
  }

  lemma {:induction false} LowerCase(b: seq<Byte>)
    ensures forall i :: 0 <= i < |EncodeHex(b)| ==> '0' <= EncodeHex(b)[i] <= '9' || 'a' <= EncodeHex(b)[i] <= 'f'
  {
    if b != [] {
      LowerCase(b[..|b| - 1]);
    }
  }

  function FrFromHex(s: string): Result<Fr, HexError> {
    match FixedHex(32, s)
    case Ok(b) => Ok(FrFromBytes(b))
    case Err(e) => Err(e)
  }

  function FqFromHex(s: string): Result<Fq, HexError> {
    match FixedHex(32, s)
    case Ok(b) => Ok(FqFromBytes(b))
    case Err(e) => Err(e)
  }

  /** Parsing undoes printing for every element of either field. */
  lemma FieldHexRoundTrip(x: Fr, y: Fq)
    ensures FrFromHex(Display(FrToBytes(x))) == Ok(x)
    ensures FqFromHex(Display(FqToBytes(y))) == Ok(y)
  {
    FrBytesRoundTrip(x);
    FqBytesRoundTrip(y);
    FixedHexUndoesDisplay(FrToBytes(x));
    FixedHexUndoesDisplay(FqToBytes(y));
  }

  /** Every accepted text denotes its value modulo the field order, with or without the prefix. */
  lemma FrFromHexValue(s: string)
    requires FrFromHex(s).Ok?
    ensures AllHex(Strip0x(s)) && FrFromHex(s).value == HexValue(Strip0x(s)) % R
  {
    FixedHexValue(32, s);
  }
}
