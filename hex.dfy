/**
 * Hexadecimal text of byte strings: lower case as `hex.EncodeToString` and
 * `%02x` write it, upper case as `%X` writes it, and the decoder that
 * inverts both.
 */
module Hex {
  import opened Wrappers

  const LowerDigits: string := "0123456789abcdef"
  const UpperDigits: string := "0123456789ABCDEF"

  /** The two lower-case digits of one byte, high nibble first (`%02x`). */
  function LowerByte(b: bv8): (s: string)
    ensures |s| == 2
  {
    [LowerDigits[(b >> 4) as int], LowerDigits[(b & 0xF) as int]]
  }

  /** The two upper-case digits of one byte, high nibble first (`%X`). */
  function UpperByte(b: bv8): (s: string)
    ensures |s| == 2
  {
    [UpperDigits[(b >> 4) as int], UpperDigits[(b & 0xF) as int]]
  }

  /** `hex.EncodeToString`: two lower-case digits per byte. */
  function EncodeLower(d: seq<bv8>): (s: string)
    ensures |s| == 2 * |d|
  {
    if d == [] then "" else LowerByte(d[0]) + EncodeLower(d[1..])
  }

  /** `%X` applied to a byte slice: two upper-case digits per byte. */
  function EncodeUpper(d: seq<bv8>): (s: string)
    ensures |s| == 2 * |d|
  {
    if d == [] then "" else UpperByte(d[0]) + EncodeUpper(d[1..])
  }

  /** The value of one hexadecimal digit of either case. */
  function DigitValue(c: char): (v: Option<bv8>)
    ensures v.Some? ==> v.value < 16
  {
    if '0' <= c <= '9' then Some((c as int - '0' as int) as bv8)
    else if 'a' <= c <= 'f' then Some((c as int - 'a' as int + 10) as bv8)
    else if 'A' <= c <= 'F' then Some((c as int - 'A' as int + 10) as bv8)
    else None
  }

  /** Decodes two digits per byte; odd lengths and non-digits are rejected. */
  function Decode(s: string): (r: Option<seq<bv8>>)
    ensures r.Some? ==> 2 * |r.value| == |s|
  {
    if s == [] then Some([])
    else if |s| == 1 then None
    else match (DigitValue(s[0]), DigitValue(s[1]), Decode(s[2..]))
      case (Some(hi), Some(lo), Some(rest)) => Some([(hi << 4) | lo] + rest)
      case _ => None
  }

  lemma LowerDigitValue(n: bv8)
    requires n < 16
    ensures DigitValue(LowerDigits[n as int]) == Some(n)
  {
  }

  lemma UpperDigitValue(n: bv8)
    requires n < 16
    ensures DigitValue(UpperDigits[n as int]) == Some(n)
  {
  }

  lemma Nibbles(b: bv8)
    ensures (b >> 4) < 16 && (b & 0xF) < 16
    ensures ((b >> 4) << 4) | (b & 0xF) == b
  {
  }

  /** The decoder recovers every byte string from its lower-case text. */
  lemma {:induction false} DecodeLower(d: seq<bv8>)
    ensures Decode(EncodeLower(d)) == Some(d)
  {
    if d != [] {
      var s := EncodeLower(d);
      DecodeLower(d[1..]);
      Nibbles(d[0]);
      LowerDigitValue(d[0] >> 4);
      LowerDigitValue(d[0] & 0xF);
      assert s == LowerByte(d[0]) + EncodeLower(d[1..]);
      assert s[0] == LowerDigits[(d[0] >> 4) as int];
      assert s[1] == LowerDigits[(d[0] & 0xF) as int];
      assert s[2..] == EncodeLower(d[1..]);
      assert [((d[0] >> 4) << 4) | (d[0] & 0xF)] + d[1..] == d;
    }
  }

  /** The decoder recovers every byte string from its upper-case text. */
  lemma {:induction false} DecodeUpper(d: seq<bv8>)
    ensures Decode(EncodeUpper(d)) == Some(d)
  {
    if d != [] {
      var s := EncodeUpper(d);
      DecodeUpper(d[1..]);
      Nibbles(d[0]);
      UpperDigitValue(d[0] >> 4);
      UpperDigitValue(d[0] & 0xF);
      assert s == UpperByte(d[0]) + EncodeUpper(d[1..]);
      assert s[0] == UpperDigits[(d[0] >> 4) as int];
      assert s[1] == UpperDigits[(d[0] & 0xF) as int];
      assert s[2..] == EncodeUpper(d[1..]);
      assert [((d[0] >> 4) << 4) | (d[0] & 0xF)] + d[1..] == d;
    }
  }

  lemma LowerByteInjective(a: bv8, b: bv8)
    ensures LowerByte(a) == LowerByte(b) ==> a == b
  {
    if LowerByte(a) == LowerByte(b) {
      DecodeLower([a]);
      DecodeLower([b]);
      assert EncodeLower([a]) == LowerByte(a);
      assert EncodeLower([b]) == LowerByte(b);
    }
  }

  /** Every character of lower-case text is a lower-case digit. */
  lemma {:induction false} LowerDigitsOnly(d: seq<bv8>, j: nat)
    requires j < 2 * |d|
    ensures EncodeLower(d)[j] in LowerDigits
  {
    if j >= 2 {
      LowerDigitsOnly(d[1..], j - 2);
    }
  }

  /** Every character of upper-case text is an upper-case digit. */
  lemma {:induction false} UpperDigitsOnly(d: seq<bv8>, j: nat)
    requires j < 2 * |d|
    ensures EncodeUpper(d)[j] in UpperDigits
  {
    if j >= 2 {
      UpperDigitsOnly(d[1..], j - 2);
    }
  }

  /** Encoding distributes over concatenation. */
  lemma {:induction false} EncodeUpperAppend(a: seq<bv8>, b: seq<bv8>)
    ensures EncodeUpper(a + b) == EncodeUpper(a) + EncodeUpper(b)
  {
    if a == [] {
      assert a + b == b;
    } else {
      assert (a + b)[1..] == a[1..] + b;
      EncodeUpperAppend(a[1..], b);
    }
  }
}
