/**
 * The Bluetooth UUID value type of ble/types/uuid.go: four 32-bit words,
 * serialised big-endian word by word, with the 16- and 32-bit short forms
 * built on the package's base words.
 *
 * The package keeps the Bluetooth Base UUID word-reversed
 * ({0x5F9B34FB, 0x80000080, 0x00001000, 0}) and puts a short value in the
 * LAST word; this module follows that layout, not the byte layout of the
 * Bluetooth Core Specification.
 */
module Uuid {
  import opened Wrappers
  import opened Errors
  import Hex

  /** Go's `[16]byte`. */
  type Bytes16 = b: seq<bv8> | |b| == 16
    witness [0, 0, 0, 0, 0, 0, 0, 0, 0, 0, 0, 0, 0, 0, 0, 0]

  /** `type UUID [4]uint32`. */
  datatype UUID = UUID(w0: bv32, w1: bv32, w2: bv32, w3: bv32)

  const NilUuid: UUID := UUID(0, 0, 0, 0)
  const BaseUuid: UUID := UUID(0x5F9B34FB, 0x80000080, 0x00001000, 0x00000000)

  /** `u[i]`. */
  function Word(u: UUID, i: nat): bv32
    requires i < 4
  {
    if i == 0 then u.w0 else if i == 1 then u.w1 else if i == 2 then u.w2 else u.w3
  }

  /** Go's `byte(x)`: the low eight bits. */
  function Low8(x: bv32): bv8 {
    (x & 0xFF) as bv8
  }

  /** One word, most significant byte first. */
  function WordBytes(w: bv32): (b: seq<bv8>)
    ensures |b| == 4
  {
    [Low8(w >> 24), Low8(w >> 16), Low8(w >> 8), Low8(w >> 0)]
  }

  /** `uint32(b0)<<24 | uint32(b1)<<16 | uint32(b2)<<8 | uint32(b3)`. */
  function WordOf(b0: bv8, b1: bv8, b2: bv8, b3: bv8): bv32 {
    ((b0 as bv32) << 24) | ((b1 as bv32) << 16) | ((b2 as bv32) << 8) | (b3 as bv32)
  }

  lemma WordRoundTrip(w: bv32)
    ensures WordOf(Low8(w >> 24), Low8(w >> 16), Low8(w >> 8), Low8(w >> 0)) == w
  {
  }

  lemma BytesOfWord(b0: bv8, b1: bv8, b2: bv8, b3: bv8)
    ensures WordBytes(WordOf(b0, b1, b2, b3)) == [b0, b1, b2, b3]
  {
  }

  /** The value `Bytes` returns: the four words, each big-endian. */
  function BytesOf(u: UUID): Bytes16
  {
    WordBytes(u.w0) + WordBytes(u.w1) + WordBytes(u.w2) + WordBytes(u.w3)
  }

  /** Bytes 4i..4i+4 are word i, most significant byte first. */
  lemma BytesOfWordAt(u: UUID, i: nat)
    requires i < 4
    ensures BytesOf(u)[4 * i..4 * i + 4] == WordBytes(Word(u, i))
  {
  }

  /** The serialisation up to word i + 1 is the one up to word i followed by word i's bytes. */
  lemma BytesOfPrefix(u: UUID, i: nat)
    requires i < 4
    ensures BytesOf(u)[..4 * (i + 1)] == BytesOf(u)[..4 * i] + WordBytes(Word(u, i))
  {
    BytesOfWordAt(u, i);
    assert BytesOf(u)[..4 * (i + 1)] == BytesOf(u)[..4 * i] + BytesOf(u)[4 * i..4 * i + 4];
  }

  /** `Bytes`: fills a `[16]byte` word by word. */
  method Bytes(u: UUID) returns (b: Bytes16)
    ensures b == BytesOf(u)
  {
    var a := new bv8[16];
    for i := 0 to 4
      invariant a[..4 * i] == BytesOf(u)[..4 * i]
    {
      var w := Word(u, i);
      BytesOfPrefix(u, i);
      a[i * 4 + 0] := Low8(w >> 24);
      a[i * 4 + 1] := Low8(w >> 16);
      a[i * 4 + 2] := Low8(w >> 8);
      a[i * 4 + 3] := Low8(w >> 0);
      assert a[..4 * (i + 1)] == a[..4 * i] + WordBytes(w);
    }
    assert a[..] == a[..16];
    b := a[..];
  }

  /** `NewUUIDFromUUID`: four big-endian words from a `uuid.UUID`'s 16 bytes. */
  function FromUuid(b: Bytes16): (u: UUID)
    ensures BytesOf(u) == b
  {
    var u := UUID(WordOf(b[0], b[1], b[2], b[3]), WordOf(b[4], b[5], b[6], b[7]),
                  WordOf(b[8], b[9], b[10], b[11]), WordOf(b[12], b[13], b[14], b[15]));
    BytesOfWord(b[0], b[1], b[2], b[3]);
    BytesOfWord(b[4], b[5], b[6], b[7]);
    BytesOfWord(b[8], b[9], b[10], b[11]);
    BytesOfWord(b[12], b[13], b[14], b[15]);
    assert BytesOf(u) == b;
    u
  }

  /** Serialising and then reading back gives the same UUID. */
  lemma FromUuidBytes(u: UUID)
    ensures FromUuid(BytesOf(u)) == u
  {
    WordRoundTrip(u.w0);
    WordRoundTrip(u.w1);
    WordRoundTrip(u.w2);
    WordRoundTrip(u.w3);
  }

  /** Two UUIDs with the same bytes are the same UUID. */
  lemma BytesInjective(a: UUID, b: UUID)
    ensures BytesOf(a) == BytesOf(b) ==> a == b
  {
    FromUuidBytes(a);
    FromUuidBytes(b);
  }

  /** `NewUUIDFromBytes`: a slice of exactly 16 bytes, else the nil UUID and an error. */
  function FromBytes(b: seq<bv8>): (r: (UUID, Option<Error>))
    ensures |b| != 16 ==> r == (NilUuid, Some(InvalidByteLength(|b|)))
    ensures |b| == 16 ==> r.1 == None && BytesOf(r.0) == b
  {
    if |b| != 16 then (NilUuid, Some(InvalidByteLength(|b|)))
    else (FromUuid(b), None)
  }

  lemma {:induction false} FromBytesRoundTrip(u: UUID)
    ensures FromBytes(BytesOf(u)) == (u, None)
  {
    FromUuidBytes(u);
  }

  /** `NewUUIDFromUUID16`: the base words with the value in the last word. */
  function FromUuid16(v: bv16): (u: UUID)
    ensures IsUuid16(u) && Uuid16(u) == (v, true)
  {
    var u := UUID(BaseUuid.w0, BaseUuid.w1, BaseUuid.w2, v as bv32);
    assert IsUuid16(u);
    Widen16(v);
    assert Uuid16(u).0 == v;
    u
  }

  /** `uint32(v)` keeps a 16-bit value in the low half, and `uint16` of it gives it back. */
  lemma Widen16(v: bv16)
    ensures (v as bv32) & 0xFFFF == v as bv32
    ensures ((v as bv32) & 0xFFFF) as bv16 == v
  {
  }

  /** `NewUUIDFromUUID32`: the base words with the value in the last word. */
  function FromUuid32(v: bv32): (u: UUID)
    ensures IsUuid32(u) <==> v > 0xFFFF
    ensures IsUuid16(u) <==> v <= 0xFFFF
    ensures IsUuid32(u) ==> Uuid32(u) == (v, true)
  {
    var u := UUID(BaseUuid.w0, BaseUuid.w1, BaseUuid.w2, v);
    Low16(v);
    assert IsUuid32(u) <==> v > 0xFFFF;
    assert IsUuid16(u) <==> v <= 0xFFFF;
    u
  }

  /** A word equals its low half exactly when it fits in 16 bits. */
  lemma Low16(w: bv32)
    ensures w == w & 0xFFFF <==> w <= 0xFFFF
    ensures w <= 0xFFFF ==> (w & 0xFFFF) as bv16 == w as bv16
  {
  }

  /** The three leading words are the base's. */
  predicate OnBase(u: UUID) {
    u.w0 == BaseUuid.w0 && u.w1 == BaseUuid.w1 && u.w2 == BaseUuid.w2
  }

  predicate IsUuid16(u: UUID) {
    OnBase(u) && u.w3 == u.w3 & 0xFFFF
  }

  predicate IsUuid32(u: UUID) {
    OnBase(u) && u.w3 != u.w3 & 0xFFFF
  }

  predicate IsUuid128(u: UUID) {
    !IsUuid16(u) && !IsUuid32(u)
  }

  /** Every UUID falls in exactly one of the three classes. */
  lemma ExactlyOneClass(u: UUID)
    ensures IsUuid16(u) || IsUuid32(u) || IsUuid128(u)
    ensures !(IsUuid16(u) && IsUuid32(u))
    ensures !(IsUuid16(u) && IsUuid128(u))
    ensures !(IsUuid32(u) && IsUuid128(u))
  {
  }

  /** `UUID16`: the short value of a 16-bit UUID, `(0, false)` otherwise. */
  function Uuid16(u: UUID): (r: (bv16, bool))
    ensures r.1 == IsUuid16(u)
    ensures !r.1 ==> r.0 == 0
    ensures r.1 ==> u == UUID(BaseUuid.w0, BaseUuid.w1, BaseUuid.w2, r.0 as bv32)
  {
    if !IsUuid16(u) then (0, false) else ((u.w3 & 0xFFFF) as bv16, true)
  }

  /** `UUID32`: the short value of a 32-bit UUID, `(0, false)` otherwise. */
  function Uuid32(u: UUID): (r: (bv32, bool))
    ensures r.1 == IsUuid32(u)
    ensures !r.1 ==> r.0 == 0
    ensures r.1 ==> r.0 > 0xFFFF && u == UUID(BaseUuid.w0, BaseUuid.w1, BaseUuid.w2, r.0)
  {
    if !IsUuid32(u) then (0, false) else (u.w3, true)
  }

  /** `Equal`: Go's array comparison. */
  predicate Equal(u: UUID, other: UUID)
  {
    u == other
  }

  lemma EqualIsWordwise(u: UUID, other: UUID)
    ensures Equal(u, other) <==> u.w0 == other.w0 && u.w1 == other.w1 && u.w2 == other.w2 && u.w3 == other.w3
    ensures Equal(u, other) <==> BytesOf(u) == BytesOf(other)
  {
    BytesInjective(u, other);
  }

  /** `IsNil`. */
  predicate IsNil(u: UUID)
  {
    Equal(u, NilUuid)
  }

  lemma IsNilIsAllZero(u: UUID)
    ensures IsNil(u) <==> u.w0 == 0 && u.w1 == 0 && u.w2 == 0 && u.w3 == 0
    ensures IsNil(u) <==> forall k :: 0 <= k < 16 ==> BytesOf(u)[k] == 0
  {
    BytesInjective(u, NilUuid);
    if forall k :: 0 <= k < 16 ==> BytesOf(u)[k] == 0 {
      assert BytesOf(u) == BytesOf(NilUuid);
    }
  }

  /**
   * The text parser the package calls (`uuid.Parse` of github.com/google/uuid)
   * is outside the model: it is a parameter giving, for a string, the 16 bytes
   * it denotes or nothing when the text is malformed.
   */
  type Parser = string -> Option<Bytes16>

  /** `NewUUIDFromString`. */
  function FromString(s: string, parse: Parser): (r: (UUID, Option<Error>))
    ensures parse(s).None? ==> r == (NilUuid, Some(ParseFailure))
    ensures parse(s).Some? ==> r.1 == None && BytesOf(r.0) == parse(s).value
  {
    match parse(s)
    case None => (NilUuid, Some(ParseFailure))
    case Some(b) => (FromUuid(b), None)
  }

  /** `MustUUIDFromString`. */
  function MustFromString(s: string, parse: Parser): (u: UUID)
    ensures FromString(s, parse).1.Some? ==> u == NilUuid
    ensures FromString(s, parse).1.None? ==> u == FromString(s, parse).0
  {
    var (v, err) := FromString(s, parse);
    if err.Some? then NilUuid else v
  }

  /**
   * The dynamic types `NewUUIDFrom` switches on. `OfInteger` stands for a
   * value of any other integer type, which the package converts with a
   * range-checked cast, first to `uint16` and then to `uint32`;
   * `OtherValue` stands for a value no such cast accepts.
   */
  datatype Source =
    | OfUuid(u: UUID)
    | OfGoogleUuid(b: Bytes16)
    | OfUint16(v16: bv16)
    | OfUint32(v32: bv32)
    | OfString(s: string)
    | OfByteSlice(bytes: seq<bv8>)
    | OfInteger(n: int)
    | OtherValue

  /**
   * The fallback of `NewUUIDFrom` for other integer types: a value that fits
   * in 16 bits gives a 16-bit UUID, one that fits in 32 bits a 32-bit UUID,
   * anything else the type error.
   */
  function FromInteger(n: int): (r: (UUID, Option<Error>))
    ensures 0 <= n < 0x1_0000 ==> r.1 == None && Uuid16(r.0) == (n as bv16, true)
    ensures 0x1_0000 <= n < 0x1_0000_0000 ==> r.1 == None && OnBase(r.0) && r.0.w3 == n as bv32
    ensures (n < 0 || n >= 0x1_0000_0000) ==> r == (NilUuid, Some(InvalidType))
  {
    if 0 <= n < 0x1_0000 then
      var v := n as bv16;
      var u := FromUuid16(v);
      assert Uuid16(u) == (v, true);
      (u, None)
    else if 0 <= n < 0x1_0000_0000 then
      (FromUuid32(n as bv32), None)
    else (NilUuid, Some(InvalidType))
  }

  /** `NewUUIDFrom`: each typed case and its error. */
  function From(v: Source, parse: Parser): (r: (UUID, Option<Error>))
    ensures r.1.Some? ==> r.0 == NilUuid
    ensures v.OfUuid? ==> r == (v.u, None)
    ensures v.OfGoogleUuid? ==> r.1 == None && BytesOf(r.0) == v.b
    ensures v.OfUint16? ==> r.1 == None && Uuid16(r.0) == (v.v16, true)
    ensures v.OfUint32? ==> r.1 == None && r.0.w3 == v.v32 && OnBase(r.0)
    ensures v.OfUint32? ==> (IsUuid32(r.0) <==> v.v32 > 0xFFFF) && (IsUuid16(r.0) <==> v.v32 <= 0xFFFF)
    ensures v.OfString? ==> r == FromString(v.s, parse)
    ensures v.OfByteSlice? ==> (r.1 == None <==> |v.bytes| == 16)
    ensures v.OfByteSlice? && |v.bytes| == 16 ==> BytesOf(r.0) == v.bytes
    ensures v.OfInteger? ==> r == FromInteger(v.n)
    ensures v.OtherValue? ==> r == (NilUuid, Some(InvalidType))
  {
    match v
    case OfUuid(u) => (u, None)
    case OfGoogleUuid(b) => (FromUuid(b), None)
    case OfUint16(x) => (FromUuid16(x), None)
    case OfUint32(x) => (FromUuid32(x), None)
    case OfString(s) => FromString(s, parse)
    case OfByteSlice(b) => FromBytes(b)
    case OfInteger(n) => FromInteger(n)
    case OtherValue => (NilUuid, Some(InvalidType))
  }

  /** `MustUUIDFrom`: the nil UUID when `NewUUIDFrom` fails, its value otherwise. */
  function MustFrom(v: Source, parse: Parser): (u: UUID)
    ensures From(v, parse).1.Some? ==> u == NilUuid
    ensures From(v, parse).1.None? ==> u == From(v, parse).0
    ensures v.OfUint16? ==> IsUuid16(u)
  {
    var (x, err) := From(v, parse);
    if err.Some? then NilUuid else x
  }

  /**
   * `String`: `%X` of the byte groups 0..4, 4..6, 6..8, 8..10 and 10..16,
   * joined by '-' (the `strings.ToUpper` around it changes nothing, as `%X`
   * already writes upper-case digits).
   */
  function String(u: UUID): (s: string)
    ensures |s| == 36
    ensures s[8] == '-' && s[13] == '-' && s[18] == '-' && s[23] == '-'
  {
    var b := BytesOf(u);
    Hex.EncodeUpper(b[0..4]) + "-" + Hex.EncodeUpper(b[4..6]) + "-" + Hex.EncodeUpper(b[6..8])
      + "-" + Hex.EncodeUpper(b[8..10]) + "-" + Hex.EncodeUpper(b[10..16])
  }

  /**
   * Reads back the canonical 8-4-4-4-12 text (digits of either case).
   * This is the inverse used to state that `String` loses nothing; it is not
   * a model of `uuid.Parse`, which accepts more forms.
   */
  function ParseCanonical(s: string): (r: Option<UUID>)
  {
    if |s| != 36 || s[8] != '-' || s[13] != '-' || s[18] != '-' || s[23] != '-' then None
    else match Hex.Decode(s[0..8] + s[9..13] + s[14..18] + s[19..23] + s[24..36])
      case Some(b) => if |b| == 16 then Some(FromUuid(b)) else None
      case None => None
  }

  /** `String` is injective: the canonical parser recovers the UUID from it. */
  lemma ParseString(u: UUID)
    ensures ParseCanonical(String(u)) == Some(u)
  {
    var b := BytesOf(u);
    var s := String(u);
    var e0, e1, e2, e3, e4 := Hex.EncodeUpper(b[0..4]), Hex.EncodeUpper(b[4..6]),
      Hex.EncodeUpper(b[6..8]), Hex.EncodeUpper(b[8..10]), Hex.EncodeUpper(b[10..16]);
    assert s == e0 + "-" + e1 + "-" + e2 + "-" + e3 + "-" + e4;
    assert s[0..8] + s[9..13] + s[14..18] + s[19..23] + s[24..36] == e0 + e1 + e2 + e3 + e4;
    EncodeGroups(b);
    Hex.DecodeUpper(b);
    FromUuidBytes(u);
  }

  /** The five groups of `String`, run together, are the text of all 16 bytes. */
  lemma EncodeGroups(b: Bytes16)
    ensures Hex.EncodeUpper(b[0..4]) + Hex.EncodeUpper(b[4..6]) + Hex.EncodeUpper(b[6..8])
      + Hex.EncodeUpper(b[8..10]) + Hex.EncodeUpper(b[10..16]) == Hex.EncodeUpper(b)
  {
    Hex.EncodeUpperAppend(b[0..4], b[4..6]);
    assert b[0..4] + b[4..6] == b[0..6];
    Hex.EncodeUpperAppend(b[0..6], b[6..8]);
    assert b[0..6] + b[6..8] == b[0..8];
    Hex.EncodeUpperAppend(b[0..8], b[8..10]);
    assert b[0..8] + b[8..10] == b[0..10];
    Hex.EncodeUpperAppend(b[0..10], b[10..16]);
    assert b[0..10] + b[10..16] == b;
  }

  lemma StringInjective(a: UUID, b: UUID)
    ensures String(a) == String(b) ==> a == b
  {
    ParseString(a);
    ParseString(b);
  }

  /** Every character of `String` other than the four dashes is an upper-case hex digit. */
  lemma StringDigits(u: UUID, k: nat)
    requires k < 36 && k != 8 && k != 13 && k != 18 && k != 23
    ensures String(u)[k] in Hex.UpperDigits
  {
    var b := BytesOf(u);
    var s := String(u);
    var e0, e1, e2, e3, e4 := Hex.EncodeUpper(b[0..4]), Hex.EncodeUpper(b[4..6]),
      Hex.EncodeUpper(b[6..8]), Hex.EncodeUpper(b[8..10]), Hex.EncodeUpper(b[10..16]);
    assert s == e0 + "-" + e1 + "-" + e2 + "-" + e3 + "-" + e4;
    if k < 8 {
      assert s[k] == e0[k];
      Hex.UpperDigitsOnly(b[0..4], k);
    } else if k < 13 {
      assert s[k] == e1[k - 9];
      Hex.UpperDigitsOnly(b[4..6], k - 9);
    } else if k < 18 {
      assert s[k] == e2[k - 14];
      Hex.UpperDigitsOnly(b[6..8], k - 14);
    } else if k < 23 {
      assert s[k] == e3[k - 19];
      Hex.UpperDigitsOnly(b[8..10], k - 19);
    } else {
      assert s[k] == e4[k - 24];
      Hex.UpperDigitsOnly(b[10..16], k - 24);
    }
  }
}

