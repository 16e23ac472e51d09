/**
 * The UUID type of ble/uuid.go. It has the same four-word layout, base
 * words, classifiers, short forms and text as ble/types/uuid.go, so it
 * shares the definitions of module Uuid; what differs is `Bytes`, which
 * returns a freshly made slice, and the text-level vectors of
 * bletest/uuid_test.go.
 */
module BleUuid {
  import opened Wrappers
  import Uuid
  import Hex

  /** `Bytes`: a new 16-byte slice, each word written most significant byte first. */
  method Bytes(u: Uuid.UUID) returns (b: array<bv8>)
    ensures fresh(b)
    ensures b[..] == Uuid.BytesOf(u)
  {
    b := new bv8[16];
    for i := 0 to 4
      invariant b[..4 * i] == Uuid.BytesOf(u)[..4 * i]
    {
      var w := Uuid.Word(u, i);
      Uuid.BytesOfPrefix(u, i);
      b[i * 4 + 0] := Uuid.Low8(w >> 24);
      b[i * 4 + 1] := Uuid.Low8(w >> 16);
      b[i * 4 + 2] := Uuid.Low8(w >> 8);
      b[i * 4 + 3] := Uuid.Low8(w >> 0);
      assert b[..4 * (i + 1)] == b[..4 * i] + Uuid.WordBytes(w);
    }
    assert b[..] == b[..16];
  }

  /** The slice `Bytes` returns reads back, through `NewUUIDFromUUID`, as the same UUID. */
  method BytesRoundTrip(u: Uuid.UUID) returns (v: Uuid.UUID)
    ensures v == u
  {
    var b := Bytes(u);
    v := Uuid.FromUuid(b[..]);
    Uuid.FromUuidBytes(u);
  }

  /** The three vectors of the test, as the words their text denotes. */
  const Vector16: Uuid.UUID := Uuid.UUID(0x5F9B34FB, 0x80000080, 0x00001000, 0x0000FD3D)
  const Vector32: Uuid.UUID := Uuid.UUID(0x5F9B34FB, 0x80000080, 0x00001000, 0x0001ABCD)
  const Vector128: Uuid.UUID := Uuid.UUID(0x00000000, 0x80000080, 0x00001000, 0x0001ABCD)

  /** `String` joins the texts of the five byte groups with dashes. */
  lemma StringOfGroups(u: Uuid.UUID, g0: string, g1: string, g2: string, g3: string, g4: string)
    requires Hex.EncodeUpper(Uuid.BytesOf(u)[0..4]) == g0 && Hex.EncodeUpper(Uuid.BytesOf(u)[4..6]) == g1
    requires Hex.EncodeUpper(Uuid.BytesOf(u)[6..8]) == g2 && Hex.EncodeUpper(Uuid.BytesOf(u)[8..10]) == g3
    requires Hex.EncodeUpper(Uuid.BytesOf(u)[10..16]) == g4
    ensures Uuid.String(u) == g0 + "-" + g1 + "-" + g2 + "-" + g3 + "-" + g4
  {
  }

  /** The five groups of the 16-bit vector's text. */
  lemma Vector16Groups()
    ensures Hex.EncodeUpper(Uuid.BytesOf(Vector16)[0..4]) == "5F9B34FB"
    ensures Hex.EncodeUpper(Uuid.BytesOf(Vector16)[4..6]) == "8000"
    ensures Hex.EncodeUpper(Uuid.BytesOf(Vector16)[6..8]) == "0080"
    ensures Hex.EncodeUpper(Uuid.BytesOf(Vector16)[8..10]) == "0000"
    ensures Hex.EncodeUpper(Uuid.BytesOf(Vector16)[10..16]) == "10000000FD3D"
  {
    var b := Uuid.BytesOf(Vector16);
    assert b[0..4] == [0x5F, 0x9B, 0x34, 0xFB] && b[4..6] == [0x80, 0x00] && b[6..8] == [0x00, 0x80];
    assert b[8..10] == [0x00, 0x00] && b[10..16] == [0x10, 0x00, 0x00, 0x00, 0xFD, 0x3D];
    assert Hex.EncodeUpper([0x5F, 0x9B, 0x34, 0xFB]) == "5F9B34FB";
    assert Hex.EncodeUpper([0x80, 0x00]) == "8000";
    assert Hex.EncodeUpper([0x00, 0x80]) == "0080";
    assert Hex.EncodeUpper([0x00, 0x00]) == "0000";
    assert Hex.EncodeUpper([0x10, 0x00, 0x00, 0x00, 0xFD, 0x3D]) == "10000000FD3D";
  }

  /** The 16-bit vector's text is what `String` writes for its words. */
  lemma Vector16String(u: Uuid.UUID)
    requires u == Vector16
    ensures Uuid.String(u) == "5F9B34FB" + "-" + "8000" + "-" + "0080" + "-" + "0000" + "-" + "10000000FD3D"
  {
    Vector16Groups();
    StringOfGroups(u, "5F9B34FB", "8000", "0080", "0000", "10000000FD3D");
  }

  /** The test's text of the vector, split at its dashes. */
  lemma Vector16Join(s: string)
    requires s == "5F9B34FB-8000-0080-0000-10000000FD3D"
    ensures s == "5F9B34FB" + "-" + "8000" + "-" + "0080" + "-" + "0000" + "-" + "10000000FD3D"
  {
  }

  /** The 16-bit vector's text reads back as its words. */
  lemma Vector16Text(u: Uuid.UUID, s: string)
    requires u == Vector16 && s == "5F9B34FB-8000-0080-0000-10000000FD3D"
    ensures Uuid.ParseCanonical(s) == Some(u)
  {
    Vector16String(u);
    Vector16Join(s);
    Uuid.ParseString(u);
  }

  /** The five groups of the 32-bit vector's text. */
  lemma Vector32Groups()
    ensures Hex.EncodeUpper(Uuid.BytesOf(Vector32)[0..4]) == "5F9B34FB"
    ensures Hex.EncodeUpper(Uuid.BytesOf(Vector32)[4..6]) == "8000"
    ensures Hex.EncodeUpper(Uuid.BytesOf(Vector32)[6..8]) == "0080"
    ensures Hex.EncodeUpper(Uuid.BytesOf(Vector32)[8..10]) == "0000"
    ensures Hex.EncodeUpper(Uuid.BytesOf(Vector32)[10..16]) == "10000001ABCD"
  {
    var b := Uuid.BytesOf(Vector32);
    assert b[0..4] == [0x5F, 0x9B, 0x34, 0xFB] && b[4..6] == [0x80, 0x00] && b[6..8] == [0x00, 0x80];
    assert b[8..10] == [0x00, 0x00] && b[10..16] == [0x10, 0x00, 0x00, 0x01, 0xAB, 0xCD];
    assert Hex.EncodeUpper([0x5F, 0x9B, 0x34, 0xFB]) == "5F9B34FB";
    assert Hex.EncodeUpper([0x80, 0x00]) == "8000";
    assert Hex.EncodeUpper([0x00, 0x80]) == "0080";
    assert Hex.EncodeUpper([0x00, 0x00]) == "0000";
    assert Hex.EncodeUpper([0x10, 0x00, 0x00, 0x01, 0xAB, 0xCD]) == "10000001ABCD";
  }

  /** The 32-bit vector's text is what `String` writes for its words. */
  lemma Vector32String(u: Uuid.UUID)
    requires u == Vector32
    ensures Uuid.String(u) == "5F9B34FB" + "-" + "8000" + "-" + "0080" + "-" + "0000" + "-" + "10000001ABCD"
  {
    Vector32Groups();
    StringOfGroups(u, "5F9B34FB", "8000", "0080", "0000", "10000001ABCD");
  }

  /** The test's text of the vector, split at its dashes. */
  lemma Vector32Join(s: string)
    requires s == "5F9B34FB-8000-0080-0000-10000001ABCD"
    ensures s == "5F9B34FB" + "-" + "8000" + "-" + "0080" + "-" + "0000" + "-" + "10000001ABCD"
  {
  }

  /** The 32-bit vector's text reads back as its words. */
  lemma Vector32Text(u: Uuid.UUID, s: string)
    requires u == Vector32 && s == "5F9B34FB-8000-0080-0000-10000001ABCD"
    ensures Uuid.ParseCanonical(s) == Some(u)
  {
    Vector32String(u);
    Vector32Join(s);
    Uuid.ParseString(u);
  }

  /** The five groups of the 128-bit vector's text. */
  lemma Vector128Groups()
    ensures Hex.EncodeUpper(Uuid.BytesOf(Vector128)[0..4]) == "00000000"
    ensures Hex.EncodeUpper(Uuid.BytesOf(Vector128)[4..6]) == "8000"
    ensures Hex.EncodeUpper(Uuid.BytesOf(Vector128)[6..8]) == "0080"
    ensures Hex.EncodeUpper(Uuid.BytesOf(Vector128)[8..10]) == "0000"
    ensures Hex.EncodeUpper(Uuid.BytesOf(Vector128)[10..16]) == "10000001ABCD"
  {
    var b := Uuid.BytesOf(Vector128);
    assert b[0..4] == [0x00, 0x00, 0x00, 0x00] && b[4..6] == [0x80, 0x00] && b[6..8] == [0x00, 0x80];
    assert b[8..10] == [0x00, 0x00] && b[10..16] == [0x10, 0x00, 0x00, 0x01, 0xAB, 0xCD];
    assert Hex.EncodeUpper([0x00, 0x00, 0x00, 0x00]) == "00000000";
    assert Hex.EncodeUpper([0x80, 0x00]) == "8000";
    assert Hex.EncodeUpper([0x00, 0x80]) == "0080";
    assert Hex.EncodeUpper([0x00, 0x00]) == "0000";
    assert Hex.EncodeUpper([0x10, 0x00, 0x00, 0x01, 0xAB, 0xCD]) == "10000001ABCD";
  }

  /** The 128-bit vector's text is what `String` writes for its words. */
  lemma Vector128String(u: Uuid.UUID)
    requires u == Vector128
    ensures Uuid.String(u) == "00000000" + "-" + "8000" + "-" + "0080" + "-" + "0000" + "-" + "10000001ABCD"
  {
    Vector128Groups();
    StringOfGroups(u, "00000000", "8000", "0080", "0000", "10000001ABCD");
  }

  /** The test's text of the vector, split at its dashes. */
  lemma Vector128Join(s: string)
    requires s == "00000000-8000-0080-0000-10000001ABCD"
    ensures s == "00000000" + "-" + "8000" + "-" + "0080" + "-" + "0000" + "-" + "10000001ABCD"
  {
  }

  /** The 128-bit vector's text reads back as its words. */
  lemma Vector128Text(u: Uuid.UUID, s: string)
    requires u == Vector128 && s == "00000000-8000-0080-0000-10000001ABCD"
    ensures Uuid.ParseCanonical(s) == Some(u)
  {
    Vector128String(u);
    Vector128Join(s);
    Uuid.ParseString(u);
  }

  /** The classification the test expects of each vector. */
  lemma TestVectors()
    ensures Uuid.Uuid16(Vector16) == (0xFD3D, true) && !Uuid.Uuid32(Vector16).1 && !Uuid.IsUuid128(Vector16)
    ensures !Uuid.Uuid16(Vector32).1 && Uuid.Uuid32(Vector32) == (0x0001ABCD, true) && !Uuid.IsUuid128(Vector32)
    ensures !Uuid.Uuid16(Vector128).1 && !Uuid.Uuid32(Vector128).1 && Uuid.IsUuid128(Vector128)
  {
  }

  /** `UUID32` fails whenever the last word fits in 16 bits. */
  lemma Uuid32FailsOnShort(u: Uuid.UUID)
    requires u.w3 <= 0xFFFF
    ensures Uuid.Uuid32(u) == (0, false)
  {
  }
}
