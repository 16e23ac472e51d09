/**
 * The Bluetooth address of ble/address.go, held in a 16-byte buffer, and
 * its text: the last six bytes as two lower-case hex digits each
 * (`%02x`), joined by ':'.
 */
module Address {
  import Hex
  import Uuid

  /** The text of byte `10 + k` of the buffer. */
  function Octet(b: Uuid.Bytes16, k: nat): string
    requires k < 6
  {
    Hex.LowerByte(b[10 + k])
  }

  /** `Address.String`: `%02x` of bytes 10 to 15, with ':' between them. */
  function ToString(b: Uuid.Bytes16): (s: string)
    ensures |s| == 17
  {
    var o0, o1, o2, o3, o4, o5 := Octet(b, 0), Octet(b, 1), Octet(b, 2), Octet(b, 3), Octet(b, 4), Octet(b, 5);
    [o0[0], o0[1], ':', o1[0], o1[1], ':', o2[0], o2[1], ':', o3[0], o3[1], ':', o4[0], o4[1], ':', o5[0], o5[1]]
  }

  /** Octet `k` sits at positions `3k` and `3k+1`, and the colons at `3k+2`. */
  lemma Layout(b: Uuid.Bytes16)
    ensures forall k :: 0 <= k < 6 ==> ToString(b)[3 * k] == Octet(b, k)[0] && ToString(b)[3 * k + 1] == Octet(b, k)[1]
    ensures forall k :: 0 <= k < 5 ==> ToString(b)[3 * k + 2] == ':'
  {
    forall k | 0 <= k < 6
      ensures ToString(b)[3 * k] == Octet(b, k)[0] && ToString(b)[3 * k + 1] == Octet(b, k)[1]
    {
      if k == 0 {} else if k == 1 {} else if k == 2 {} else if k == 3 {} else if k == 4 {} else {}
    }
  }

  /** Only bytes 10 to 15 matter. */
  lemma DependsOnLastSix(a: Uuid.Bytes16, b: Uuid.Bytes16)
    requires a[10..16] == b[10..16]
    ensures ToString(a) == ToString(b)
  {
    forall k | 0 <= k < 6
      ensures Octet(a, k) == Octet(b, k)
    {
      assert a[10..16][k] == b[10..16][k];
    }
  }

  /** Buffers that differ in one of bytes 10 to 15 have different texts. */
  lemma Injective(a: Uuid.Bytes16, b: Uuid.Bytes16)
    requires ToString(a) == ToString(b)
    ensures a[10..16] == b[10..16]
  {
    forall k | 0 <= k < 6
      ensures a[10..16][k] == b[10..16][k]
    {
      var s := ToString(a);
      Layout(a);
      Layout(b);
      assert Octet(a, k) == [s[3 * k], s[3 * k + 1]] == Octet(b, k);
      Hex.LowerByteInjective(a[10 + k], b[10 + k]);
    }
  }

  /** Every character of the text is a lower-case hex digit or one of the five colons. */
  lemma Digits(b: Uuid.Bytes16, j: nat)
    requires j < 17 && j % 3 != 2
    ensures ToString(b)[j] in Hex.LowerDigits
  {
    var k := j / 3;
    Layout(b);
    Hex.LowerDigitsOnly([b[10 + k]], j % 3);
    assert Hex.EncodeLower([b[10 + k]]) == Octet(b, k);
  }
}
