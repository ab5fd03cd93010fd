/**
 The byte layouts that the repository's own tests fix (internal/codec/vle_test.go,
 internal/codec/header_test.go, internal/wire/golden_test.go, internal/wire/declare_test.go). A round
 trip alone would also hold of a permuted layout; these do not.
 */
module WireGoldens {
  import opened Wrappers
  import opened Buffer
  import opened Extensions
  import opened WireTypes
  import opened TransportMessages
  import NM = NetworkMessages
  import Handshake
  import SequenceNumbers
  import Vle

  /** Up to four groups: seven bits a byte, least significant first. */
  lemma ShortVle()
    ensures Vle.Encoded(0) == [0x00] && Vle.Encoded(127) == [0x7F]
    ensures Vle.Encoded(128) == [0x80, 0x01] && Vle.Encoded(300) == [0xAC, 0x02]
    ensures Vle.Encoded(16383) == [0xFF, 0x7F] && Vle.Encoded(16384) == [0x80, 0x80, 0x01]
  {
    Vle.CapacityIsU64();
    OneGroup(0, 9);
    OneGroup(127, 9);
    OneGroup(1, 8);
    OneGroup(2, 8);
    OneGroup(127, 8);
    OneGroup(1, 7);
    NextGroup(128, 9);
    NextGroup(300, 9);
    NextGroup(16383, 9);
    NextGroup(16384, 9);
    NextGroup(128, 8);
  }

  lemma OneGroup(v: nat, n: nat)
    requires 1 <= n <= Vle.MaxZ64Bytes && v < 128
    ensures v < Vle.Capacity(n) && Vle.Groups(v, n) == [v]
  {
  }

  lemma NextGroup(v: nat, n: nat)
    requires 1 < n <= Vle.MaxZ64Bytes && 128 <= v < Vle.Capacity(n)
    ensures v / 128 < Vle.Capacity(n - 1)
    ensures Vle.Groups(v, n) == [v % 128 + 128] + Vle.Groups(v / 128, n - 1)
  {
  }

  /** The ninth byte is raw: bit 7 of it is bit 63 of the value. */
  lemma NinthByteIsRaw(v: uint64)
    requires v >= 0x100_0000_0000_0000
    ensures |Vle.Encoded(v)| == 9 && Vle.Encoded(v)[8] == v / 0x100_0000_0000_0000
  {
    Vle.CapacityIsU64();
    RawTail(v, 9);
  }

  /** What is left for the last byte after k groups. */
  lemma {:induction false} RawTail(v: nat, n: nat)
    requires 1 <= n <= Vle.MaxZ64Bytes && Vle.Pow128(n - 1) <= v < Vle.Capacity(n)
    ensures |Vle.Groups(v, n)| == n && Vle.Groups(v, n)[n - 1] == v / Vle.Pow128(n - 1)
    ensures n == 9 ==> Vle.Pow128(n - 1) == 0x100_0000_0000_0000
  {
    if n > 1 {
      var p := Vle.Pow128(n - 2);
      Quotients(v, p);
      NextGroup(v, n);
      RawTail(v / 128, n - 1);
    }
    if n == 9 {
      assert Vle.Pow128(4) == 0x1000_0000;
    }
  }

  lemma Quotients(v: nat, p: nat)
    requires p >= 1 && 128 * p <= v
    ensures v >= 128 && p <= v / 128 && v / 128 / p == v / (128 * p)
  {
    var q, r := v / 128, v % 128;
    var a, b := q / p, q % p;
    assert v == a * (128 * p) + (128 * b + r);
    SequenceNumbers.ModUnique(v, 128 * p, a, 128 * b + r);
  }

  lemma Headers()
    ensures PackHeader(Header(0x01, false, false, false)) == 0x01
    ensures PackHeader(Header(0x01, true, false, false)) == 0x21
    ensures PackHeader(Header(0x01, false, true, false)) == 0x41
    ensures PackHeader(Header(0x1E, false, false, true)) == 0x9E
    ensures PackHeader(Header(0x1D, true, true, true)) == 0xFD
    ensures EncodeQoS(QoS(5, true, false, false)) == 0x0D
  {
  }

  /** INIT SYN with size information and the QoS extension. */
  lemma InitSynBytes()
    ensures var m := Init(false, 0x09, [0x11, 0x22, 0x33, 0x44], 2, Some(SizeInfo(0x0A, 65535)), [], [NewUnitExt(1)]);
            EncodableInit(m)
            && EncodedInit(m) == [0xC1, 0x09, 0x32, 0x11, 0x22, 0x33, 0x44, 0x0A, 0xFF, 0xFF, 0x01]
  {
    assert EncodedExts([NewUnitExt(1)]) == EncodedExt(NewUnitExt(1)) + EncodedExts([]);
  }

  lemma SmallMessages()
    ensures Handshake.CloseBatch(0x07) == [0x23, 0x07]
    ensures EncodedKeepAlive([]) == [0x04]
    ensures NM.Encoded(NM.Interest(5, NM.Final, NM.NoFilter, None, [])) == [0x19, 0x05]
  {
    Vle.CapacityIsU64();
    OneGroup(5, 9);
  }

  /** The WireExpr extension: flags, scope, and the suffix without a length. */
  lemma KeyExtensionBytes(suffix: bytes)
    requires |suffix| > 0
    ensures NM.KeyExtBody(WireExpr(0, suffix, false)) == [0x01, 0x00] + suffix
  {
    Vle.CapacityIsU64();
    OneGroup(0, 9);
    assert [0x01] + [0x00] + suffix == [0x01, 0x00] + suffix;
  }

  /** The widths behind the four codes, and what the default resolution 0x0A admits. */
  lemma ResolutionWidths()
    ensures Handshake.Bits(0x00, Handshake.FrameSn) == 7 && Handshake.Bits(0x01, Handshake.FrameSn) == 14
    ensures Handshake.Bits(0x02, Handshake.FrameSn) == 28 && Handshake.Bits(0x03, Handshake.FrameSn) == 63
    ensures Handshake.Bits(0x04, Handshake.RequestId) == 14 && Handshake.Bits(0x0C, Handshake.RequestId) == 63
    ensures Handshake.Mask(0x0A, Handshake.FrameSn) == Handshake.Mask(0x0A, Handshake.RequestId) == 0x0FFF_FFFF
    ensures Handshake.Mask(0x00, Handshake.FrameSn) == 0x7F
    ensures Handshake.Mask(0x03, Handshake.FrameSn) == 0x7FFF_FFFF_FFFF_FFFF
  {
    hide Vle.Pow2;
    Handshake.BitsFit();
  }

  /** A mask of zero is none at all: numbers then wrap at 64 bits only. */
  lemma NoMask(sn: uint64)
    ensures SequenceNumbers.Next(sn, SequenceNumbers.NormalizeMask(0)) == (sn + 1) % U64
  {
    hide Vle.Pow2, SequenceNumbers.BitAnd;
    SequenceNumbers.Pow2Of64();
    SequenceNumbers.AndOfOnes((sn + 1) % U64, 64);
    assert (sn + 1) % U64 % U64 == (sn + 1) % U64;
  }

  /** The numbers on which peers must agree. */
  lemma Constants()
    ensures Handshake.ProtoVersion == 0x09
    ensures Handshake.ReasonInvalid == 0x02 && Handshake.ReasonConnectionToSelf == 0x07
    ensures PriorityData == 5 && ExtIdQoS == 0x01 && NM.KeyExtId == 0x0F
    ensures EncodedExts(LaneExts(true, 3)) == [0x31, 0x03] && EncodedExts(LaneExts(false, 3)) == []
  {
    Vle.CapacityIsU64();
    OneGroup(3, 9);
    var e := NewZ64Ext(ExtIdQoS, true, 3);
    assert EncodeQoS(QoS(3, false, false, false)) == 3;
    assert EncodedExts([e]) == EncodedExt(e) + EncodedExts([]);
  }
}
