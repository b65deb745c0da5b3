/** Concrete bytes that the program's own tests pin down, derived from the specifications. */
module Vectors {
  import opened Wrappers
  import opened Bytes
  import Crc
  import Diag
  import Fcs
  import Hdlc
  import LogMask

  // ---- An encapsulated message ----

  lemma ChecksumOf1234()
    ensures Crc.Checksum([1, 2, 3, 4]) == 0x3991
  {
    var data: seq<bv8> := [1, 2, 3, 4];
    assert data[1..] == [2, 3, 4] && data[1..][1..] == [3, 4] && data[1..][1..][1..] == [4];
    assert Crc.Step(0xffff, 1) == 0x1e0e;
    assert Crc.Step(0x1e0e, 2) == 0xca72;
    assert Crc.Step(0xca72, 3) == 0x62c4;
    assert Crc.Step(0x62c4, 4) == 0xc66e;
    calc {
      Crc.Run(Crc.INIT, data);
      Crc.Run(0x1e0e, [2, 3, 4]);
      { assert [2 as bv8, 3, 4][1..] == [3, 4]; }
      Crc.Run(0xca72, [3, 4]);
      { assert [3 as bv8, 4][1..] == [4]; }
      Crc.Run(0x62c4, [4]);
      { assert [4 as bv8][1..] == []; }
      Crc.Run(0xc66e, []);
      0xc66e;
    }
  }

  lemma EncapsulationOf1234()
    ensures Hdlc.Encapsulated([1, 2, 3, 4]) == [1, 2, 3, 4, 145, 57, 126]
  {
    var data: seq<byte> := [1, 2, 3, 4];
    ChecksumOf1234();
    assert Fcs.AllBits(data) == [1, 2, 3, 4];
    assert Fcs.ChecksumBytes(data) == [145, 57];
    var body: seq<byte> := [1, 2, 3, 4, 145, 57];
    assert data + Fcs.ChecksumBytes(data) == body;
    assert Hdlc.Escape(body) == body;
  }

  // ---- An LTE RRC log message ----

  const RRC_HEADER: seq<byte> := [16, 0, 38, 0, 38, 0, 192, 176, 26, 165, 245, 135, 118, 35, 2, 1]
  const RRC_BODY: seq<byte> := [
    20, 14, 48, 0, 160, 0, 2, 8, 0, 0, 217, 15, 5, 0, 0, 0, 0, 7, 0, 64, 1, 238, 173, 213, 77, 208]

  const RRC_PACKET: Diag.LteRrcOtaPacket := Diag.V8(
    14, 48, 0, Word16(160, 0), Word32(Word16(2, 8), Word16(0, 0)), Word16(217, 15), 5,
    Word32(Word16(0, 0), Word16(0, 0)), Word16(7, 0), [0x40, 0x1, 0xee, 0xad, 0xd5, 0x4d, 0xd0])

  const RRC_MESSAGE: Diag.Message := Diag.Log(
    0, Word16(38, 0), Word16(38, 0), Word16(0xc0, 0xb0),
    Word64(Word32(Word16(26, 165), Word16(245, 135)), Word32(Word16(118, 35), Word16(2, 1))),
    Diag.LteRrcOtaMessage(20, RRC_PACKET))

  lemma RrcHeaderBytes()
    ensures Diag.LogHeader(RRC_MESSAGE) == RRC_HEADER
  {
  }

  lemma RrcBodyBytes()
    ensures Diag.BodyToBytes(RRC_MESSAGE.body) == RRC_BODY
  {
  }

  lemma RrcWellFormed()
    ensures Diag.WellFormed(RRC_MESSAGE)
  {
  }

  /** The captured bytes are those of the message, and read back as it. */
  lemma RrcMessageBytes()
    ensures Diag.FromBytes(RRC_HEADER + RRC_BODY) == Ok((RRC_MESSAGE, []))
  {
    RrcHeaderBytes();
    RrcBodyBytes();
    RrcWellFormed();
    RrcRoundTrip(RRC_MESSAGE, RRC_HEADER, RRC_BODY);
  }

  lemma RrcRoundTrip(m: Diag.Message, header: seq<byte>, body: seq<byte>)
    requires Diag.WellFormed(m) && m.Log? && Diag.LogHeader(m) == header && Diag.BodyToBytes(m.body) == body
    ensures Diag.FromBytes(header + body) == Ok((m, []))
  {
    Diag.MessageRoundTrip(m, []);
    assert header + body + [] == header + body;
  }

  // ---- A log mask ----

  const LOG_CODES_FOR_RAW_PACKET_LOGGING: seq<nat> := [
    0x5226, 0x512f, 0x412f, 0xb0c0, 0xb821, 0x713a, 0xb0e2, 0xb0e3, 0xb0ec, 0xb0ed, 0x11eb]

  /** Of the first 513 codes of log type 11 five are enabled, one for LTE RRC and four for LTE NAS. */
  lemma MaskOfType11(i: nat)
    ensures |LogMask.Mask(11, 513, LOG_CODES_FOR_RAW_PACKET_LOGGING)| == 65
    ensures LogMask.MaskBit(LogMask.Mask(11, 513, LOG_CODES_FOR_RAW_PACKET_LOGGING), i)
       <==> i in {192, 226, 227, 236, 237}
  {
    LogMask.MaskBits(11, 513, LOG_CODES_FOR_RAW_PACKET_LOGGING, i);
    if i < 513 {
      LogMask.CodeParts(11, i);
    }
  }
}
