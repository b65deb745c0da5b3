/** GSMTAP types, headers and messages, and their extraction from log messages. */
module Gsmtap {
  import opened Wrappers
  import opened Bytes
  import opened Diag

  // ---- Types ----

  type UmSubtype = x: byte | x < 16
  type UmtsRrcSubtype = x: byte | x < 62
  type LteRrcSubtype = x: byte | x < 23
  type LteNasSubtype = x: byte | x < 2

  const DL_CCCH: LteRrcSubtype := 0
  const DL_DCCH: LteRrcSubtype := 1
  const UL_CCCH: LteRrcSubtype := 2
  const UL_DCCH: LteRrcSubtype := 3
  const BCCH_BCH: LteRrcSubtype := 4
  const BCCH_DL_SCH: LteRrcSubtype := 5
  const PCCH: LteRrcSubtype := 6
  const MCCH: LteRrcSubtype := 7
  const DL_CCCH_NB: LteRrcSubtype := 14
  const DL_DCCH_NB: LteRrcSubtype := 15
  const UL_CCCH_NB: LteRrcSubtype := 16
  const UL_DCCH_NB: LteRrcSubtype := 17
  const BCCH_BCH_NB: LteRrcSubtype := 18
  const BCCH_DL_SCH_NB: LteRrcSubtype := 20
  const PCCH_NB: LteRrcSubtype := 21
  const PLAIN: LteNasSubtype := 0

  datatype GsmtapType =
    | Um(um: UmSubtype) | Abis | UmBurst | Sim | TetraI1 | TetraI1Burst | WmxBurst | GbLlc | GbSndcp
    | Gmr1Um | UmtsRlcMac | UmtsRrc(umtsRrc: UmtsRrcSubtype) | LteRrc(lteRrc: LteRrcSubtype) | LteMac
    | LteMacFramed | OsmocoreLog | QcDiag | LteNas(lteNas: LteNasSubtype) | E1T1 | GsmRlp
  {
    function GetType(): byte {
      match this
      case Um(_) => 0x01
      case Abis => 0x02
      case UmBurst => 0x03
      case Sim => 0x04
      case TetraI1 => 0x05
      case TetraI1Burst => 0x06
      case WmxBurst => 0x07
      case GbLlc => 0x08
      case GbSndcp => 0x09
      case Gmr1Um => 0x0a
      case UmtsRlcMac => 0x0b
      case UmtsRrc(_) => 0x0c
      case LteRrc(_) => 0x0d
      case LteMac => 0x0e
      case LteMacFramed => 0x0f
      case OsmocoreLog => 0x10
      case QcDiag => 0x11
      case LteNas(_) => 0x12
      case E1T1 => 0x13
      case GsmRlp => 0x14
    }

    function GetSubtype(): byte {
      match this
      case Um(subtype) => subtype
      case UmtsRrc(subtype) => subtype
      case LteRrc(subtype) => subtype
      case LteNas(subtype) => subtype
      case _ => 0
    }
  }

  datatype GsmtapTypeError = InvalidTypeSubtypeCombo(gsmtapType: byte, subtype: byte)

  function NewType(gsmtapType: byte, subtype: byte): Result<GsmtapType, GsmtapTypeError> {
    if gsmtapType == 0x01 && subtype < 16 then Ok(Um(subtype))
    else if gsmtapType == 0x02 then Ok(Abis)
    else if gsmtapType == 0x03 then Ok(UmBurst)
    else if gsmtapType == 0x04 then Ok(Sim)
    else if gsmtapType == 0x05 then Ok(TetraI1)
    else if gsmtapType == 0x06 then Ok(TetraI1Burst)
    else if gsmtapType == 0x07 then Ok(WmxBurst)
    else if gsmtapType == 0x08 then Ok(GbLlc)
    else if gsmtapType == 0x09 then Ok(GbSndcp)
    else if gsmtapType == 0x0a then Ok(Gmr1Um)
    else if gsmtapType == 0x0b then Ok(UmtsRlcMac)
    else if gsmtapType == 0x0c && subtype < 62 then Ok(UmtsRrc(subtype))
    else if gsmtapType == 0x0d && subtype < 23 then Ok(LteRrc(subtype))
    else if gsmtapType == 0x0e then Ok(LteMac)
    else if gsmtapType == 0x0f then Ok(LteMacFramed)
    else if gsmtapType == 0x10 then Ok(OsmocoreLog)
    else if gsmtapType == 0x11 then Ok(QcDiag)
    else if gsmtapType == 0x12 && subtype < 2 then Ok(LteNas(subtype))
    else if gsmtapType == 0x13 then Ok(E1T1)
    else if gsmtapType == 0x14 then Ok(GsmRlp)
    else Err(InvalidTypeSubtypeCombo(gsmtapType, subtype))
  }

  predicate HasSubtype(t: GsmtapType) {
    t.Um? || t.UmtsRrc? || t.LteRrc? || t.LteNas?
  }

  /** Header bytes are taken for a type exactly when they are its own, any subtype byte serving if it has none. */
  lemma TypeRoundTrip(t: GsmtapType, gsmtapType: byte, subtype: byte)
    ensures NewType(gsmtapType, subtype) == Ok(t)
       <==> gsmtapType == t.GetType() && (HasSubtype(t) ==> subtype == t.GetSubtype())
  {
  }

  // ---- Headers and messages ----

  datatype GsmtapHeader = GsmtapHeader(gsmtapType: GsmtapType, uplink: bool, arfcn: uint16, frameNumber: uint32,
                                       subslot: byte)

  datatype GsmtapMessage = GsmtapMessage(header: GsmtapHeader, payload: seq<byte>)

  function NewHeader(t: GsmtapType): GsmtapHeader {
    GsmtapHeader(t, false, 0, 0, 0)
  }

  datatype GsmtapParserError =
    | InvalidLteRrcOtaExtHeaderVersion(version: byte)
    | InvalidLteRrcOtaHeaderPduNum(version: byte, pduNum: byte)

  function Lookup(table: map<byte, LteRrcSubtype>, version: byte, pduNum: byte):
    Result<LteRrcSubtype, GsmtapParserError>
  {
    if pduNum in table then Ok(table[pduNum]) else Err(InvalidLteRrcOtaHeaderPduNum(version, pduNum))
  }

  /** Which channel a PDU number stands for depends on the version of the log header. */
  function RrcSubtype(version: byte, pduNum: byte): Result<LteRrcSubtype, GsmtapParserError> {
    if version in {0x02, 0x03, 0x04, 0x06, 0x07, 0x08, 0x0d, 0x16} then
      Lookup(map[1 := BCCH_BCH, 2 := BCCH_DL_SCH, 3 := MCCH, 4 := PCCH, 5 := DL_CCCH, 6 := DL_DCCH, 7 := UL_CCCH,
                 8 := UL_DCCH], version, pduNum)
    else if version in {0x09, 0x0c} then
      Lookup(map[8 := BCCH_BCH, 9 := BCCH_DL_SCH, 10 := MCCH, 11 := PCCH, 12 := DL_CCCH, 13 := DL_DCCH,
                 14 := UL_CCCH, 15 := UL_DCCH], version, pduNum)
    else if 0x0e <= version <= 0x10 then
      Lookup(map[1 := BCCH_BCH, 2 := BCCH_DL_SCH, 4 := MCCH, 5 := PCCH, 6 := DL_CCCH, 7 := DL_DCCH, 8 := UL_CCCH,
                 9 := UL_DCCH], version, pduNum)
    else if version in {0x13, 0x1a, 0x1b} then
      Lookup(map[1 := BCCH_BCH, 3 := BCCH_DL_SCH, 6 := MCCH, 7 := PCCH, 8 := DL_CCCH, 9 := DL_DCCH, 10 := UL_CCCH,
                 11 := UL_DCCH, 45 := BCCH_BCH_NB, 46 := BCCH_DL_SCH_NB, 47 := PCCH_NB, 48 := DL_CCCH_NB,
                 49 := DL_DCCH_NB, 50 := UL_CCCH_NB, 52 := UL_DCCH_NB], version, pduNum)
    else if version in {0x14, 0x18, 0x19} then
      Lookup(map[1 := BCCH_BCH, 2 := BCCH_DL_SCH, 4 := MCCH, 5 := PCCH, 6 := DL_CCCH, 7 := DL_DCCH, 8 := UL_CCCH,
                 9 := UL_DCCH, 54 := BCCH_BCH_NB, 55 := BCCH_DL_SCH_NB, 56 := PCCH_NB, 57 := DL_CCCH_NB,
                 58 := DL_DCCH_NB, 59 := UL_CCCH_NB, 61 := UL_DCCH_NB], version, pduNum)
    else Err(InvalidLteRrcOtaExtHeaderVersion(version))
  }

  function Earfcn(p: LteRrcOtaPacket): nat {
    if p.V0? || p.V5? then p.earfcn16.Value() else p.earfcn32.Value()
  }

  /** A channel number that does not fit 16 bits is reported as 0. */
  function Arfcn(p: LteRrcOtaPacket): uint16 {
    if Earfcn(p) < 0x1_0000 then Earfcn(p) else 0
  }

  function LogToGsmtap(body: LogBody): Result<Option<GsmtapMessage>, GsmtapParserError> {
    match body
    case LteRrcOtaMessage(version, packet) =>
      var subtype :- RrcSubtype(version, packet.pduNum);
      var sfn := packet.sfnSubfn.Value();
      var header := NewHeader(LteRrc(subtype)).(arfcn := Arfcn(packet), frameNumber := sfn / 16,
                                                subslot := (sfn % 16) as byte);
      Ok(Some(GsmtapMessage(header, packet.packet)))
    case Nas4GMessage(direction, _, _, _, _, msg) =>
      Ok(Some(GsmtapMessage(NewHeader(LteNas(PLAIN)).(uplink := direction.Uplink?), msg)))
    case _ => Ok(None)
  }

  /** The time stamp and GSMTAP message of a log message, if its kind has one. */
  function Parse(m: Message): Result<Option<(Word64, GsmtapMessage)>, GsmtapParserError> {
    match m
    case Log(_, _, _, _, timestamp, body) =>
      var g :- LogToGsmtap(body);
      Ok(if g.Some? then Some((timestamp, g.value)) else None)
    case Response(_, _, _, _) => Ok(None)
  }

  /**
   What a log body becomes: RRC keeps channel, frame, subframe and payload, NAS keeps direction and
   payload, any other becomes nothing.
   */
  lemma LogBecomes(body: LogBody)
    ensures match LogToGsmtap(body)
            case Ok(Some(g)) =>
              (match body
               case LteRrcOtaMessage(version, packet) =>
                 && g.header.gsmtapType.LteRrc? && RrcSubtype(version, packet.pduNum) == Ok(g.header.gsmtapType.lteRrc)
                 && 16 * g.header.frameNumber + g.header.subslot as nat == packet.sfnSubfn.Value()
                 && (var earfcn := if packet.V0? || packet.V5? then packet.earfcn16.Value()
                                   else packet.earfcn32.Value();
                     g.header.arfcn == if earfcn < 0x1_0000 then earfcn else 0)
                 && g.payload == packet.packet && !g.header.uplink
               case Nas4GMessage(direction, _, _, _, _, msg) =>
                 g.header.gsmtapType == LteNas(0) && g.payload == msg && (g.header.uplink <==> direction.Uplink?)
               case _ => false)
            case Ok(None) => !body.LteRrcOtaMessage? && !body.Nas4GMessage?
            case Err(_) => body.LteRrcOtaMessage? && RrcSubtype(body.extHeaderVersion, body.packet.pduNum).Err?
  {
  }

  /** Channels of the wide-band and narrow-band tables in the order of their PDU numbers, as GSMTAP subtypes. */
  const CHANNELS: seq<byte> := [4, 5, 7, 6, 0, 1, 2, 3]
  const NB_CHANNELS: seq<byte> := [18, 20, 21, 14, 15, 16]

  /** Where in these tables a version of the log header puts a PDU number; 100 and up are narrow-band, 106 the last. */
  function ChannelIndex(version: byte, pdu: byte): Option<nat> {
    var p := pdu as nat;
    if version in {2, 3, 4, 6, 7, 8, 13, 22} then if 1 <= p <= 8 then Some(p - 1) else None
    else if version == 9 || version == 12 then if 8 <= p <= 15 then Some(p - 8) else None
    else if 14 <= version <= 16 || version in {20, 24, 25} then
      if p == 1 || p == 2 then Some(p - 1)
      else if 4 <= p <= 9 then Some(p - 2)
      else if version >= 20 && 54 <= p <= 59 then Some(100 + p - 54)
      else if version >= 20 && p == 61 then Some(106)
      else None
    else if version in {19, 26, 27} then
      if p == 1 then Some(0)
      else if p == 3 then Some(1)
      else if 6 <= p <= 11 then Some(p - 4)
      else if 45 <= p <= 50 then Some(100 + p - 45)
      else if p == 52 then Some(106)
      else None
    else None
  }

  predicate KnownVersion(version: byte) {
    version in {2, 3, 4, 6, 7, 8, 9, 12, 13, 14, 15, 16, 19, 20, 22, 24, 25, 26, 27}
  }

  /** What the tables say. */
  function ChannelOf(version: byte, pdu: byte): Result<LteRrcSubtype, GsmtapParserError> {
    var i := ChannelIndex(version, pdu);
    if !KnownVersion(version) then Err(InvalidLteRrcOtaExtHeaderVersion(version))
    else if i.None? then Err(InvalidLteRrcOtaHeaderPduNum(version, pdu))
    else if i.value < 8 then Ok(CHANNELS[i.value])
    else if 100 <= i.value < 106 then Ok(NB_CHANNELS[i.value - 100])
    else Ok(17)
  }

  lemma WideSubtypes(version: byte, pdu: byte)
    requires version < 19 || version == 22 || version > 27
    ensures RrcSubtype(version, pdu) == ChannelOf(version, pdu)
  {
  }

  lemma NarrowSubtypes(version: byte, pdu: byte)
    requires version in {19, 26, 27}
    ensures RrcSubtype(version, pdu) == ChannelOf(version, pdu)
  {
  }

  lemma LateSubtypes(version: byte, pdu: byte)
    requires version in {20, 21, 23, 24, 25}
    ensures RrcSubtype(version, pdu) == ChannelOf(version, pdu)
  {
  }

  /** The channel tables, version by version. */
  lemma RrcSubtypes(version: byte, pdu: byte)
    ensures RrcSubtype(version, pdu) == ChannelOf(version, pdu)
  {
    if version in {19, 26, 27} {
      NarrowSubtypes(version, pdu);
    } else if version in {20, 21, 23, 24, 25} {
      LateSubtypes(version, pdu);
    } else {
      WideSubtypes(version, pdu);
    }
  }
}
