/** Diag messages and their byte layouts, and the unpacking of a container of HDLC frames into messages. */
module Diag {
  import opened Wrappers
  import opened Bytes
  import opened Wire

  // ---- Messages ----

  datatype Message =
    | Log(pendingMsgs: byte, outerLength: Word16, innerLength: Word16, logType: Word16, timestamp: Word64,
          body: LogBody)
    | Response(opcode: Word32, subopcode: Word32, status: Word32, payload: ResponsePayload)

  datatype ResponsePayload =
    | RetrieveIdRanges(logMaskSizes: seq<Word32>)
    | SetMask

  datatype LogBody =
    | WcdmaSignallingMessage(channelType: byte, radioBearer: byte, length16: Word16, msg: seq<byte>)
    | GsmRrSignallingMessage(channelType: byte, messageType: byte, length8: byte, msg: seq<byte>)
    | GprsMacSignallingMessage(channelType: byte, messageType: byte, length8: byte, msg: seq<byte>)
    | LteRrcOtaMessage(extHeaderVersion: byte, packet: LteRrcOtaPacket)
    | Nas4GMessage(direction: Direction, extHeaderVersion: byte, rrcRel: byte, rrcVersionMinor: byte,
                   rrcVersionMajor: byte, msg: seq<byte>)
    | IpTraffic(msg: seq<byte>)
    | UmtsNasOtaMessage(isUplink: byte, length32: Word32, msg: seq<byte>)
    | NrRrcOtaMessage(msg: seq<byte>)

  datatype Direction = Downlink | Uplink

  datatype LteRrcOtaPacket =
    | V0(rrcRelMaj: byte, rrcRelMin: byte, bearerId: byte, phyCellId: Word16, earfcn16: Word16,
         sfnSubfn: Word16, pduNum: byte, len: Word16, packet: seq<byte>)
    | V5(rrcRelMaj: byte, rrcRelMin: byte, bearerId: byte, phyCellId: Word16, earfcn16: Word16,
         sfnSubfn: Word16, pduNum: byte, sibMask: Word32, len: Word16, packet: seq<byte>)
    | V8(rrcRelMaj: byte, rrcRelMin: byte, bearerId: byte, phyCellId: Word16, earfcn32: Word32,
         sfnSubfn: Word16, pduNum: byte, sibMask: Word32, len: Word16, packet: seq<byte>)
    | V25(rrcRelMaj: byte, rrcRelMin: byte, nrRrcRelMaj: byte, nrRrcRelMin: byte, bearerId: byte,
          phyCellId: Word16, earfcn32: Word32, sfnSubfn: Word16, pduNum: byte, sibMask: Word32, len: Word16,
          packet: seq<byte>)

  const LOG_ID: byte := 16
  const LOG_CONFIG_OPCODE: nat := 115

  // ---- Reading: fixed offsets in the header, then a run of bytes ----

  /** V0 is used for header versions 0 to 4, V5 for 5 to 7, V8 for 8 to 24 and V25 from 25 on. */
  function TakePacket(version: byte, s: seq<byte>): Taken<LteRrcOtaPacket> {
    if version <= 4 then TakeV0(s)
    else if version <= 7 then TakeV5(s)
    else if version <= 24 then TakeV8(s)
    else TakeV25(s)
  }

  function TakeV0(s: seq<byte>): Taken<LteRrcOtaPacket> {
    if |s| < 12 then Err(Incomplete)
    else
      var (packet, rest) :- TakeRun(s, 12, U16(s[10..12]).Value());
      Ok((V0(s[0], s[1], s[2], U16(s[3..5]), U16(s[5..7]), U16(s[7..9]), s[9], U16(s[10..12]), packet), rest))
  }

  function TakeV5(s: seq<byte>): Taken<LteRrcOtaPacket> {
    if |s| < 16 then Err(Incomplete)
    else
      var (packet, rest) :- TakeRun(s, 16, U16(s[14..16]).Value());
      Ok((V5(s[0], s[1], s[2], U16(s[3..5]), U16(s[5..7]), U16(s[7..9]), s[9], U32(s[10..14]), U16(s[14..16]),
             packet), rest))
  }

  function TakeV8(s: seq<byte>): Taken<LteRrcOtaPacket> {
    if |s| < 18 then Err(Incomplete)
    else
      var (packet, rest) :- TakeRun(s, 18, U16(s[16..18]).Value());
      Ok((V8(s[0], s[1], s[2], U16(s[3..5]), U32(s[5..9]), U16(s[9..11]), s[11], U32(s[12..16]), U16(s[16..18]),
             packet), rest))
  }

  function TakeV25(s: seq<byte>): Taken<LteRrcOtaPacket> {
    if |s| < 20 then Err(Incomplete)
    else
      var (packet, rest) :- TakeRun(s, 20, U16(s[18..20]).Value());
      Ok((V25(s[0], s[1], s[2], s[3], s[4], U16(s[5..7]), U32(s[7..11]), U16(s[11..13]), s[13], U32(s[14..18]),
              U16(s[18..20]), packet), rest))
  }

  function TakeWcdma(s: seq<byte>): Taken<LogBody> {
    if |s| < 4 then Err(Incomplete)
    else
      var (msg, rest) :- TakeRun(s, 4, U16(s[2..4]).Value());
      Ok((WcdmaSignallingMessage(s[0], s[1], U16(s[2..4]), msg), rest))
  }

  function TakeGsm(logType: nat, s: seq<byte>): Taken<LogBody> {
    if |s| < 3 then Err(Incomplete)
    else
      var (msg, rest) :- TakeRun(s, 3, s[2] as nat);
      if logType == 0x512f then Ok((GsmRrSignallingMessage(s[0], s[1], s[2], msg), rest))
      else Ok((GprsMacSignallingMessage(s[0], s[1], s[2], msg), rest))
  }

  function TakeLteRrc(s: seq<byte>): Taken<LogBody> {
    if |s| < 1 then Err(Incomplete)
    else
      var (packet, rest) :- TakePacket(s[0], s[1..]);
      Ok((LteRrcOtaMessage(s[0], packet), rest))
  }

  function TakeNas4G(logType: nat, length: nat, s: seq<byte>): Taken<LogBody> {
    if |s| < 4 then Err(Incomplete)
    else
      var (msg, rest) :- TakeRun(s, 4, length);
      Ok((Nas4GMessage(Nas4GDirection(logType), s[0], s[1], s[2], s[3], msg), rest))
  }

  function TakeIpTraffic(length: nat, s: seq<byte>): Taken<LogBody> {
    var (msg, rest) :- TakeRun(s, 0, length);
    Ok((IpTraffic(msg), rest))
  }

  function TakeUmtsNas(s: seq<byte>): Taken<LogBody> {
    if |s| < 5 then Err(Incomplete)
    else
      var (msg, rest) :- TakeRun(s, 5, U32(s[1..5]).Value());
      Ok((UmtsNasOtaMessage(s[0], U32(s[1..5]), msg), rest))
  }

  function TakeNrRrc(hdrLen: nat, s: seq<byte>): Taken<LogBody> {
    var (msg, rest) :- TakeRun(s, 0, hdrLen);
    Ok((NrRrcOtaMessage(msg), rest))
  }

  /** hdrLen counts the bytes of the body; subtractions from it wrap, as u16 does in a release build. */
  function TakeBody(logType: nat, hdrLen: nat, s: seq<byte>): Taken<LogBody> {
    if logType == 0x412f then TakeWcdma(s)
    else if logType == 0x512f || logType == 0x5226 then TakeGsm(logType, s)
    else if logType == 0xb0c0 then TakeLteRrc(s)
    else if IsNas4G(logType) then TakeNas4G(logType, Wrap16(hdrLen - 4), s)
    else if logType == 0x11eb then TakeIpTraffic(Wrap16(hdrLen - 8), s)
    else if logType == 0x713a then TakeUmtsNas(s)
    else if logType == 0xb821 then TakeNrRrc(hdrLen, s)
    else Err(UnknownVariant)
  }

  /** A u16 subtraction that wraps below zero, as it does in a release build. */
  function Wrap16(x: int): nat {
    x % 0x1_0000
  }

  predicate IsNas4G(logType: nat) {
    logType == 0xb0e2 || logType == 0xb0e3 || logType == 0xb0ec || logType == 0xb0ed
  }

  function Nas4GDirection(logType: nat): Direction {
    if logType == 0xb0e2 || logType == 0xb0ec then Downlink else Uplink
  }

  function U32s(s: seq<byte>, n: nat): seq<Word32>
    requires 4 * n <= |s|
  {
    if n == 0 then [] else [U32(s[..4])] + U32s(s[4..], n - 1)
  }

  function TakePayload(opcode: nat, subopcode: nat, s: seq<byte>): Taken<ResponsePayload> {
    if opcode != LOG_CONFIG_OPCODE then Err(UnknownVariant)
    else if subopcode == 1 then
      if |s| < 64 then Err(Incomplete) else Ok((RetrieveIdRanges(U32s(s, 16)), s[64..]))
    else if subopcode == 3 then Ok((SetMask, s))
    else Err(UnknownVariant)
  }

  /**
   A message and the bytes after it. The first byte selects a log; in every other message it is
   also the first byte of the response's opcode.
   */
  function FromBytes(s: seq<byte>): Taken<Message> {
    if s == [] then Err(Incomplete)
    else if s[0] == LOG_ID then TakeLog(s)
    else TakeResponse(s)
  }

  function TakeLog(s: seq<byte>): Taken<Message> {
    if |s| < 16 then Err(Incomplete)
    else LogWith(s, TakeBody(U16(s[6..8]).Value(), Wrap16(U16(s[4..6]).Value() - 12), s[16..]))
  }

  function LogWith(s: seq<byte>, body: Taken<LogBody>): Taken<Message>
    requires |s| >= 16
  {
    var (b, rest) :- body;
    Ok((Log(s[1], U16(s[2..4]), U16(s[4..6]), U16(s[6..8]), U64(s[8..16]), b), rest))
  }

  function TakeResponse(s: seq<byte>): Taken<Message> {
    if |s| < 12 then Err(Incomplete)
    else
      var (payload, rest) :- TakePayload(U32(s[0..4]).Value(), U32(s[4..8]).Value(), s[12..]);
      Ok((Response(U32(s[0..4]), U32(s[4..8]), U32(s[8..12]), payload), rest))
  }

  // ---- Reading in a build that checks overflow: None for a panic ----

  function Minus16(a: nat, b: nat): Option<nat> {
    if a < b then None else Some(a - b)
  }

  function TakeBodyChecked(logType: nat, hdrLen: nat, s: seq<byte>): Option<Taken<LogBody>> {
    if IsNas4G(logType) && |s| >= 4 then
      var length :- Minus16(hdrLen, 4);
      Some(TakeNas4G(logType, length, s))
    else if logType == 0x11eb then
      var length :- Minus16(hdrLen, 8);
      Some(TakeIpTraffic(length, s))
    else Some(TakeBody(logType, hdrLen, s))
  }

  function TakeLogChecked(s: seq<byte>): Option<Taken<Message>> {
    if |s| < 16 then Some(Err(Incomplete))
    else
      var hdrLen :- Minus16(U16(s[4..6]).Value(), 12);
      var body :- TakeBodyChecked(U16(s[6..8]).Value(), hdrLen, s[16..]);
      Some(LogWith(s, body))
  }

  function FromBytesChecked(s: seq<byte>): Option<Taken<Message>> {
    if s == [] then Some(Err(Incomplete))
    else if s[0] == LOG_ID then TakeLogChecked(s)
    else Some(TakeResponse(s))
  }

  /** The header length counts at least the bytes that are subtracted from it for a body that is n bytes long. */
  predicate HeaderSuffices(logType: nat, hdrLen: nat, n: nat) {
    (IsNas4G(logType) && n >= 4 ==> 4 <= hdrLen) && (logType == 0x11eb ==> 8 <= hdrLen)
  }

  /** And so does the inner length of a log. */
  predicate LengthSuffices(s: seq<byte>) {
    |s| < 16 || s[0] != LOG_ID ||
    (12 <= U16(s[4..6]).Value() && HeaderSuffices(U16(s[6..8]).Value(), U16(s[4..6]).Value() - 12, |s| - 16))
  }

  lemma CheckedBody(logType: nat, hdrLen: nat, s: seq<byte>)
    requires hdrLen < 0x1_0000
    ensures TakeBodyChecked(logType, hdrLen, s)
         == if HeaderSuffices(logType, hdrLen, |s|) then Some(TakeBody(logType, hdrLen, s)) else None
  {
  }

  /** A build that checks overflow reads what a release build reads, or panics at a log whose length is too short. */
  lemma CheckedRead(s: seq<byte>)
    ensures FromBytesChecked(s) == if LengthSuffices(s) then Some(FromBytes(s)) else None
  {
    if |s| >= 16 && s[0] == LOG_ID && 12 <= U16(s[4..6]).Value() {
      var hdrLen := U16(s[4..6]).Value() - 12;
      assert Wrap16(hdrLen) == hdrLen;
      CheckedBody(U16(s[6..8]).Value(), hdrLen, s[16..]);
    }
  }

  // ---- Writing ----

  function PacketHeader(p: LteRrcOtaPacket): seq<byte> {
    match p
    case V0(maj, min, bearer, cell, earfcn, sfn, pdu, len, _) =>
      [maj, min, bearer] + Le16(cell) + Le16(earfcn) + Le16(sfn) + [pdu] + Le16(len)
    case V5(maj, min, bearer, cell, earfcn, sfn, pdu, sib, len, _) =>
      [maj, min, bearer] + Le16(cell) + Le16(earfcn) + Le16(sfn) + [pdu] + Le32(sib) + Le16(len)
    case V8(maj, min, bearer, cell, earfcn, sfn, pdu, sib, len, _) =>
      [maj, min, bearer] + Le16(cell) + Le32(earfcn) + Le16(sfn) + [pdu] + Le32(sib) + Le16(len)
    case V25(maj, min, nrMaj, nrMin, bearer, cell, earfcn, sfn, pdu, sib, len, _) =>
      [maj, min, nrMaj, nrMin, bearer] + Le16(cell) + Le32(earfcn) + Le16(sfn) + [pdu] + Le32(sib) + Le16(len)
  }

  function BodyHeader(body: LogBody): seq<byte> {
    match body
    case WcdmaSignallingMessage(channel, bearer, length, _) => [channel, bearer] + Le16(length)
    case GsmRrSignallingMessage(channel, kind, length, _) => [channel, kind, length]
    case GprsMacSignallingMessage(channel, kind, length, _) => [channel, kind, length]
    case LteRrcOtaMessage(version, packet) => [version] + PacketHeader(packet)
    case Nas4GMessage(_, version, rel, minor, major, _) => [version, rel, minor, major]
    case IpTraffic(_) => []
    case UmtsNasOtaMessage(uplink, length, _) => [uplink] + Le32(length)
    case NrRrcOtaMessage(_) => []
  }

  function BodyRun(body: LogBody): seq<byte> {
    if body.LteRrcOtaMessage? then body.packet.packet else body.msg
  }

  function BodyToBytes(body: LogBody): seq<byte> {
    BodyHeader(body) + BodyRun(body)
  }

  function LogHeader(m: Message): seq<byte>
    requires m.Log?
  {
    [LOG_ID, m.pendingMsgs] + Le16(m.outerLength) + Le16(m.innerLength) + Le16(m.logType) + Le64(m.timestamp)
  }

  function ResponseHeader(m: Message): seq<byte>
    requires m.Response?
  {
    Le32(m.opcode) + Le32(m.subopcode) + Le32(m.status)
  }

  function U32sToBytes(xs: seq<Word32>): seq<byte> {
    if xs == [] then [] else Le32(xs[0]) + U32sToBytes(xs[1..])
  }

  function PayloadToBytes(p: ResponsePayload): seq<byte> {
    if p.RetrieveIdRanges? then U32sToBytes(p.logMaskSizes) else []
  }

  function ToBytes(m: Message): seq<byte> {
    match m
    case Log(_, _, _, _, _, body) => LogHeader(m) + BodyToBytes(body)
    case Response(_, _, _, payload) => ResponseHeader(m) + PayloadToBytes(payload)
  }

  // ---- Consistent length fields and identifiers ----

  predicate PacketFits(version: byte, p: LteRrcOtaPacket) {
    && (p.V0? <==> version <= 4)
    && (p.V5? <==> 5 <= version <= 7)
    && (p.V8? <==> 8 <= version <= 24)
    && |p.packet| == p.len.Value()
  }

  predicate BodyFits(logType: nat, hdrLen: nat, body: LogBody) {
    match body
    case WcdmaSignallingMessage(_, _, length, msg) => logType == 0x412f && |msg| == length.Value()
    case GsmRrSignallingMessage(_, _, length, msg) => logType == 0x512f && |msg| == length as nat
    case GprsMacSignallingMessage(_, _, length, msg) => logType == 0x5226 && |msg| == length as nat
    case LteRrcOtaMessage(version, packet) => logType == 0xb0c0 && PacketFits(version, packet)
    case Nas4GMessage(direction, _, _, _, _, msg) =>
      && (if direction.Downlink? then logType == 0xb0e2 || logType == 0xb0ec
          else logType == 0xb0e3 || logType == 0xb0ed)
      && |msg| == (hdrLen - 4) % 0x1_0000
    case IpTraffic(msg) => logType == 0x11eb && |msg| == (hdrLen - 8) % 0x1_0000
    case UmtsNasOtaMessage(_, length, msg) => logType == 0x713a && |msg| == length.Value()
    case NrRrcOtaMessage(msg) => logType == 0xb821 && |msg| == hdrLen
  }

  predicate WellFormed(m: Message) {
    match m
    case Log(_, _, inner, logType, _, body) => BodyFits(logType.Value(), (inner.Value() - 12) % 0x1_0000, body)
    case Response(opcode, subopcode, _, RetrieveIdRanges(sizes)) =>
      opcode.Value() == LOG_CONFIG_OPCODE && subopcode.Value() == 1 && |sizes| == 16
    case Response(opcode, subopcode, _, SetMask) => opcode.Value() == LOG_CONFIG_OPCODE && subopcode.Value() == 3
  }

  /** Reads the run at position n of s when s is its header, the run and the rest. */
  lemma TakeRunAfter(header: seq<byte>, run: seq<byte>, rest: seq<byte>)
    ensures TakeRun(header + run + rest, |header|, |run|) == Ok((run, rest))
  {
    var s := header + run + rest;
    assert s[|header|..|header| + |run|] == run && s[|header| + |run|..] == rest;
  }

  lemma V0RoundTrip(p: LteRrcOtaPacket, rest: seq<byte>)
    requires p.V0? && |p.packet| == p.len.Value()
    ensures TakeV0(PacketHeader(p) + p.packet + rest) == Ok((p, rest))
  {
    var s := PacketHeader(p) + p.packet + rest;
    Fields([p.rrcRelMaj, p.rrcRelMin, p.bearerId], Le16(p.phyCellId), Le16(p.earfcn16), Le16(p.sfnSubfn),
           [p.pduNum], [], Le16(p.len), p.packet + rest);
    assert s == PacketHeader(p) + (p.packet + rest);
    TakeRunAfter(PacketHeader(p), p.packet, rest);
  }

  lemma V5Fields(a: seq<byte>, b: seq<byte>, c: seq<byte>, d: seq<byte>, e: seq<byte>, f: seq<byte>, g: seq<byte>,
                 packet: seq<byte>, rest: seq<byte>)
    requires |a| == 3 && |b| == |c| == |d| == |g| == 2 && |e| == 1 && |f| == 4 && |packet| == U16(g).Value()
    ensures TakeV5(a + b + c + d + e + f + g + packet + rest)
         == Ok((V5(a[0], a[1], a[2], U16(b), U16(c), U16(d), e[0], U32(f), U16(g), packet), rest))
  {
    var header := a + b + c + d + e + f + g;
    Fields(a, b, c, d, e, f, g, packet + rest);
    assert header + packet + rest == header + (packet + rest);
    TakeRunAfter(header, packet, rest);
  }

  lemma V5RoundTrip(p: LteRrcOtaPacket, rest: seq<byte>)
    requires p.V5? && |p.packet| == p.len.Value()
    ensures TakeV5(PacketHeader(p) + p.packet + rest) == Ok((p, rest))
  {
    V5Fields([p.rrcRelMaj, p.rrcRelMin, p.bearerId], Le16(p.phyCellId), Le16(p.earfcn16), Le16(p.sfnSubfn),
             [p.pduNum], Le32(p.sibMask), Le16(p.len), p.packet, rest);
  }

  lemma V8RoundTrip(p: LteRrcOtaPacket, rest: seq<byte>)
    requires p.V8? && |p.packet| == p.len.Value()
    ensures TakeV8(PacketHeader(p) + p.packet + rest) == Ok((p, rest))
  {
    var s := PacketHeader(p) + p.packet + rest;
    Fields([p.rrcRelMaj, p.rrcRelMin, p.bearerId], Le16(p.phyCellId), Le32(p.earfcn32), Le16(p.sfnSubfn),
           [p.pduNum], Le32(p.sibMask), Le16(p.len), p.packet + rest);
    assert s == PacketHeader(p) + (p.packet + rest);
    TakeRunAfter(PacketHeader(p), p.packet, rest);
  }

  lemma V25RoundTrip(p: LteRrcOtaPacket, rest: seq<byte>)
    requires p.V25? && |p.packet| == p.len.Value()
    ensures TakeV25(PacketHeader(p) + p.packet + rest) == Ok((p, rest))
  {
    var s := PacketHeader(p) + p.packet + rest;
    Fields([p.rrcRelMaj, p.rrcRelMin, p.nrRrcRelMaj, p.nrRrcRelMin, p.bearerId], Le16(p.phyCellId),
           Le32(p.earfcn32), Le16(p.sfnSubfn), [p.pduNum], Le32(p.sibMask), Le16(p.len), p.packet + rest);
    assert s == PacketHeader(p) + (p.packet + rest);
    TakeRunAfter(PacketHeader(p), p.packet, rest);
  }

  lemma PacketRoundTrip(version: byte, p: LteRrcOtaPacket, rest: seq<byte>)
    requires PacketFits(version, p)
    ensures TakePacket(version, PacketHeader(p) + p.packet + rest) == Ok((p, rest))
  {
    match p
    case V0(_, _, _, _, _, _, _, _, _) => V0RoundTrip(p, rest);
    case V5(_, _, _, _, _, _, _, _, _, _) => V5RoundTrip(p, rest);
    case V8(_, _, _, _, _, _, _, _, _, _) => V8RoundTrip(p, rest);
    case V25(_, _, _, _, _, _, _, _, _, _, _, _) => V25RoundTrip(p, rest);
  }

  lemma WcdmaRoundTrip(channel: byte, bearer: byte, length: Word16, msg: seq<byte>, rest: seq<byte>)
    requires |msg| == length.Value()
    ensures TakeWcdma([channel, bearer] + Le16(length) + msg + rest)
         == Ok((WcdmaSignallingMessage(channel, bearer, length, msg), rest))
  {
    var s := [channel, bearer] + Le16(length) + msg + rest;
    assert s[2..4] == Le16(length);
    TakeRunAfter([channel, bearer] + Le16(length), msg, rest);
  }

  lemma UmtsNasRoundTrip(uplink: byte, length: Word32, msg: seq<byte>, rest: seq<byte>)
    requires |msg| == length.Value()
    ensures TakeUmtsNas([uplink] + Le32(length) + msg + rest) == Ok((UmtsNasOtaMessage(uplink, length, msg), rest))
  {
    var s := [uplink] + Le32(length) + msg + rest;
    assert s[1..5] == Le32(length);
    TakeRunAfter([uplink] + Le32(length), msg, rest);
  }

  lemma LteRrcRoundTrip(version: byte, p: LteRrcOtaPacket, rest: seq<byte>)
    requires PacketFits(version, p)
    ensures TakeLteRrc([version] + PacketHeader(p) + p.packet + rest) == Ok((LteRrcOtaMessage(version, p), rest))
  {
    var s := [version] + PacketHeader(p) + p.packet + rest;
    assert s[1..] == PacketHeader(p) + p.packet + rest;
    PacketRoundTrip(version, p, rest);
  }

  lemma BodyRoundTrip(logType: nat, hdrLen: nat, body: LogBody, rest: seq<byte>)
    requires BodyFits(logType, hdrLen, body)
    ensures TakeBody(logType, hdrLen, BodyToBytes(body) + rest) == Ok((body, rest))
  {
    TakeRunAfter(BodyHeader(body), BodyRun(body), rest);
    match body
    case WcdmaSignallingMessage(channel, bearer, length, msg) => WcdmaRoundTrip(channel, bearer, length, msg, rest);
    case UmtsNasOtaMessage(uplink, length, msg) => UmtsNasRoundTrip(uplink, length, msg, rest);
    case LteRrcOtaMessage(version, packet) => LteRrcRoundTrip(version, packet, rest);
    case _ =>
  }

  lemma {:induction false} U32sRoundTrip(xs: seq<Word32>, rest: seq<byte>)
    ensures |U32sToBytes(xs)| == 4 * |xs|
    ensures U32s(U32sToBytes(xs) + rest, |xs|) == xs
  {
    if xs == [] {
    } else {
      var s := U32sToBytes(xs) + rest;
      assert s[..4] == Le32(xs[0]);
      assert s[4..] == U32sToBytes(xs[1..]) + rest;
      U32sRoundTrip(xs[1..], rest);
    }
  }

  lemma RangesTaken(s: seq<byte>, sizes: seq<Word32>, rest: seq<byte>)
    requires |s| >= 64 && U32s(s, 16) == sizes && s[64..] == rest
    ensures TakePayload(LOG_CONFIG_OPCODE, 1, s) == Ok((RetrieveIdRanges(sizes), rest))
  {
  }

  lemma PayloadRoundTrip(opcode: Word32, subopcode: Word32, status: Word32, p: ResponsePayload, rest: seq<byte>)
    requires WellFormed(Response(opcode, subopcode, status, p))
    ensures TakePayload(opcode.Value(), subopcode.Value(), PayloadToBytes(p) + rest) == Ok((p, rest))
  {
    if p.RetrieveIdRanges? {
      U32sRoundTrip(p.logMaskSizes, rest);
      assert (PayloadToBytes(p) + rest)[64..] == rest;
      RangesTaken(PayloadToBytes(p) + rest, p.logMaskSizes, rest);
    } else {
      assert PayloadToBytes(p) + rest == rest;
    }
  }

  lemma LogAround(m: Message, tail: seq<byte>, rest: seq<byte>)
    requires m.Log?
    requires TakeBody(m.logType.Value(), Wrap16(m.innerLength.Value() - 12), tail) == Ok((m.body, rest))
    ensures TakeLog(LogHeader(m) + tail) == Ok((m, rest))
  {
    var s := LogHeader(m) + tail;
    assert s[2..4] == Le16(m.outerLength) && s[4..6] == Le16(m.innerLength) && s[6..8] == Le16(m.logType);
    assert s[8..16] == Le64(m.timestamp) && s[16..] == tail;
  }

  lemma LogRoundTrip(m: Message, rest: seq<byte>)
    requires m.Log? && WellFormed(m)
    ensures FromBytes(ToBytes(m) + rest) == Ok((m, rest))
  {
    var tail := BodyToBytes(m.body) + rest;
    BodyRoundTrip(m.logType.Value(), Wrap16(m.innerLength.Value() - 12), m.body, rest);
    LogAround(m, tail, rest);
    assert ToBytes(m) + rest == LogHeader(m) + tail;
  }

  lemma ResponseAround(m: Message, tail: seq<byte>, rest: seq<byte>)
    requires m.Response?
    requires TakePayload(m.opcode.Value(), m.subopcode.Value(), tail) == Ok((m.payload, rest))
    ensures TakeResponse(ResponseHeader(m) + tail) == Ok((m, rest))
  {
    var s := ResponseHeader(m) + tail;
    assert s[0..4] == Le32(m.opcode) && s[4..8] == Le32(m.subopcode) && s[8..12] == Le32(m.status);
    assert s[12..] == tail;
  }

  lemma ResponseRoundTrip(m: Message, rest: seq<byte>)
    requires m.Response? && WellFormed(m)
    ensures FromBytes(ToBytes(m) + rest) == Ok((m, rest))
  {
    var tail := PayloadToBytes(m.payload) + rest;
    PayloadRoundTrip(m.opcode, m.subopcode, m.status, m.payload, rest);
    ResponseAround(m, tail, rest);
    assert ToBytes(m) + rest == ResponseHeader(m) + tail;
    OpcodeIsNoLog(Le32(m.opcode));
  }

  /** The log-configuration opcode does not start with the byte that announces a log. */
  lemma OpcodeIsNoLog(s: seq<byte>)
    requires |s| == 4 && U32(s).Value() == LOG_CONFIG_OPCODE
    ensures s[0] != LOG_ID
  {
  }

  /** A well-formed message of any kind reads back from its bytes, whatever follows them. */
  lemma MessageRoundTrip(m: Message, rest: seq<byte>)
    requires WellFormed(m)
    ensures FromBytes(ToBytes(m) + rest) == Ok((m, rest))
  {
    if m.Log? {
      LogRoundTrip(m, rest);
    } else {
      ResponseRoundTrip(m, rest);
    }
  }

  // ---- Where the fields stand ----

  /** The number that n bytes from position at on write, low byte first. */
  function Number(s: seq<byte>, at: nat, n: nat): nat
    requires at + n <= |s|
    decreases n
  {
    if n == 0 then 0 else s[at] as nat + 0x100 * Number(s, at + 1, n - 1)
  }

  lemma Numbers(s: seq<byte>, at: nat)
    ensures at + 2 <= |s| ==> Number(s, at, 2) == U16(s[at..at + 2]).Value()
    ensures at + 4 <= |s| ==> Number(s, at, 4) == U32(s[at..at + 4]).Value()
  {
    if at + 2 <= |s| {
      assert Number(s, at + 2, 0) == 0;
      assert Number(s, at + 1, 1) == s[at + 1] as nat;
    }
    if at + 4 <= |s| {
      assert Number(s, at + 4, 0) == 0;
      assert Number(s, at + 3, 1) == s[at + 3] as nat;
      assert Number(s, at + 2, 2) == s[at + 2] as nat + 0x100 * (s[at + 3] as nat);
      assert Number(s, at + 1, 3) == s[at + 1] as nat + 0x100 * Number(s, at + 2, 2);
    }
  }

  /** What is read as a run stands at that position, and the rest follows it. */
  predicate IsRun(s: seq<byte>, at: nat, n: nat, run: seq<byte>, rest: seq<byte>) {
    at + n <= |s| && run == s[at..at + n] && rest == s[at + n..]
  }

  lemma V0Layout(s: seq<byte>)
    requires TakeV0(s).Ok?
    ensures var (p, rest) := TakeV0(s).value;
            && |s| >= 12 && p.V0? && p.rrcRelMaj == s[0] && p.rrcRelMin == s[1] && p.bearerId == s[2]
            && p.phyCellId.Value() == Number(s, 3, 2) && p.earfcn16.Value() == Number(s, 5, 2)
            && p.sfnSubfn.Value() == Number(s, 7, 2) && p.pduNum == s[9]
            && IsRun(s, 12, Number(s, 10, 2), p.packet, rest)
  {
    Numbers(s, 3);
    Numbers(s, 5);
    Numbers(s, 7);
    Numbers(s, 10);
  }

  lemma V5Layout(s: seq<byte>)
    requires TakeV5(s).Ok?
    ensures var (p, rest) := TakeV5(s).value;
            && |s| >= 16 && p.V5? && p.rrcRelMaj == s[0] && p.rrcRelMin == s[1] && p.bearerId == s[2]
            && p.phyCellId.Value() == Number(s, 3, 2) && p.earfcn16.Value() == Number(s, 5, 2)
            && p.sfnSubfn.Value() == Number(s, 7, 2) && p.pduNum == s[9] && p.sibMask.Value() == Number(s, 10, 4)
            && IsRun(s, 16, Number(s, 14, 2), p.packet, rest)
  {
    Numbers(s, 3);
    Numbers(s, 5);
    Numbers(s, 7);
    Numbers(s, 10);
    Numbers(s, 14);
  }

  lemma V8Layout(s: seq<byte>)
    requires TakeV8(s).Ok?
    ensures var (p, rest) := TakeV8(s).value;
            && |s| >= 18 && p.V8? && p.rrcRelMaj == s[0] && p.rrcRelMin == s[1] && p.bearerId == s[2]
            && p.phyCellId.Value() == Number(s, 3, 2) && p.earfcn32.Value() == Number(s, 5, 4)
            && p.sfnSubfn.Value() == Number(s, 9, 2) && p.pduNum == s[11] && p.sibMask.Value() == Number(s, 12, 4)
            && IsRun(s, 18, Number(s, 16, 2), p.packet, rest)
  {
    Numbers(s, 3);
    Numbers(s, 5);
    Numbers(s, 9);
    Numbers(s, 12);
    Numbers(s, 16);
  }

  lemma V25Layout(s: seq<byte>)
    requires TakeV25(s).Ok?
    ensures var (p, rest) := TakeV25(s).value;
            && |s| >= 20 && p.V25? && p.rrcRelMaj == s[0] && p.rrcRelMin == s[1] && p.nrRrcRelMaj == s[2]
            && p.nrRrcRelMin == s[3] && p.bearerId == s[4]
            && p.phyCellId.Value() == Number(s, 5, 2) && p.earfcn32.Value() == Number(s, 7, 4)
            && p.sfnSubfn.Value() == Number(s, 11, 2) && p.pduNum == s[13] && p.sibMask.Value() == Number(s, 14, 4)
            && IsRun(s, 20, Number(s, 18, 2), p.packet, rest)
  {
    Numbers(s, 5);
    Numbers(s, 7);
    Numbers(s, 11);
    Numbers(s, 14);
    Numbers(s, 18);
  }

  /** The fields of an RRC packet stand where its version puts them: 0 to 4, 5 to 7, 8 to 24, or 25 and up. */
  lemma PacketLayout(version: byte, s: seq<byte>)
    requires TakePacket(version, s).Ok?
    ensures var (p, rest) := TakePacket(version, s).value;
            var at := if version <= 4 then 12 else if version <= 7 then 16 else if version <= 24 then 18 else 20;
            && |s| >= at && IsRun(s, at, Number(s, at - 2, 2), p.packet, rest)
            && (p.V0? <==> version <= 4) && (p.V5? <==> 5 <= version <= 7) && (p.V8? <==> 8 <= version <= 24)
            && p.pduNum == s[if version <= 7 then 9 else if version <= 24 then 11 else 13]
            && p.sfnSubfn.Value() == Number(s, if version <= 7 then 7 else if version <= 24 then 9 else 11, 2)
            && (if p.V0? || p.V5? then p.earfcn16.Value() == Number(s, 5, 2)
                else p.earfcn32.Value() == Number(s, if p.V8? then 5 else 7, 4))
  {
    if version <= 4 {
      V0Layout(s);
    } else if version <= 7 {
      V5Layout(s);
    } else if version <= 24 {
      V8Layout(s);
    } else {
      V25Layout(s);
    }
  }

  /** The log types that have a body, and the kind each has. */
  lemma BodyKinds(logType: nat, hdrLen: nat, s: seq<byte>)
    requires TakeBody(logType, hdrLen, s).Ok?
    ensures var b := TakeBody(logType, hdrLen, s).value.0;
            && (b.WcdmaSignallingMessage? <==> logType == 0x412f)
            && (b.GsmRrSignallingMessage? <==> logType == 0x512f)
            && (b.GprsMacSignallingMessage? <==> logType == 0x5226)
            && (b.LteRrcOtaMessage? <==> logType == 0xb0c0)
            && (b.Nas4GMessage? && b.direction.Downlink? <==> logType == 0xb0e2 || logType == 0xb0ec)
            && (b.Nas4GMessage? && b.direction.Uplink? <==> logType == 0xb0e3 || logType == 0xb0ed)
            && (b.IpTraffic? <==> logType == 0x11eb)
            && (b.UmtsNasOtaMessage? <==> logType == 0x713a)
            && (b.NrRrcOtaMessage? <==> logType == 0xb821)
  {
  }

  lemma WcdmaLayout(hdrLen: nat, s: seq<byte>)
    requires TakeBody(0x412f, hdrLen, s).Ok?
    ensures var (b, rest) := TakeBody(0x412f, hdrLen, s).value;
            && b.WcdmaSignallingMessage? && |s| >= 4 && b.channelType == s[0] && b.radioBearer == s[1]
            && IsRun(s, 4, Number(s, 2, 2), b.msg, rest)
  {
    Numbers(s, 2);
  }

  lemma GsmLayout(logType: nat, hdrLen: nat, s: seq<byte>)
    requires logType == 0x512f || logType == 0x5226
    requires TakeBody(logType, hdrLen, s).Ok?
    ensures var (b, rest) := TakeBody(logType, hdrLen, s).value;
            && (b.GsmRrSignallingMessage? || b.GprsMacSignallingMessage?)
            && |s| >= 3 && b.channelType == s[0] && b.messageType == s[1] && IsRun(s, 3, s[2] as nat, b.msg, rest)
  {
  }

  lemma RrcLayout(hdrLen: nat, s: seq<byte>)
    requires TakeBody(0xb0c0, hdrLen, s).Ok?
    ensures var (b, rest) := TakeBody(0xb0c0, hdrLen, s).value;
            && b.LteRrcOtaMessage? && |s| >= 1 && b.extHeaderVersion == s[0]
            && TakePacket(s[0], s[1..]) == Ok((b.packet, rest))
  {
  }

  lemma NasLayout(logType: nat, hdrLen: nat, s: seq<byte>)
    requires logType == 0xb0e2 || logType == 0xb0e3 || logType == 0xb0ec || logType == 0xb0ed
    requires TakeBody(logType, hdrLen, s).Ok?
    ensures var (b, rest) := TakeBody(logType, hdrLen, s).value;
            && b.Nas4GMessage? && |s| >= 4 && b.extHeaderVersion == s[0] && b.rrcRel == s[1]
            && b.rrcVersionMinor == s[2] && b.rrcVersionMajor == s[3]
            && IsRun(s, 4, (hdrLen - 4) % 0x1_0000, b.msg, rest)
  {
  }

  lemma UmtsLayout(hdrLen: nat, s: seq<byte>)
    requires TakeBody(0x713a, hdrLen, s).Ok?
    ensures var (b, rest) := TakeBody(0x713a, hdrLen, s).value;
            b.UmtsNasOtaMessage? && |s| >= 5 && b.isUplink == s[0] && IsRun(s, 5, Number(s, 1, 4), b.msg, rest)
  {
    Numbers(s, 1);
  }

  lemma RunLayout(logType: nat, hdrLen: nat, s: seq<byte>)
    requires logType == 0x11eb || logType == 0xb821
    requires TakeBody(logType, hdrLen, s).Ok?
    ensures var (b, rest) := TakeBody(logType, hdrLen, s).value;
            && (b.IpTraffic? || b.NrRrcOtaMessage?)
            && IsRun(s, 0, if logType == 0x11eb then (hdrLen - 8) % 0x1_0000 else hdrLen, b.msg, rest)
  {
  }

  lemma TimeLayout(s: seq<byte>)
    requires |s| >= 16
    ensures U64(s[8..16]).Value() == Number(s, 8, 4) + 0x1_0000_0000 * Number(s, 12, 4)
  {
    Numbers(s, 8);
    Numbers(s, 12);
    assert s[8..16][..4] == s[8..12] && s[8..16][4..] == s[12..16];
  }

  lemma LogParts(s: seq<byte>, body: LogBody, rest: seq<byte>)
    requires |s| >= 16
    ensures LogWith(s, Ok((body, rest)))
         == Ok((Log(s[1], U16(s[2..4]), U16(s[4..6]), U16(s[6..8]), U64(s[8..16]), body), rest))
  {
  }

  /** The header fields of a log, which starts with byte 16, stand where they should. */
  lemma LogLayout(s: seq<byte>)
    requires FromBytes(s).Ok? && FromBytes(s).value.0.Log?
    ensures var m := FromBytes(s).value.0;
            && |s| >= 16 && s[0] == 16 && m.pendingMsgs == s[1]
            && m.outerLength.Value() == Number(s, 2, 2) && m.innerLength.Value() == Number(s, 4, 2)
            && m.logType.Value() == Number(s, 6, 2)
            && m.timestamp.Value() == Number(s, 8, 4) + 0x1_0000_0000 * Number(s, 12, 4)
  {
    var body := TakeBody(U16(s[6..8]).Value(), Wrap16(U16(s[4..6]).Value() - 12), s[16..]);
    assert FromBytes(s) == LogWith(s, body) && body.Ok?;
    LogParts(s, body.value.0, body.value.1);
    Numbers(s, 2);
    Numbers(s, 4);
    Numbers(s, 6);
    TimeLayout(s);
  }

  lemma ReadsBody(s: seq<byte>, logType: nat, hdrLen: nat, body: Taken<LogBody>)
    requires FromBytes(s).Ok? && FromBytes(s).value.0.Log? && |s| >= 16
    requires U16(s[6..8]).Value() == logType && Wrap16(U16(s[4..6]).Value() - 12) == hdrLen
    requires body == TakeBody(logType, hdrLen, s[16..])
    ensures body == Ok((FromBytes(s).value.0.body, FromBytes(s).value.1))
  {
    assert FromBytes(s) == LogWith(s, body) && body.Ok?;
    LogParts(s, body.value.0, body.value.1);
  }

  /** Its body is read from byte 16 on, with the header length 12 less than the inner length. */
  lemma LogBodyLayout(s: seq<byte>, body: Taken<LogBody>)
    requires FromBytes(s).Ok? && FromBytes(s).value.0.Log? && |s| >= 16
    requires body == TakeBody(Number(s, 6, 2), (Number(s, 4, 2) - 12) % 0x1_0000, s[16..])
    ensures body == Ok((FromBytes(s).value.0.body, FromBytes(s).value.1))
  {
    Numbers(s, 4);
    Numbers(s, 6);
    ReadsBody(s, Number(s, 6, 2), (Number(s, 4, 2) - 12) % 0x1_0000, body);
  }

  lemma {:induction false} SizeAt(s: seq<byte>, n: nat, k: nat)
    requires 4 * n <= |s| && k < n
    ensures |U32s(s, n)| == n && U32s(s, n)[k] == U32(s[4 * k..4 * k + 4])
    decreases n
  {
    if n == 1 {
    } else {
      SizeAt(s[4..], n - 1, if k == 0 then 0 else k - 1);
      if k > 0 {
        assert s[4..][4 * (k - 1)..4 * (k - 1) + 4] == s[4 * k..4 * k + 4];
      }
    }
  }

  lemma RangesLayout(s: seq<byte>)
    requires |s| >= 64
    ensures |U32s(s, 16)| == 16 && forall k | 0 <= k < 16 :: U32s(s, 16)[k].Value() == Number(s, 4 * k, 4)
  {
    SizeAt(s, 16, 0);
    forall k | 0 <= k < 16
      ensures U32s(s, 16)[k].Value() == Number(s, 4 * k, 4)
    {
      SizeAt(s, 16, k);
      Numbers(s, 4 * k);
    }
  }

  /** A response has opcode 115 and subopcode 1 with sixteen sizes, or 3 with nothing more. */
  lemma ResponseLayout(s: seq<byte>)
    requires FromBytes(s).Ok? && FromBytes(s).value.0.Response?
    ensures var (m, rest) := FromBytes(s).value;
            && |s| >= 12 && s[0] != 16 && m.opcode.Value() == Number(s, 0, 4) == 115
            && m.subopcode.Value() == Number(s, 4, 4) && m.status.Value() == Number(s, 8, 4)
            && match m.payload
               case RetrieveIdRanges(sizes) =>
                 && Number(s, 4, 4) == 1 && |s| >= 76 && rest == s[76..] && |sizes| == 16
                 && forall k | 0 <= k < 16 :: sizes[k].Value() == Number(s[12..], 4 * k, 4)
               case SetMask => Number(s, 4, 4) == 3 && rest == s[12..]
  {
    Numbers(s, 0);
    Numbers(s, 4);
    Numbers(s, 8);
    if FromBytes(s).value.0.payload.RetrieveIdRanges? {
      RangesLayout(s[12..]);
      assert s[12..][64..] == s[76..];
    }
  }
}
