/** Export of GSMTAP messages as IP packets of a capture file. */
module Pcap {
  import opened Wrappers
  import opened Bytes
  import opened Gsmtap

  /**
   What the build decides: whether 16-bit length arithmetic panics on overflow or wraps, and whether a
   value too wide for its bit field is cut or refused by the serializer.
   */
  datatype Build = Build(checksOverflow: bool, cutsBits: bool)

  datatype Packet = Packet(timestamp: nat, data: seq<byte>)

  const IP_HEADER_LEN: nat := 20
  const UDP_HEADER_LEN: nat := 8
  const GSMTAP_HEADER_LEN: nat := 16
  const SOURCE_PORT: nat := 13337
  const GSMTAP_PORT: nat := 4729
  const LOCALHOST: nat := 0x7f00_0001

  // ---- Big-endian fields ----

  function Be16(n: uint16): (r: seq<byte>)
    ensures |r| == 2
  {
    [(n / 0x100) as byte, (n % 0x100) as byte]
  }

  function Be32(n: uint32): (r: seq<byte>)
    ensures |r| == 4
  {
    Be16(n / 0x1_0000) + Be16(n % 0x1_0000)
  }

  // ---- Headers ----

  function GsmtapHeaderBytes(h: GsmtapHeader): (r: seq<byte>)
    ensures |r| == GSMTAP_HEADER_LEN
    ensures r[2] == h.gsmtapType.GetType() && r[12] == h.gsmtapType.GetSubtype()
  {
    [2, 4, h.gsmtapType.GetType(), 0]
    + Be16((if h.uplink then 0x4000 else 0) + h.arfcn % 0x4000)
    + [0, 0]
    + Be32(h.frameNumber)
    + [h.gsmtapType.GetSubtype(), 0, h.subslot, 0]
  }

  /** Every field of the header can be read back where GSMTAP puts it, the ARFCN modulo 14 bits. */
  lemma GsmtapHeaderFields(h: GsmtapHeader)
    ensures var r := GsmtapHeaderBytes(h);
            var flags := 0x100 * (r[4] as nat) + r[5] as nat;
            && r[0] == 2 && 4 * (r[1] as nat) == |r|
            && flags / 0x8000 == 0 && (flags / 0x4000 == 1 <==> h.uplink) && flags % 0x4000 == h.arfcn % 0x4000
            && Be32Value(r[8..12]) == h.frameNumber && r[14] == h.subslot
            && r[3] == r[6] == r[7] == r[13] == r[15] == 0
  {
    var r := GsmtapHeaderBytes(h);
    assert r[8..12] == Be32(h.frameNumber);
    Be32RoundTrip(h.frameNumber);
  }

  function Be32Value(s: seq<byte>): nat
    requires |s| == 4
  {
    0x100 * (0x100 * (0x100 * (s[0] as nat) + s[1] as nat) + s[2] as nat) + s[3] as nat
  }

  lemma Be32RoundTrip(n: uint32)
    ensures Be32Value(Be32(n)) == n
  {
  }

  function IpHeaderBytes(totalLen: uint16, identification: uint16): (r: seq<byte>)
    ensures |r| == IP_HEADER_LEN
  {
    [0x45, 0] + Be16(totalLen) + Be16(identification) + [0x40, 0, 64, 0x11] + Be16(0xffff)
    + Be32(LOCALHOST) + Be32(LOCALHOST)
  }

  function UdpHeaderBytes(length: uint16): (r: seq<byte>)
    ensures |r| == UDP_HEADER_LEN
  {
    Be16(SOURCE_PORT) + Be16(GSMTAP_PORT) + Be16(length) + Be16(0xffff)
  }

  function MessageBytes(g: GsmtapMessage): (r: seq<byte>)
    ensures |r| == GSMTAP_HEADER_LEN + |g.payload|
  {
    GsmtapHeaderBytes(g.header) + g.payload
  }

  function Datagram(identification: uint16, g: GsmtapMessage): (r: seq<byte>)
    ensures |r| == IP_HEADER_LEN + UDP_HEADER_LEN + GSMTAP_HEADER_LEN + |g.payload|
  {
    var len := |MessageBytes(g)|;
    IpHeaderBytes((len + IP_HEADER_LEN + UDP_HEADER_LEN) % 0x1_0000, identification)
    + UdpHeaderBytes((len + UDP_HEADER_LEN) % 0x1_0000)
    + MessageBytes(g)
  }

  /** The lengths in the headers are the lengths of what they head, as long as those fit 16 bits. */
  lemma DatagramLengths(identification: uint16, g: GsmtapMessage)
    requires GSMTAP_HEADER_LEN + |g.payload| + IP_HEADER_LEN + UDP_HEADER_LEN < 0x1_0000
    ensures var d := Datagram(identification, g);
            && d[2] as nat * 0x100 + d[3] as nat == |d|
            && d[24] as nat * 0x100 + d[25] as nat == |d| - IP_HEADER_LEN
            && d[4] as nat * 0x100 + d[5] as nat == identification
  {
  }

  /** Where a reader of the capture finds the type, the subtype and the payload. */
  lemma DatagramLayout(identification: uint16, g: GsmtapMessage)
    ensures var d := Datagram(identification, g);
            && d[30] == g.header.gsmtapType.GetType()
            && d[40] == g.header.gsmtapType.GetSubtype()
            && d[44..] == g.payload
  {
    var len := |MessageBytes(g)|;
    var ip := IpHeaderBytes((len + IP_HEADER_LEN + UDP_HEADER_LEN) % 0x1_0000, identification);
    var udp := UdpHeaderBytes((len + UDP_HEADER_LEN) % 0x1_0000);
    PartsLayout(ip, udp, GsmtapHeaderBytes(g.header), g.payload);
  }

  /**
   Around them: IP version 4 with a header of 20 bytes, not to be fragmented, time to live 64, UDP, from
   127.0.0.1 to itself, port 13337 to port 4729, with both checksums left at 0xffff.
   */
  lemma DatagramHeaders(identification: uint16, g: GsmtapMessage)
    ensures var d := Datagram(identification, g);
            && d[0] == 0x45 && d[1] == 0 && d[6..12] == [0x40, 0, 64, 17, 0xff, 0xff]
            && d[12..20] == [127, 0, 0, 1, 127, 0, 0, 1]
            && d[20] as nat * 0x100 + d[21] as nat == 13337
            && d[22] as nat * 0x100 + d[23] as nat == 4729
            && d[26..28] == [0xff, 0xff]
  {
    var len := |MessageBytes(g)|;
    var ip := IpHeaderBytes((len + IP_HEADER_LEN + UDP_HEADER_LEN) % 0x1_0000, identification);
    var udp := UdpHeaderBytes((len + UDP_HEADER_LEN) % 0x1_0000);
    assert Be32(LOCALHOST) == [127, 0, 0, 1];
    assert ip[6..12] == [0x40, 0, 64, 17, 0xff, 0xff] && ip[12..20] == [127, 0, 0, 1, 127, 0, 0, 1];
    assert udp[6..8] == [0xff, 0xff];
    HeadersFirst(ip, udp, MessageBytes(g));
  }

  lemma HeadersFirst(ip: seq<byte>, udp: seq<byte>, message: seq<byte>)
    requires |ip| == 20 && |udp| == 8
    ensures var d := ip + udp + message;
            && d[..20] == ip && d[6..12] == ip[6..12] && d[12..20] == ip[12..20]
            && d[20] == udp[0] && d[21] == udp[1] && d[22] == udp[2] && d[23] == udp[3] && d[26..28] == udp[6..8]
  {
  }

  lemma PartsLayout(ip: seq<byte>, udp: seq<byte>, header: seq<byte>, payload: seq<byte>)
    requires |ip| == IP_HEADER_LEN && |udp| == UDP_HEADER_LEN && |header| == GSMTAP_HEADER_LEN
    ensures var d := ip + udp + (header + payload);
            d[30] == header[2] && d[40] == header[12] && d[44..] == payload
  {
  }

  // ---- Writing ----

  /** Whether the build can write the message at all. */
  predicate Exportable(build: Build, g: GsmtapMessage) {
    && (build.cutsBits || g.header.arfcn < 0x4000)
    && (build.checksOverflow ==>
          (GSMTAP_HEADER_LEN + |g.payload|) % 0x1_0000 + IP_HEADER_LEN + UDP_HEADER_LEN < 0x1_0000)
  }

  /** Sums of 16-bit values that wrap keep the sum modulo 16 bits. */
  lemma WrappedSum(a: nat, b: nat)
    ensures (a % 0x1_0000 + b) % 0x1_0000 == (a + b) % 0x1_0000
  {
    assert a == 0x1_0000 * (a / 0x1_0000) + a % 0x1_0000;
  }

  type Stamped = (Word64, GsmtapMessage)

  /** The capture of several messages: packet i carries identification i, modulo 16 bits. */
  function Packets(gs: seq<Stamped>): (r: seq<Packet>)
    ensures |r| == |gs|
  {
    seq(|gs|, i requires 0 <= i < |gs| => Packet(gs[i].0.Value(), Datagram(i % 0x1_0000, gs[i].1)))
  }

  lemma PacketsOneMore(gs: seq<Stamped>, g: Stamped)
    ensures Packets(gs + [g]) == Packets(gs) + [Packet(g.0.Value(), Datagram(|gs| % 0x1_0000, g.1))]
  {
  }

  lemma Advance(gs: seq<Stamped>, g: Stamped, ipId: uint16)
    requires ipId == |gs| % 0x1_0000
    ensures Packets(gs + [g]) == Packets(gs) + [Packet(g.0.Value(), Datagram(ipId, g.1))]
    ensures (ipId + 1) % 0x1_0000 == |gs + [g]| % 0x1_0000
  {
    PacketsOneMore(gs, g);
    WrappedSum(|gs|, 1);
  }

  /** Serializes a message and puts the headers around it, unless the build refuses. */
  method ToDatagram(build: Build, identification: uint16, g: GsmtapMessage) returns (data: Option<seq<byte>>)
    ensures data == if Exportable(build, g) then Some(Datagram(identification, g)) else None
    ensures data.Some? <==> && (build.cutsBits || g.header.arfcn < 16384)
                            && (build.checksOverflow ==> (16 + |g.payload|) % 65536 < 65536 - 28)
  {
    if !build.cutsBits && g.header.arfcn >= 0x4000 {
      return None;
    }
    var msgBytes := MessageBytes(g);
    var len := |msgBytes| % 0x1_0000;
    var totalLen, length := len + IP_HEADER_LEN + UDP_HEADER_LEN, len + UDP_HEADER_LEN;
    if build.checksOverflow && totalLen >= 0x1_0000 {
      return None;
    }
    WrappedSum(|msgBytes|, IP_HEADER_LEN + UDP_HEADER_LEN);
    WrappedSum(|msgBytes|, UDP_HEADER_LEN);
    return Some(IpHeaderBytes(totalLen % 0x1_0000, identification) + UdpHeaderBytes(length % 0x1_0000) + msgBytes);
  }

  class GsmtapPcapWriter {
    const build: Build
    ghost var written: seq<Stamped>
    var packets: seq<Packet>
    var ipId: uint16

    ghost predicate Valid()
      reads this
    {
      && (forall g | g in written :: Exportable(build, g.1))
      && packets == Packets(written)
      && ipId == |written| % 0x1_0000
    }

    constructor (build: Build)
      ensures Valid() && this.build == build && written == []
    {
      this.build := build;
      written := [];
      packets := [];
      ipId := 0;
    }

    /** Appends the message's datagram, or fails and writes nothing. */
    method WriteGsmtapMessage(g: GsmtapMessage, timestamp: Word64) returns (ok: bool)
      requires Valid()
      modifies this
      ensures Valid()
      ensures ok <==> Exportable(build, g)
      ensures written == old(written) + if ok then [(timestamp, g)] else []
    {
      var data := ToDatagram(build, ipId, g);
      if data.None? {
        return false;
      }
      Advance(written, (timestamp, g), ipId);
      packets := packets + [Packet(timestamp.Value(), data.value)];
      ipId := (ipId + 1) % 0x1_0000;
      written := written + [(timestamp, g)];
      ok := true;
    }
  }
}
