/** The frame check sequence over integer bytes: the register of module Crc, fed and read bit for bit. */
module Fcs {
  import opened Bytes
  import Crc

  function Bits(b: byte): bv8 {
    b as bv8
  }

  function Value(v: bv8): byte {
    v as byte
  }

  lemma BitsOfValue(v: bv8)
    ensures Bits(Value(v)) == v
  {
  }

  lemma ValueSuccessor(v: bv8)
    requires v != 0xff
    ensures Value(v + 1) == Value(v) + 1
  {
  }

  lemma {:induction false} ValueOfBits(b: byte)
    ensures Value(Bits(b)) == b
    decreases b
  {
    if b == 0 {
    } else {
      var v := Bits(b - 1);
      ValueOfBits(b - 1);
      ValueSuccessor(v);
      BitsOfValue(v + 1);
    }
  }

  function AllBits(data: seq<byte>): (r: seq<bv8>)
    ensures |r| == |data|
  {
    if data == [] then [] else [Bits(data[0])] + AllBits(data[1..])
  }

  lemma {:induction false} AllBitsConcat(a: seq<byte>, b: seq<byte>)
    ensures AllBits(a + b) == AllBits(a) + AllBits(b)
  {
    if a == [] {
      assert a + b == b;
    } else {
      assert (a + b)[1..] == a[1..] + b;
      AllBitsConcat(a[1..], b);
    }
  }

  function Checksum(data: seq<byte>): Word16 {
    var sum := Crc.Checksum(AllBits(data));
    Word16(Value(Crc.LowBits(sum)), Value(Crc.HighBits(sum)))
  }

  /** The checksum as it follows the payload on the wire, low byte first. */
  function ChecksumBytes(data: seq<byte>): seq<byte> {
    [Checksum(data).lo, Checksum(data).hi]
  }

  /** The receiver's test of RFC 1662 Appendix C: one run over payload and checksum, one constant. */
  ghost predicate Good(bytes: seq<byte>) {
    Crc.Run(Crc.INIT, AllBits(bytes)) == Crc.GOOD_FCS
  }

  lemma ValueIffBits(b: byte, v: bv8)
    ensures b == Value(v) <==> Bits(b) == v
  {
    ValueOfBits(b);
    BitsOfValue(v);
  }

  lemma ChecksumBytesAreBits(data: seq<byte>, lo: byte, hi: byte)
    ensures [lo, hi] == ChecksumBytes(data) <==> [Bits(lo), Bits(hi)] == Crc.ChecksumBits(AllBits(data))
  {
    var sum := Crc.Checksum(AllBits(data));
    ValueIffBits(lo, Crc.LowBits(sum));
    ValueIffBits(hi, Crc.HighBits(sum));
    assert Crc.ChecksumBits(AllBits(data)) == [Crc.LowBits(sum), Crc.HighBits(sum)];
    assert [lo, hi][0] == lo && [lo, hi][1] == hi && [Bits(lo), Bits(hi)][0] == Bits(lo)
        && [Bits(lo), Bits(hi)][1] == Bits(hi);
  }

  lemma AllBits2(lo: byte, hi: byte)
    ensures AllBits([lo, hi]) == [Bits(lo), Bits(hi)]
  {
    assert [lo, hi][1..] == [hi];
    assert AllBits([hi]) == [Bits(hi)] + AllBits([hi][1..]);
  }

  /** Payload and checksum together leave the good FCS exactly when the checksum is the payload's own. */
  lemma GoodIff(payload: seq<byte>, lo: byte, hi: byte)
    ensures Good(payload + [lo, hi]) <==> [lo, hi] == ChecksumBytes(payload)
  {
    AllBitsConcat(payload, [lo, hi]);
    AllBits2(lo, hi);
    Crc.GoodFcs(AllBits(payload), Bits(lo), Bits(hi));
    ChecksumBytesAreBits(payload, lo, hi);
  }

  /** v is u with some bits flipped, all within the 16 consecutive bits from bit s of byte k on. */
  ghost predicate IsBurst(u: seq<byte>, v: seq<byte>, k: nat, s: nat)
    requires s < 8
  {
    Crc.IsBurst(AllBits(u), AllBits(v), k, s)
  }

  lemma BurstIsNotGood(u: seq<byte>, v: seq<byte>, k: nat, s: nat)
    requires s < 8 && Good(u) && IsBurst(u, v, k, s)
    ensures !Good(v)
  {
    Crc.BurstChangesRegister(Crc.INIT, AllBits(u), AllBits(v), k, s);
  }

  lemma {:induction false} AllBitsAt(data: seq<byte>, i: nat)
    requires i < |data|
    ensures AllBits(data)[i] == Bits(data[i])
  {
    if i == 0 {
    } else {
      AllBitsAt(data[1..], i - 1);
    }
  }

  /** Any change confined to two adjacent bytes is such a burst. */
  lemma TwoBytesAreBurst(u: seq<byte>, v: seq<byte>, k: nat)
    requires |u| == |v| && u != v
    requires forall i | 0 <= i < |u| && i != k && i != k + 1 :: u[i] == v[i]
    ensures IsBurst(u, v, k, 0)
  {
    forall i | 0 <= i < |u|
      ensures AllBits(u)[i] == AllBits(v)[i] <==> u[i] == v[i]
    {
      AllBitsAt(u, i);
      AllBitsAt(v, i);
      ValueOfBits(u[i]);
      ValueOfBits(v[i]);
    }
    assert (forall i | 0 <= i < |u| :: u[i] == v[i]) ==> u == v;
    var x, y := Crc.ByteAt(AllBits(u), k + 2), Crc.ByteAt(AllBits(v), k + 2);
    assert x == y;
    NoDifference(x);
    LowMaskZero(Crc.ByteAt(AllBits(u), k) ^ Crc.ByteAt(AllBits(v), k));
  }

  lemma NoDifference(x: bv8)
    ensures (x ^ x) & Crc.LowMask(0) == x ^ x
  {
  }

  lemma LowMaskZero(x: bv8)
    ensures x & Crc.LowMask(0) == 0
  {
  }
}
