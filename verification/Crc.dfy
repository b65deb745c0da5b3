/**
 The frame check sequence of the diag protocol: the 16-bit CRC with the parameters
 poly 0x1021, init 0xffff, refin, refout and xorout 0xffff, which is the FCS of
 RFC 1662 Appendix C.2.
 */
module Crc {
  const POLY: bv16 := 0x1021
  const REVERSED_POLY: bv16 := 0x8408
  const INIT: bv16 := 0xffff
  const XOROUT: bv16 := 0xffff
  const GOOD_FCS: bv16 := 0xf0b8

  function LowBits(x: bv16): bv8 {
    (x & 0xff) as bv8
  }

  function HighBits(x: bv16): bv8 {
    (x >> 8) as bv8
  }

  // ---- The register as RFC 1662 runs it: least significant bit first ----

  function Shift(reg: bv16): bv16 {
    if reg & 1 == 1 then (reg >> 1) ^ REVERSED_POLY else reg >> 1
  }

  function Shift8(reg: bv16): bv16 {
    Shift(Shift(Shift(Shift(Shift(Shift(Shift(Shift(reg))))))))
  }

  function Step(reg: bv16, b: bv8): bv16 {
    Shift8(reg ^ (b as bv16))
  }

  /** The register after shifting in all of data. */
  function Run(reg: bv16, data: seq<bv8>): bv16
    decreases |data|
  {
    if data == [] then reg else Run(Step(reg, data[0]), data[1..])
  }

  function Checksum(data: seq<bv8>): bv16 {
    Run(INIT, data) ^ XOROUT
  }

  /** The two checksum bytes as they follow the payload on the wire. */
  function ChecksumBits(data: seq<bv8>): seq<bv8> {
    [LowBits(Checksum(data)), HighBits(Checksum(data))]
  }

  lemma {:induction false} RunConcat(reg: bv16, a: seq<bv8>, b: seq<bv8>)
    ensures Run(reg, a + b) == Run(Run(reg, a), b)
    decreases |a|
  {
    if a == [] {
      assert a + b == b;
    } else {
      assert (a + b)[1..] == a[1..] + b;
      RunConcat(Step(reg, a[0]), a[1..], b);
    }
  }

  // ---- The same checksum read off the algorithm's parameters ----

  function Reverse8(b: bv8): bv8 {
    var nibbles := (b >> 4) | (b << 4);
    var pairs := ((nibbles & 0xcc) >> 2) | ((nibbles & 0x33) << 2);
    ((pairs & 0xaa) >> 1) | ((pairs & 0x55) << 1)
  }

  function Reverse16(x: bv16): bv16 {
    var bytes := (x >> 8) | (x << 8);
    var nibbles := ((bytes & 0xf0f0) >> 4) | ((bytes & 0x0f0f) << 4);
    var pairs := ((nibbles & 0xcccc) >> 2) | ((nibbles & 0x3333) << 2);
    ((pairs & 0xaaaa) >> 1) | ((pairs & 0x5555) << 1)
  }

  /** One shift of the textbook register: most significant bit first, polynomial as given. */
  function ParamShift(reg: bv16): bv16 {
    if reg & 0x8000 != 0 then (reg << 1) ^ POLY else reg << 1
  }

  function ParamShift8(reg: bv16): bv16 {
    ParamShift(ParamShift(ParamShift(ParamShift(ParamShift(ParamShift(ParamShift(ParamShift(reg))))))))
  }

  /** refin: each input byte enters reflected, at the top of the register. */
  function ParamRun(reg: bv16, data: seq<bv8>): bv16
    decreases |data|
  {
    if data == [] then reg
    else ParamRun(ParamShift8(reg ^ ((Reverse8(data[0]) as bv16) << 8)), data[1..])
  }

  /** refout: the final register leaves reflected, then xorout is applied. */
  function ParamChecksum(data: seq<bv8>): bv16 {
    Reverse16(ParamRun(INIT, data)) ^ XOROUT
  }

  lemma ReverseXor(a: bv16, b: bv16)
    ensures Reverse16(a ^ b) == Reverse16(a) ^ Reverse16(b)
  {
  }

  lemma ReverseBits(reg: bv16)
    ensures reg & 0x8000 != 0 <==> Reverse16(reg) & 1 == 1
    ensures Reverse16(reg << 1) == Reverse16(reg) >> 1
  {
  }

  lemma ReverseShift(reg: bv16)
    ensures Reverse16(ParamShift(reg)) == Shift(Reverse16(reg))
  {
    ReverseBits(reg);
    ReverseXor(reg << 1, POLY);
    assert Reverse16(POLY) == REVERSED_POLY;
  }

  lemma ReverseEnter(reg: bv16, b: bv8)
    ensures Reverse16(reg ^ ((Reverse8(b) as bv16) << 8)) == Reverse16(reg) ^ (b as bv16)
  {
  }

  lemma {:induction false} ParamRunReflects(reg: bv16, data: seq<bv8>)
    ensures Reverse16(ParamRun(reg, data)) == Run(Reverse16(reg), data)
    decreases |data|
  {
    if data == [] {
    } else {
      var r0 := reg ^ ((Reverse8(data[0]) as bv16) << 8);
      ReverseEnter(reg, data[0]);
      var r1 := ParamShift(r0); ReverseShift(r0);
      var r2 := ParamShift(r1); ReverseShift(r1);
      var r3 := ParamShift(r2); ReverseShift(r2);
      var r4 := ParamShift(r3); ReverseShift(r3);
      var r5 := ParamShift(r4); ReverseShift(r4);
      var r6 := ParamShift(r5); ReverseShift(r5);
      var r7 := ParamShift(r6); ReverseShift(r6);
      ReverseShift(r7);
      ParamRunReflects(ParamShift8(r0), data[1..]);
    }
  }

  /** The declared parameters and the FCS of RFC 1662 are the same function. */
  lemma ChecksumMatchesParameters(data: seq<bv8>)
    ensures Checksum(data) == ParamChecksum(data)
    ensures POLY == 0x1021 && INIT == 0xffff && XOROUT == 0xffff
  {
    ParamRunReflects(INIT, data);
    assert Reverse16(INIT) == INIT;
  }

  // ---- Good FCS ----

  lemma AppendOwnComplement(reg: bv16)
    ensures Step(Step(reg, LowBits(reg ^ XOROUT)), HighBits(reg ^ XOROUT)) == GOOD_FCS
  {
  }

  lemma {:induction false} Run2(reg: bv16, lo: bv8, hi: bv8)
    ensures Run(reg, [lo, hi]) == Step(Step(reg, lo), hi)
  {
    assert [lo, hi][1..] == [hi];
    assert Run(Step(reg, lo), [hi]) == Run(Step(Step(reg, lo), hi), [hi][1..]);
    assert [hi][1..] == [];
  }

  // ---- Burst errors ----

  /** Bits below position s. */
  function LowMask(s: nat): bv8
    requires s < 8
  {
    [0x00, 0x01, 0x03, 0x07, 0x0f, 0x1f, 0x3f, 0x7f][s]
  }

  /** The byte at position i, or zero past the end. */
  function ByteAt(data: seq<bv8>, i: nat): bv8 {
    if i < |data| then data[i] else 0
  }

  /**
   v is u with some bits flipped, all of them within 16 consecutive bits; bytes go out
   least significant bit first, and the 16 bits start at bit s of byte k.
   */
  ghost predicate IsBurst(u: seq<bv8>, v: seq<bv8>, k: nat, s: nat)
    requires s < 8
  {
    && |u| == |v|
    && u != v
    && (forall i | 0 <= i < |u| && !(k <= i <= k + 2) :: u[i] == v[i])
    && (ByteAt(u, k) ^ ByteAt(v, k)) & LowMask(s) == 0
    && (ByteAt(u, k + 2) ^ ByteAt(v, k + 2)) & LowMask(s) == ByteAt(u, k + 2) ^ ByteAt(v, k + 2)
  }

  // The shift register is linear over xor. Registers are boxed while linearity is composed, so
  // that the eight shifts of a step are combined by congruence and not bit by bit.

  datatype Boxed = Boxed(reg: bv16)

  function BoxedXor(x: Boxed, y: Boxed): Boxed {
    Boxed(x.reg ^ y.reg)
  }

  function BoxedShift(x: Boxed): Boxed {
    Boxed(Shift(x.reg))
  }

  function BoxedStep(x: Boxed, b: bv8): Boxed {
    var x0 := BoxedXor(x, Boxed(b as bv16));
    BoxedShift(BoxedShift(BoxedShift(BoxedShift(BoxedShift(BoxedShift(BoxedShift(BoxedShift(x0))))))))
  }

  lemma BoxedStepIsStep(r: bv16, b: bv8)
    ensures BoxedStep(Boxed(r), b) == Boxed(Step(r, b))
  {
  }

  lemma XorRegroup(x: bv16, y: bv16, p: bv16)
    ensures (x ^ p) ^ y == (x ^ y) ^ p
    ensures x ^ (y ^ p) == (x ^ y) ^ p
    ensures (x ^ p) ^ (y ^ p) == x ^ y
  {
  }

  lemma Parity(a: bv16)
    ensures a & 1 == 0 || a & 1 == 1
  {
  }

  lemma ShiftLinear(a: bv16, b: bv16)
    ensures Shift(a ^ b) == Shift(a) ^ Shift(b)
  {
    Parity(a);
    Parity(b);
    assert (a ^ b) & 1 == (a & 1) ^ (b & 1);
    assert (a ^ b) >> 1 == (a >> 1) ^ (b >> 1);
    XorRegroup(a >> 1, b >> 1, REVERSED_POLY);
  }

  lemma BoxedShiftLinear(x: Boxed, y: Boxed)
    ensures BoxedShift(BoxedXor(x, y)) == BoxedXor(BoxedShift(x), BoxedShift(y))
  {
    BoxedShiftSum(x.reg, y.reg);
  }

  lemma BoxedShiftSum(a: bv16, b: bv16)
    ensures BoxedShift(BoxedXor(Boxed(a), Boxed(b))) == BoxedXor(BoxedShift(Boxed(a)), BoxedShift(Boxed(b)))
  {
    UnboxSum(a, b);
    UnboxParts(a, b);
    BoxSum(a, b);
  }

  lemma BoxSum(a: bv16, b: bv16)
    ensures Boxed(Shift(a ^ b)) == Boxed(Shift(a) ^ Shift(b))
  {
    ShiftLinear(a, b);
  }

  lemma UnboxSum(a: bv16, b: bv16)
    ensures BoxedShift(BoxedXor(Boxed(a), Boxed(b))) == Boxed(Shift(a ^ b))
  {
  }

  lemma UnboxParts(a: bv16, b: bv16)
    ensures BoxedXor(BoxedShift(Boxed(a)), BoxedShift(Boxed(b))) == Boxed(Shift(a) ^ Shift(b))
  {
  }

  lemma BoxedEnter(x: Boxed, y: Boxed, b: bv8, c: bv8)
    ensures BoxedXor(BoxedXor(x, y), Boxed((b ^ c) as bv16))
         == BoxedXor(BoxedXor(x, Boxed(b as bv16)), BoxedXor(y, Boxed(c as bv16)))
  {
  }

  lemma StepLinear(x: Boxed, y: Boxed, b: bv8, c: bv8)
    ensures BoxedStep(BoxedXor(x, y), b ^ c) == BoxedXor(BoxedStep(x, b), BoxedStep(y, c))
  {
    var x0, y0 := BoxedXor(x, Boxed(b as bv16)), BoxedXor(y, Boxed(c as bv16)); BoxedEnter(x, y, b, c);
    var x1, y1 := BoxedShift(x0), BoxedShift(y0); BoxedShiftLinear(x0, y0);
    var x2, y2 := BoxedShift(x1), BoxedShift(y1); BoxedShiftLinear(x1, y1);
    var x3, y3 := BoxedShift(x2), BoxedShift(y2); BoxedShiftLinear(x2, y2);
    var x4, y4 := BoxedShift(x3), BoxedShift(y3); BoxedShiftLinear(x3, y3);
    var x5, y5 := BoxedShift(x4), BoxedShift(y4); BoxedShiftLinear(x4, y4);
    var x6, y6 := BoxedShift(x5), BoxedShift(y5); BoxedShiftLinear(x5, y5);
    var x7, y7 := BoxedShift(x6), BoxedShift(y6); BoxedShiftLinear(x6, y6);
    BoxedShiftLinear(x7, y7);
  }

  lemma ZeroStep(d: bv16)
    requires Step(d, 0) == 0
    ensures d == 0
  {
  }

  lemma XorZero(x: bv16, y: bv16)
    ensures x ^ y == 0 <==> x == y
  {
  }

  lemma StepInjective(r: bv16, x: bv16, b: bv8)
    requires Step(r, b) == Step(x, b)
    ensures r == x
  {
    StepLinear(Boxed(r), Boxed(x), b, b);
    BoxedStepIsStep(r, b);
    BoxedStepIsStep(x, b);
    BoxedStepIsStep(r ^ x, b ^ b);
    ZeroStep(r ^ x);
    XorZero(r, x);
  }

  lemma {:induction false} RunInjective(r: bv16, x: bv16, data: seq<bv8>)
    requires Run(r, data) == Run(x, data)
    ensures r == x
    decreases |data|
  {
    if data == [] {
    } else {
      RunInjective(Step(r, data[0]), Step(x, data[0]), data[1..]);
      StepInjective(r, x, data[0]);
    }
  }

  /** A nonzero pattern of at most 16 consecutive bits never shifts through to zero. */
  lemma NoSilentBurst(d0: bv8, d1: bv8, d2: bv8, s: nat)
    requires s < 8
    requires d0 & LowMask(s) == 0 && d2 & LowMask(s) == d2
    requires Step(Step(Step(0, d0), d1), d2) == 0
    ensures d0 == d1 == d2 == 0
  {
  }

  function Step3(r: bv16, b0: bv8, b1: bv8, b2: bv8): bv16 {
    Step(Step(Step(r, b0), b1), b2)
  }

  lemma Step3Linear(r: bv16, b0: bv8, b1: bv8, b2: bv8, c0: bv8, c1: bv8, c2: bv8)
    ensures Boxed(Step3(r ^ r, b0 ^ c0, b1 ^ c1, b2 ^ c2))
         == BoxedXor(Boxed(Step3(r, b0, b1, b2)), Boxed(Step3(r, c0, c1, c2)))
  {
    var x, y := Boxed(r), Boxed(r);
    StepLinear(x, y, b0, c0);
    BoxedStepIsStep(r, b0); BoxedStepIsStep(r, c0); BoxedStepIsStep(r ^ r, b0 ^ c0);
    var p, q, pq := Step(r, b0), Step(r, c0), Step(r ^ r, b0 ^ c0);
    StepLinear(Boxed(p), Boxed(q), b1, c1);
    BoxedStepIsStep(p, b1); BoxedStepIsStep(q, c1); BoxedStepIsStep(pq, b1 ^ c1);
    var p', q', pq' := Step(p, b1), Step(q, c1), Step(pq, b1 ^ c1);
    StepLinear(Boxed(p'), Boxed(q'), b2, c2);
    BoxedStepIsStep(p', b2); BoxedStepIsStep(q', c2); BoxedStepIsStep(pq', b2 ^ c2);
  }

  lemma WindowInjective(r: bv16, b0: bv8, b1: bv8, b2: bv8, c0: bv8, c1: bv8, c2: bv8, s: nat)
    requires s < 8
    requires (b0 ^ c0) & LowMask(s) == 0 && (b2 ^ c2) & LowMask(s) == b2 ^ c2
    requires Step3(r, b0, b1, b2) == Step3(r, c0, c1, c2)
    ensures b0 == c0 && b1 == c1 && b2 == c2
  {
    Step3Linear(r, b0, b1, b2, c0, c1, c2);
    XorZero(r, r);
    XorZero(Step3(r, b0, b1, b2), Step3(r, c0, c1, c2));
    NoSilentBurst(b0 ^ c0, b1 ^ c1, b2 ^ c2, s);
  }

  /** The register after data in which a three-byte window is singled out. */
  lemma RunWindow(r: bv16, data: seq<bv8>, k: nat)
    requires k + 2 < |data|
    ensures Run(r, data)
         == Run(Step3(Run(r, data[..k]), data[k], data[k + 1], data[k + 2]), data[k + 3..])
  {
    var tail := data[k..];
    assert data == data[..k] + tail;
    RunConcat(r, data[..k], tail);
    assert tail[1..][1..][1..] == data[k + 3..];
    var r0 := Run(r, data[..k]);
    assert Run(r0, tail) == Run(Step(r0, data[k]), tail[1..]);
    assert Run(Step(r0, data[k]), tail[1..]) == Run(Step(Step(r0, data[k]), data[k + 1]), tail[1..][1..]);
  }

  lemma EqualRegisters(r: bv16, u: seq<bv8>, v: seq<bv8>, k: nat)
    requires k + 2 < |u| == |v| && u[..k] == v[..k] && u[k + 3..] == v[k + 3..]
    requires Run(r, u) == Run(r, v)
    ensures Step3(Run(r, u[..k]), u[k], u[k + 1], u[k + 2]) == Step3(Run(r, u[..k]), v[k], v[k + 1], v[k + 2])
  {
    RunWindow(r, u, k);
    RunWindow(r, v, k);
    var r0 := Run(r, u[..k]);
    RunInjective(Step3(r0, u[k], u[k + 1], u[k + 2]), Step3(r0, v[k], v[k + 1], v[k + 2]), u[k + 3..]);
  }

  lemma SameBytes(u: seq<bv8>, v: seq<bv8>, k: nat)
    requires k + 2 < |u| == |v| && u[..k] == v[..k] && u[k + 3..] == v[k + 3..]
    requires u[k] == v[k] && u[k + 1] == v[k + 1] && u[k + 2] == v[k + 2]
    ensures u == v
  {
    assert u == u[..k] + [u[k], u[k + 1], u[k + 2]] + u[k + 3..];
    assert v == v[..k] + [v[k], v[k + 1], v[k + 2]] + v[k + 3..];
  }

  lemma BurstInside(r: bv16, u: seq<bv8>, v: seq<bv8>, k: nat, s: nat)
    requires s < 8 && k + 2 < |u| && IsBurst(u, v, k, s)
    ensures Run(r, u) != Run(r, v)
  {
    if Run(r, u) == Run(r, v) {
      assert u[..k] == v[..k] && u[k + 3..] == v[k + 3..];
      EqualRegisters(r, u, v, k);
      WindowInjective(Run(r, u[..k]), u[k], u[k + 1], u[k + 2], v[k], v[k + 1], v[k + 2], s);
      SameBytes(u, v, k);
    }
  }

  /** Every burst of at most 16 bits, wherever it falls, changes the final register. */
  lemma BurstChangesRegister(r: bv16, u: seq<bv8>, v: seq<bv8>, k: nat, s: nat)
    requires s < 8 && IsBurst(u, v, k, s)
    ensures Run(r, u) != Run(r, v)
  {
    var pad: seq<bv8> := [0, 0];
    RunConcat(r, u, pad);
    RunConcat(r, v, pad);
    PaddedBurst(u, v, k, s, pad);
    BurstInside(r, u + pad, v + pad, k, s);
  }

  lemma PaddedBurst(u: seq<bv8>, v: seq<bv8>, k: nat, s: nat, pad: seq<bv8>)
    requires s < 8 && IsBurst(u, v, k, s) && pad == [0, 0]
    ensures k < |u| && IsBurst(u + pad, v + pad, k, s)
  {
    assert (forall i | 0 <= i < |u| :: u[i] == v[i]) ==> u == v;
    assert u == (u + pad)[..|u|] && v == (v + pad)[..|v|];
    assert forall i: nat :: ByteAt(u + pad, i) == ByteAt(u, i) && ByteAt(v + pad, i) == ByteAt(v, i);
  }

  lemma LowMask0(a: bv8)
    ensures a & LowMask(0) == 0 && (0 as bv8 ^ 0) & LowMask(0) == 0 ^ 0
  {
  }

  /** Two trailing bytes complete the register to the good FCS only if they are its complement. */
  lemma GoodFcsIffComplement(reg: bv16, lo: bv8, hi: bv8)
    ensures Step(Step(reg, lo), hi) == GOOD_FCS
       <==> lo == LowBits(reg ^ XOROUT) && hi == HighBits(reg ^ XOROUT)
  {
    AppendOwnComplement(reg);
    var lo', hi' := LowBits(reg ^ XOROUT), HighBits(reg ^ XOROUT);
    if Step(Step(reg, lo), hi) == GOOD_FCS {
      LowMask0(lo ^ lo');
      WindowInjective(reg, lo, hi, 0, lo', hi', 0, 0);
    }
  }

  lemma GoodFcs(payload: seq<bv8>, lo: bv8, hi: bv8)
    ensures Run(INIT, payload + [lo, hi]) == GOOD_FCS <==> [lo, hi] == ChecksumBits(payload)
  {
    RunConcat(INIT, payload, [lo, hi]);
    Run2(Run(INIT, payload), lo, hi);
    GoodFcsIffComplement(Run(INIT, payload), lo, hi);
  }
}
