/** Little-endian integers inside a byte string, and byte runs whose length was read before them. */
module Wire {
  import opened Wrappers
  import opened Bytes

  datatype ParseError = Incomplete | UnknownVariant

  /** A value and the bytes left over after it. */
  type Taken<T> = Result<(T, seq<byte>), ParseError>

  // ---- 16, 32 and 64 bits, low byte first ----

  function U16(s: seq<byte>): Word16
    requires |s| == 2
  {
    Word16(s[0], s[1])
  }

  function U32(s: seq<byte>): Word32
    requires |s| == 4
  {
    Word32(Word16(s[0], s[1]), Word16(s[2], s[3]))
  }

  function U64(s: seq<byte>): Word64
    requires |s| == 8
  {
    Word64(U32(s[..4]), U32(s[4..]))
  }

  function Le16(x: Word16): (s: seq<byte>)
    ensures |s| == 2 && U16(s) == x
  {
    [x.lo, x.hi]
  }

  function Le32(x: Word32): (s: seq<byte>)
    ensures |s| == 4 && U32(s) == x
  {
    [x.lo.lo, x.lo.hi, x.hi.lo, x.hi.hi]
  }

  function Le64(x: Word64): (s: seq<byte>)
    ensures |s| == 8 && U64(s) == x
  {
    var lo, hi := Le32(x.lo), Le32(x.hi);
    assert (lo + hi)[..4] == lo && (lo + hi)[4..] == hi;
    lo + hi
  }

  /** The n bytes of s from position at on, and what follows them. */
  function TakeRun(s: seq<byte>, at: nat, n: nat): Taken<seq<byte>> {
    if |s| < at + n then Err(Incomplete) else Ok((s[at..at + n], s[at + n..]))
  }

  /** Seven fields in a row read back at the offsets their lengths add up to. */
  lemma Fields(a: seq<byte>, b: seq<byte>, c: seq<byte>, d: seq<byte>, e: seq<byte>, f: seq<byte>, g: seq<byte>,
               rest: seq<byte>)
    ensures var s := a + b + c + d + e + f + g + rest;
            var ib := |a|; var ic := ib + |b|; var id := ic + |c|; var ie := id + |d|;
            var iF := ie + |e|; var ig := iF + |f|; var end := ig + |g|;
            && |s| == end + |rest|
            && s[..ib] == a && s[ib..ic] == b && s[ic..id] == c && s[id..ie] == d
            && s[ie..iF] == e && s[iF..ig] == f && s[ig..end] == g && s[end..] == rest
  {
  }
}
