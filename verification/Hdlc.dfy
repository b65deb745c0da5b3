/** HDLC framing: byte stuffing as in RFC 1662 section 4.2, a 16-bit FCS and a closing flag. */
module Hdlc {
  import opened Wrappers
  import opened Bytes
  import opened Seqs
  import opened Fcs

  const MESSAGE_TERMINATOR: byte := 0x7e
  const MESSAGE_ESCAPE_CHAR: byte := 0x7d
  const ESCAPED_MESSAGE_TERMINATOR: byte := 0x5e
  const ESCAPED_MESSAGE_ESCAPE_CHAR: byte := 0x5d

  datatype HdlcError =
    | InvalidChecksum(expected: Word16, got: Word16)
    | InvalidEscapeSequence(b: byte)
    | NoTrailingCharacter(b: byte)
    | MissingChecksum
    | TooShort

  // ---- Specification ----

  function EscapeByte(b: byte): seq<byte> {
    if b == MESSAGE_TERMINATOR then [MESSAGE_ESCAPE_CHAR, ESCAPED_MESSAGE_TERMINATOR]
    else if b == MESSAGE_ESCAPE_CHAR then [MESSAGE_ESCAPE_CHAR, ESCAPED_MESSAGE_ESCAPE_CHAR]
    else [b]
  }

  function Escape(data: seq<byte>): seq<byte> {
    if data == [] then [] else EscapeByte(data[0]) + Escape(data[1..])
  }

  function Encapsulated(data: seq<byte>): seq<byte> {
    Escape(data + ChecksumBytes(data)) + [MESSAGE_TERMINATOR]
  }

  /** What unescaping has produced so far, and whether an escape character is still open. */
  datatype Unescaping = Unescaping(bytes: seq<byte>, escaping: bool)

  function UnescapeByte(u: Unescaping, b: byte): Result<Unescaping, HdlcError> {
    if u.escaping then
      if b == ESCAPED_MESSAGE_TERMINATOR then Ok(Unescaping(u.bytes + [MESSAGE_TERMINATOR], false))
      else if b == ESCAPED_MESSAGE_ESCAPE_CHAR then Ok(Unescaping(u.bytes + [MESSAGE_ESCAPE_CHAR], false))
      else Err(InvalidEscapeSequence(b))
    else if b == MESSAGE_ESCAPE_CHAR then Ok(u.(escaping := true))
    else Ok(u.(bytes := u.bytes + [b]))
  }

  function Unescape(body: seq<byte>): Result<Unescaping, HdlcError> {
    if body == [] then Ok(Unescaping([], false))
    else
      var u :- Unescape(body[..|body| - 1]);
      UnescapeByte(u, body[|body| - 1])
  }

  /** Pops the checksum off the unescaped bytes and compares it. */
  function CheckFcs(bytes: seq<byte>): Result<seq<byte>, HdlcError> {
    if |bytes| < 2 then Err(MissingChecksum)
    else
      var n := |bytes| - 2;
      var checksum := Word16(bytes[n], bytes[n + 1]);
      if checksum != Checksum(bytes[..n]) then Err(InvalidChecksum(checksum, Checksum(bytes[..n])))
      else Ok(bytes[..n])
  }

  function Decapsulated(frame: seq<byte>): Result<seq<byte>, HdlcError> {
    if |frame| < 3 then Err(TooShort)
    else if frame[|frame| - 1] != MESSAGE_TERMINATOR then Err(NoTrailingCharacter(frame[|frame| - 1]))
    else
      var u :- Unescape(frame[..|frame| - 1]);
      CheckFcs(u.bytes)
  }

  // ---- The two loops ----

  method Encapsulate(data: seq<byte>) returns (result: seq<byte>)
    ensures result == Encapsulated(data)
  {
    result := [];
    for i := 0 to |data|
      invariant result == Escape(data[..i])
    {
      EscapePrefix(data, i);
      if data[i] == MESSAGE_TERMINATOR {
        result := result + [MESSAGE_ESCAPE_CHAR, ESCAPED_MESSAGE_TERMINATOR];
      } else if data[i] == MESSAGE_ESCAPE_CHAR {
        result := result + [MESSAGE_ESCAPE_CHAR, ESCAPED_MESSAGE_ESCAPE_CHAR];
      } else {
        result := result + [data[i]];
      }
    }
    WholeSlice(data);

    var checksum := ChecksumBytes(data);
    ghost var escaped := result;
    for i := 0 to |checksum|
      invariant result == escaped + Escape(checksum[..i])
    {
      EscapePrefix(checksum, i);
      Associative(escaped, Escape(checksum[..i]), EscapeByte(checksum[i]));
      if checksum[i] == MESSAGE_TERMINATOR {
        result := result + [MESSAGE_ESCAPE_CHAR, ESCAPED_MESSAGE_TERMINATOR];
      } else if checksum[i] == MESSAGE_ESCAPE_CHAR {
        result := result + [MESSAGE_ESCAPE_CHAR, ESCAPED_MESSAGE_ESCAPE_CHAR];
      } else {
        result := result + [checksum[i]];
      }
    }
    WholeSlice(checksum);
    EscapeConcat(data, checksum);

    result := result + [MESSAGE_TERMINATOR];
  }

  method Decapsulate(frame: seq<byte>) returns (r: Result<seq<byte>, HdlcError>)
    ensures r == Decapsulated(frame)
  {
    if |frame| < 3 {
      return Err(TooShort);
    }
    if frame[|frame| - 1] != MESSAGE_TERMINATOR {
      return Err(NoTrailingCharacter(frame[|frame| - 1]));
    }
    var body := frame[..|frame| - 1];
    var unescaped: seq<byte> := [];
    var escaping := false;
    for i := 0 to |body|
      invariant Unescape(body[..i]) == Ok(Unescaping(unescaped, escaping))
    {
      assert body[..i + 1][..i] == body[..i];
      var b := body[i];
      if escaping {
        if b == ESCAPED_MESSAGE_TERMINATOR {
          unescaped := unescaped + [MESSAGE_TERMINATOR];
        } else if b == ESCAPED_MESSAGE_ESCAPE_CHAR {
          unescaped := unescaped + [MESSAGE_ESCAPE_CHAR];
        } else {
          UnescapeStuck(body, i + 1);
          return Err(InvalidEscapeSequence(b));
        }
        escaping := false;
      } else if b == MESSAGE_ESCAPE_CHAR {
        escaping := true;
      } else {
        unescaped := unescaped + [b];
      }
    }
    assert body[..|body|] == body;

    // pop off the checksum, high byte first
    if |unescaped| == 0 {
      return Err(MissingChecksum);
    }
    var hi := unescaped[|unescaped| - 1];
    var rest := unescaped[..|unescaped| - 1];
    if |rest| == 0 {
      return Err(MissingChecksum);
    }
    var lo := rest[|rest| - 1];
    var payload := rest[..|rest| - 1];
    assert payload == unescaped[..|unescaped| - 2];
    var checksum := Word16(lo, hi);
    if checksum != Checksum(payload) {
      return Err(InvalidChecksum(checksum, Checksum(payload)));
    }
    return Ok(payload);
  }

  // ---- Escaping ----

  lemma {:induction false} EscapeConcat(a: seq<byte>, b: seq<byte>)
    ensures Escape(a + b) == Escape(a) + Escape(b)
  {
    if a == [] {
      assert a + b == b;
    } else {
      assert (a + b)[1..] == a[1..] + b;
      EscapeConcat(a[1..], b);
    }
  }

  lemma EscapeLast(data: seq<byte>)
    requires data != []
    ensures Escape(data) == Escape(data[..|data| - 1]) + EscapeByte(data[|data| - 1])
  {
    var n := |data| - 1;
    assert data == data[..n] + [data[n]];
    EscapeConcat(data[..n], [data[n]]);
    EscapeSingle(data[n]);
  }

  lemma EscapePrefix(data: seq<byte>, i: nat)
    requires i < |data|
    ensures Escape(data[..i + 1]) == Escape(data[..i]) + EscapeByte(data[i])
  {
    assert data[..i + 1][..i] == data[..i];
    EscapeLast(data[..i + 1]);
  }

  lemma EscapeSingle(b: byte)
    ensures Escape([b]) == EscapeByte(b)
  {
    assert [b][1..] == [];
  }

  /** An escape error stays the result, whatever follows. */
  lemma {:induction false} UnescapeStuck(body: seq<byte>, i: nat)
    requires i <= |body| && Unescape(body[..i]).Err?
    ensures Unescape(body) == Unescape(body[..i])
    decreases |body| - i
  {
    if i == |body| {
      assert body[..i] == body;
    } else {
      assert body[..i + 1][..i] == body[..i];
      UnescapeStuck(body, i + 1);
    }
  }

  lemma UnescapeOne(body: seq<byte>, b: byte)
    ensures Unescape(body + [b])
         == if Unescape(body).Err? then Unescape(body) else UnescapeByte(Unescape(body).value, b)
  {
    assert (body + [b])[..|body|] == body;
  }

  /** Unescaping undoes escaping and leaves no escape open. */
  lemma {:induction false} UnescapeEscape(data: seq<byte>)
    ensures Unescape(Escape(data)) == Ok(Unescaping(data, false))
    decreases |data|
  {
    if data == [] {
    } else {
      var n := |data| - 1;
      UnescapeEscape(data[..n]);
      EscapeLast(data);
      UnescapeEscapedByte(Escape(data[..n]), data[..n], data[n]);
      assert data == data[..n] + [data[n]];
    }
  }

  lemma UnescapeEscapedByte(done: seq<byte>, data: seq<byte>, b: byte)
    requires Unescape(done) == Ok(Unescaping(data, false))
    ensures Unescape(done + EscapeByte(b)) == Ok(Unescaping(data + [b], false))
  {
    if b == MESSAGE_TERMINATOR || b == MESSAGE_ESCAPE_CHAR {
      var e := EscapeByte(b);
      Concatenated(done, e[0], e[1]);
      UnescapeOne(done, e[0]);
      UnescapeOne(done + [e[0]], e[1]);
    } else {
      UnescapeOne(done, b);
    }
  }

  function EscapedSoFar(u: Unescaping): seq<byte> {
    Escape(u.bytes) + if u.escaping then [MESSAGE_ESCAPE_CHAR] else []
  }

  /** A body without the flag byte is the escaping of what it unescapes to, plus the open escape if any. */
  lemma {:induction false} EscapeUnescape(body: seq<byte>)
    requires Unescape(body).Ok? && MESSAGE_TERMINATOR !in body
    ensures body == EscapedSoFar(Unescape(body).value)
    decreases |body|
  {
    if body == [] {
    } else {
      var n := |body| - 1;
      EscapeUnescape(body[..n]);
      assert body == body[..n] + [body[n]];
      EscapeUnescapeStep(Unescape(body[..n]).value, body[n]);
    }
  }

  lemma EscapeUnescapeStep(u: Unescaping, b: byte)
    requires UnescapeByte(u, b).Ok? && b != MESSAGE_TERMINATOR
    ensures EscapedSoFar(UnescapeByte(u, b).value) == EscapedSoFar(u) + [b]
  {
    if u.escaping {
      var c := if b == ESCAPED_MESSAGE_TERMINATOR then MESSAGE_TERMINATOR else MESSAGE_ESCAPE_CHAR;
      EscapeAppend(u.bytes, c);
      Concatenated(Escape(u.bytes), MESSAGE_ESCAPE_CHAR, b);
    } else if b != MESSAGE_ESCAPE_CHAR {
      EscapeAppend(u.bytes, b);
    }
  }

  lemma EscapeAppend(data: seq<byte>, b: byte)
    ensures Escape(data + [b]) == Escape(data) + EscapeByte(b)
  {
    EscapeConcat(data, [b]);
    EscapeSingle(b);
  }

  lemma {:induction false} EscapeHidesFlag(data: seq<byte>)
    ensures MESSAGE_TERMINATOR !in Escape(data)
    ensures |data| <= |Escape(data)|
  {
    if data == [] {
    } else {
      EscapeHidesFlag(data[1..]);
    }
  }

  // ---- The codec ----

  /** The checksum test accepts exactly the payloads followed by their own checksum bytes. */
  lemma CheckFcsIff(bytes: seq<byte>, data: seq<byte>)
    ensures CheckFcs(bytes) == Ok(data) <==> bytes == data + ChecksumBytes(data)
  {
    if |bytes| >= 2 {
      var n := |bytes| - 2;
      assert bytes == bytes[..n] + [bytes[n], bytes[n + 1]];
      assert (data + ChecksumBytes(data))[..|data|] == data;
    }
  }

  /** The decoder's comparison of checksums is the receiver's test for the good FCS. */
  lemma CheckFcsIffGood(bytes: seq<byte>)
    ensures CheckFcs(bytes).Ok? <==> |bytes| >= 2 && Good(bytes)
  {
    if |bytes| >= 2 {
      var n := |bytes| - 2;
      assert bytes == bytes[..n] + [bytes[n], bytes[n + 1]];
      GoodIff(bytes[..n], bytes[n], bytes[n + 1]);
      CheckFcsIff(bytes, bytes[..n]);
    }
  }

  /** Decapsulation undoes encapsulation on every byte string, the empty one included. */
  lemma RoundTrip(data: seq<byte>)
    ensures Decapsulated(Encapsulated(data)) == Ok(data)
  {
    var bytes := data + ChecksumBytes(data);
    var frame := Encapsulated(data);
    EscapeHidesFlag(bytes);
    UnescapeEscape(bytes);
    assert frame[..|frame| - 1] == Escape(bytes);
    CheckFcsIff(bytes, data);
  }

  /** The flag closes a frame and occurs nowhere else in it. */
  lemma FlagOnlyCloses(data: seq<byte>)
    ensures var frame := Encapsulated(data);
            && |frame| >= 3
            && forall i | 0 <= i < |frame| :: frame[i] == MESSAGE_TERMINATOR <==> i == |frame| - 1
  {
    var bytes := data + ChecksumBytes(data);
    EscapeHidesFlag(bytes);
    assert Encapsulated(data)[..|Escape(bytes)|] == Escape(bytes);
  }

  /** An escape character is still open when the closing flag arrives. */
  predicate Dangling(frame: seq<byte>) {
    && |frame| >= 1
    && Unescape(frame[..|frame| - 1]).Ok?
    && Unescape(frame[..|frame| - 1]).value.escaping
  }

  /**
   The frames accepted as data are its one encapsulation, and beyond it only frames with a flag
   byte inside or an escape left open, both of which the decoder lets through.
   */
  lemma Canonical(frame: seq<byte>, data: seq<byte>)
    ensures frame == Encapsulated(data)
       <==> && Decapsulated(frame) == Ok(data)
            && MESSAGE_TERMINATOR !in frame[..|frame| - 1]
            && !Dangling(frame)
  {
    var bytes := data + ChecksumBytes(data);
    if frame == Encapsulated(data) {
      RoundTrip(data);
      EscapeHidesFlag(bytes);
      UnescapeEscape(bytes);
      assert frame[..|frame| - 1] == Escape(bytes);
    }
    if Decapsulated(frame) == Ok(data) && MESSAGE_TERMINATOR !in frame[..|frame| - 1] && !Dangling(frame) {
      EscapeUnescape(frame[..|frame| - 1]);
      CheckFcsIff(Unescape(frame[..|frame| - 1]).value.bytes, data);
      assert frame == frame[..|frame| - 1] + [frame[|frame| - 1]];
    }
  }

  /** RFC 1662 section 4.3 calls a frame ending in escape, flag invalid; this decoder accepts every such frame. */
  lemma DanglingEscapeAccepted(data: seq<byte>)
    ensures var frame := Escape(data + ChecksumBytes(data)) + [MESSAGE_ESCAPE_CHAR, MESSAGE_TERMINATOR];
            Dangling(frame) && Decapsulated(frame) == Ok(data)
  {
    var bytes := data + ChecksumBytes(data);
    var frame := Escape(bytes) + [MESSAGE_ESCAPE_CHAR, MESSAGE_TERMINATOR];
    UnescapeEscape(bytes);
    EscapeHidesFlag(bytes);
    Concatenated(Escape(bytes), MESSAGE_ESCAPE_CHAR, MESSAGE_TERMINATOR);
    WithoutLast(Escape(bytes) + [MESSAGE_ESCAPE_CHAR], MESSAGE_TERMINATOR);
    UnescapeOne(Escape(bytes), MESSAGE_ESCAPE_CHAR);
    CheckFcsIff(bytes, data);
  }

  /**
   Burst detection: damage the unescaped frame of any payload, checksum included, within any 16
   consecutive bits; once escaped and sent it is refused, and refused for its checksum.
   */
  lemma BurstRejected(data: seq<byte>, damaged: seq<byte>, k: nat, s: nat)
    requires s < 8 && IsBurst(data + ChecksumBytes(data), damaged, k, s)
    ensures var r := Decapsulated(Escape(damaged) + [MESSAGE_TERMINATOR]);
            r.Err? && r.error.InvalidChecksum?
  {
    var bytes := data + ChecksumBytes(data);
    var frame := Escape(damaged) + [MESSAGE_TERMINATOR];
    CheckFcsIff(bytes, data);
    CheckFcsIffGood(bytes);
    BurstIsNotGood(bytes, damaged, k, s);
    CheckFcsIffGood(damaged);
    EscapeHidesFlag(damaged);
    UnescapeEscape(damaged);
    assert frame[..|frame| - 1] == Escape(damaged);
  }

  /** In particular any change confined to two adjacent bytes. */
  lemma AdjacentChangeRejected(data: seq<byte>, damaged: seq<byte>, k: nat)
    requires var bytes := data + ChecksumBytes(data);
             && damaged != bytes && |damaged| == |bytes|
             && forall i | 0 <= i < |bytes| && i != k && i != k + 1 :: bytes[i] == damaged[i]
    ensures var r := Decapsulated(Escape(damaged) + [MESSAGE_TERMINATOR]);
            r.Err? && r.error.InvalidChecksum?
  {
    TwoBytesAreBurst(data + ChecksumBytes(data), damaged, k);
    BurstRejected(data, damaged, k, 0);
  }

  // ---- RFC 1662 section 4.2, byte by byte ----

  /** The byte with bit 5 complemented. */
  function Bit5Complemented(b: byte): byte {
    if b / 0x20 % 2 == 0 then b + 0x20 else b - 0x20
  }

  /** Flags and escapes become 0x7d and the byte with bit 5 complemented; all others go out as they are. */
  function Stuffed(data: seq<byte>): seq<byte> {
    if data == [] then []
    else
      (if data[0] == 0x7e || data[0] == 0x7d then [0x7d, Bit5Complemented(data[0])] else [data[0]])
      + Stuffed(data[1..])
  }

  /** Every 0x7d is dropped and the byte after it, if any, gets bit 5 complemented. */
  function Unstuffed(body: seq<byte>): seq<byte> {
    if body == [] then []
    else if body[0] != 0x7d then [body[0]] + Unstuffed(body[1..])
    else if |body| == 1 then []
    else [Bit5Complemented(body[1])] + Unstuffed(body[2..])
  }

  /** The first byte after a 0x7d that is neither 0x5e nor 0x5d, if there is one. */
  function IllegalEscape(body: seq<byte>): Option<byte> {
    if body == [] then None
    else if body[0] != 0x7d then IllegalEscape(body[1..])
    else if |body| == 1 then None
    else if body[1] == 0x5e || body[1] == 0x5d then IllegalEscape(body[2..])
    else Some(body[1])
  }

  /** After every 0x7d that is not itself an escaped byte comes 0x5e, 0x5d or the end. */
  predicate LegalPairs(body: seq<byte>) {
    IllegalEscape(body).None?
  }

  lemma {:induction false} EscapeStuffs(data: seq<byte>)
    ensures Escape(data) == Stuffed(data)
  {
    if data == [] {
    } else {
      EscapeStuffs(data[1..]);
    }
  }

  lemma PairFirst(b: byte, rest: seq<byte>)
    requires b == 0x5e || b == 0x5d
    ensures IllegalEscape([0x7d, b] + rest) == IllegalEscape(rest)
    ensures Unstuffed([0x7d, b] + rest) == [Bit5Complemented(b)] + Unstuffed(rest)
  {
    assert ([0x7d, b] + rest)[2..] == rest;
  }

  lemma PlainFirst(b: byte, rest: seq<byte>)
    requires b != 0x7d
    ensures IllegalEscape([b] + rest) == IllegalEscape(rest)
    ensures Unstuffed([b] + rest) == [b] + Unstuffed(rest)
  {
    assert ([b] + rest)[1..] == rest;
  }

  lemma {:induction false} StuffedPairs(data: seq<byte>)
    ensures LegalPairs(Stuffed(data)) && Unstuffed(Stuffed(data)) == data && 0x7e !in Stuffed(data)
  {
    if data == [] {
    } else {
      StuffedPairs(data[1..]);
      if data[0] == 0x7e || data[0] == 0x7d {
        PairFirst(Bit5Complemented(data[0]), Stuffed(data[1..]));
      } else {
        PlainFirst(data[0], Stuffed(data[1..]));
      }
      assert [data[0]] + data[1..] == data;
    }
  }

  /**
   An encapsulation is payload and checksum stuffed as RFC 1662 says, low byte of the checksum first,
   and 0x7e: every 0x7d in it stands before 0x5e or 0x5d, for 0x7e and 0x7d.
   */
  lemma StuffedAsRfc1662(data: seq<byte>)
    ensures Encapsulated(data) == Stuffed(data + [Checksum(data).lo, Checksum(data).hi]) + [0x7e]
    ensures Bit5Complemented(0x7e) == 0x5e && Bit5Complemented(0x7d) == 0x5d
    ensures LegalPairs(Stuffed(data)) && Unstuffed(Stuffed(data)) == data && 0x7e !in Stuffed(data)
  {
    EscapeStuffs(data + ChecksumBytes(data));
    StuffedPairs(data);
  }

  /** Unescaping from the left: bytes, then what the rest adds. */
  lemma {:induction false} UnescapeUnstuffs(done: seq<byte>, u: seq<byte>, body: seq<byte>)
    requires Unescape(done) == Ok(Unescaping(u, false))
    ensures Unescape(done + body).Ok? <==> LegalPairs(body)
    ensures LegalPairs(body) ==> Unescape(done + body).value.bytes == u + Unstuffed(body)
    ensures !LegalPairs(body) ==> Unescape(done + body) == Err(InvalidEscapeSequence(IllegalEscape(body).value))
    decreases |body|
  {
    if body == [] {
      assert done + body == done && u + [] == u;
    } else if body[0] != 0x7d {
      UnescapeOne(done, body[0]);
      UnescapeUnstuffs(done + [body[0]], u + [body[0]], body[1..]);
      assert done + [body[0]] + body[1..] == done + body;
      Associative(u, [body[0]], Unstuffed(body[1..]));
    } else if |body| == 1 {
      UnescapeOne(done, body[0]);
      assert done + body == done + [body[0]] && u + [] == u;
    } else {
      UnescapePair(done, u, body[1]);
      assert done + body == done + [0x7d, body[1]] + body[2..];
      if body[1] == 0x5e || body[1] == 0x5d {
        UnescapeUnstuffs(done + [0x7d, body[1]], u + [Bit5Complemented(body[1])], body[2..]);
        Associative(u, [Bit5Complemented(body[1])], Unstuffed(body[2..]));
      } else {
        var n := |done| + 2;
        assert (done + body)[..n] == done + [0x7d, body[1]];
        UnescapeStuck(done + body, n);
      }
    }
  }

  lemma UnescapePair(done: seq<byte>, u: seq<byte>, b: byte)
    requires Unescape(done) == Ok(Unescaping(u, false))
    ensures b == 0x5e || b == 0x5d ==>
              Unescape(done + [0x7d, b]) == Ok(Unescaping(u + [Bit5Complemented(b)], false))
    ensures b != 0x5e && b != 0x5d ==> Unescape(done + [0x7d, b]) == Err(InvalidEscapeSequence(b))
  {
    Concatenated(done, 0x7d, b);
    UnescapeOne(done, 0x7d);
    UnescapeOne(done + [0x7d], b);
  }

  /**
   A frame is accepted as data if and only if it ends in 0x7e, all its pairs are 7d 5e and 7d 5d, and
   undoing the stuffing gives data and its checksum, low byte first.
   */
  lemma AcceptedAsRfc1662(frame: seq<byte>, data: seq<byte>)
    ensures Decapsulated(frame) == Ok(data)
       <==> && |frame| >= 3 && frame[|frame| - 1] == 0x7e
            && LegalPairs(frame[..|frame| - 1])
            && Unstuffed(frame[..|frame| - 1]) == data + [Checksum(data).lo, Checksum(data).hi]
  {
    if |frame| >= 3 {
      var body := frame[..|frame| - 1];
      UnescapeUnstuffs([], [], body);
      assert [] + body == body && [] + Unstuffed(body) == Unstuffed(body);
      if LegalPairs(body) {
        CheckFcsIff(Unstuffed(body), data);
      }
    }
  }

  /** Which error a frame gets that is not accepted: the first of these that applies. */
  lemma RejectedFor(frame: seq<byte>)
    ensures var n := |frame|;
            if n < 3 then Decapsulated(frame) == Err(TooShort)
            else if frame[n - 1] != 0x7e then Decapsulated(frame) == Err(NoTrailingCharacter(frame[n - 1]))
            else
              var body := frame[..n - 1];
              var bytes, m := Unstuffed(body), |Unstuffed(body)|;
              if IllegalEscape(body).Some? then
                Decapsulated(frame) == Err(InvalidEscapeSequence(IllegalEscape(body).value))
              else if m < 2 then Decapsulated(frame) == Err(MissingChecksum)
              else
                var sum := Checksum(bytes[..m - 2]);
                [sum.lo, sum.hi] != bytes[m - 2..] ==>
                  Decapsulated(frame) == Err(InvalidChecksum(Word16(bytes[m - 2], bytes[m - 1]), sum))
  {
    if |frame| >= 3 {
      var body := frame[..|frame| - 1];
      UnescapeUnstuffs([], [], body);
      assert [] + body == body && [] + Unstuffed(body) == Unstuffed(body);
    }
  }
}
