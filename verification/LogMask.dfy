/** Log masks: which log codes the diag device is asked to report. */
module LogMask {
  import opened Wrappers
  import opened Bytes
  import opened Seqs
  import opened Containers
  import opened Powers

  // ---- Bits ----

  function BitOr(a: nat, b: nat): nat {
    if a == 0 then b
    else if b == 0 then a
    else 2 * BitOr(a / 2, b / 2) + if a % 2 == 1 || b % 2 == 1 then 1 else 0
  }

  predicate TestBit(n: nat, j: nat) {
    if j == 0 then n % 2 == 1 else TestBit(n / 2, j - 1)
  }

  /** The number with these bits, lowest first. */
  function Pack(bits: seq<bool>): (r: nat)
    ensures r < Pow2(|bits|)
    decreases |bits|
  {
    if bits == [] then 0 else (if bits[0] then 1 else 0) + 2 * Pack(bits[1..])
  }

  lemma {:induction false} PackedBit(bits: seq<bool>, j: nat)
    ensures TestBit(Pack(bits), j) <==> j < |bits| && bits[j]
    decreases |bits|, j
  {
    if bits == [] {
      ZeroBit(j);
    } else if j > 0 {
      PackedBit(bits[1..], j - 1);
    }
  }

  lemma {:induction false} ZeroBit(j: nat)
    ensures !TestBit(0, j)
  {
    if j == 0 {
    } else {
      ZeroBit(j - 1);
    }
  }

  lemma {:induction false} PackOneMore(bits: seq<bool>, b: bool)
    ensures Pack(bits + [b]) == Pack(bits) + if b then Pow2(|bits|) else 0
    decreases |bits|
  {
    if bits != [] {
      PackOneMore(bits[1..], b);
      assert (bits + [b])[1..] == bits[1..] + [b];
    } else {
      assert [b][1..] == [] && bits + [b] == [b];
    }
  }

  // ---- Requests ----

  const CODES_PER_TYPE: nat := 0x1000

  function Code(logType: nat, i: nat): nat {
    BitOr(logType * CODES_PER_TYPE, i)
  }

  datatype Request =
    | RetrieveIdRanges
    | SetMask(logType: nat, logMaskBitsize: nat, logMask: seq<byte>)

  /** Which of the items from number `from` to number `to` are accepted. */
  function Bits(logType: nat, accepted: seq<nat>, from: nat, to: nat): (r: seq<bool>)
    requires from <= to
    ensures |r| == to - from
  {
    seq(to - from, j requires 0 <= j < to - from => Code(logType, from + j) in accepted)
  }

  function End(k: nat, bitsize: nat): nat {
    if 8 * k + 8 <= bitsize then 8 * k + 8 else bitsize
  }

  function MaskByte(logType: nat, bitsize: nat, accepted: seq<nat>, k: nat): byte
    requires 8 * k < bitsize
  {
    var bits := Bits(logType, accepted, 8 * k, End(k, bitsize));
    PowUpTo8(|bits|);
    Pack(bits) as byte
  }

  lemma PowUpTo8(n: nat)
    requires n <= 8
    ensures Pow2(n) <= 256
  {
    assert Pow2(8) == 2 * Pow2(7) == 4 * Pow2(6) == 8 * Pow2(5) == 16 * Pow2(4);
  }

  function Mask(logType: nat, bitsize: nat, accepted: seq<nat>): (r: seq<byte>)
    ensures |r| == (bitsize + 7) / 8
  {
    seq((bitsize + 7) / 8, k requires 0 <= k < (bitsize + 7) / 8 => MaskByte(logType, bitsize, accepted, k))
  }

  lemma PackNext(logType: nat, accepted: seq<nat>, from: nat, i: nat)
    requires from <= i
    ensures Pack(Bits(logType, accepted, from, i + 1))
         == Pack(Bits(logType, accepted, from, i)) + if Code(logType, i) in accepted then Pow2(i - from) else 0
  {
    var bits := Bits(logType, accepted, from, i);
    PackOneMore(bits, Code(logType, i) in accepted);
    assert Bits(logType, accepted, from, i + 1) == bits + [Code(logType, i) in accepted];
  }

  lemma MaskGrows(logType: nat, bitsize: nat, accepted: seq<nat>, k: nat, i: nat)
    requires 8 * k < bitsize && i + 1 == End(k, bitsize)
    ensures var byteValue := Pack(Bits(logType, accepted, 8 * k, i + 1));
            var mask := Mask(logType, bitsize, accepted);
            byteValue < 256 && k < |mask| && mask[..k + 1] == mask[..k] + [byteValue as byte]
  {
    PowUpTo8(i + 1 - 8 * k);
  }

  method BuildLogMaskRequest(logType: nat, bitsize: nat, accepted: seq<nat>) returns (request: Request)
    ensures request == SetMask(logType, bitsize, Mask(logType, bitsize, accepted))
  {
    ghost var mask := Mask(logType, bitsize, accepted);
    var currentByte: nat := 0;
    var numBitsWritten: nat := 0;
    var logMask: seq<byte> := [];
    for i := 0 to bitsize
      invariant numBitsWritten < 8 && |logMask| <= |mask|
      invariant if i < bitsize then i == 8 * |logMask| + numBitsWritten else |logMask| == |mask|
      invariant i < bitsize ==> currentByte == Pack(Bits(logType, accepted, 8 * |logMask|, i))
      invariant logMask == mask[..|logMask|]
    {
      var logCode := Code(logType, i);
      PackNext(logType, accepted, 8 * |logMask|, i);
      if logCode in accepted {
        // bit numBitsWritten is still clear, so setting it adds its value
        currentByte := currentByte + Pow2(numBitsWritten);
      }
      numBitsWritten := numBitsWritten + 1;
      if numBitsWritten == 8 || i == bitsize - 1 {
        MaskGrows(logType, bitsize, accepted, |logMask|, i);
        logMask := logMask + [currentByte as byte];
        currentByte := 0;
        numBitsWritten := 0;
      }
    }
    WholeSlice(mask);
    request := SetMask(logType, bitsize, logMask);
  }

  predicate MaskBit(mask: seq<byte>, i: nat) {
    i / 8 < |mask| && TestBit(mask[i / 8] as nat, i % 8)
  }

  /** Bit i of the mask is set exactly when item i is within the mask and its code accepted; padding bits are clear. */
  lemma MaskBits(logType: nat, bitsize: nat, accepted: seq<nat>, i: nat)
    ensures MaskBit(Mask(logType, bitsize, accepted), i) <==> i < bitsize && Code(logType, i) in accepted
  {
    var k := i / 8;
    if 8 * k < bitsize {
      PackedBit(Bits(logType, accepted, 8 * k, End(k, bitsize)), i % 8);
    }
  }

  // ---- Codes ----

  lemma {:induction false} BitOrDisjoint(a: nat, b: nat, k: nat)
    requires b < Pow2(k)
    ensures BitOr(a * Pow2(k), b) == a * Pow2(k) + b
    decreases k
  {
    if k > 0 && a > 0 && b > 0 {
      var p := a * Pow2(k - 1);
      assert a * Pow2(k) == 2 * p by {
        Doubled(a, Pow2(k - 1));
      }
      Positive(a, k - 1);
      BitOrDisjoint(a, b / 2, k - 1);
    } else if a > 0 {
      Positive(a, k);
    }
  }

  lemma Doubled(a: nat, b: nat)
    ensures a * (2 * b) == 2 * (a * b)
  {
  }

  lemma {:induction false} Positive(a: nat, k: nat)
    requires a > 0
    ensures a * Pow2(k) > 0
  {
    if k == 0 {
    } else {
      Positive(a, k - 1);
      Doubled(a, Pow2(k - 1));
    }
  }

  /** Within a type's 4096 codes, type and item are the high and the low part of the code. */
  lemma CodeParts(logType: nat, i: nat)
    requires i < 0x1000
    ensures Code(logType, i) == logType * 0x1000 + i
    ensures Code(logType, i) / 0x1000 == logType && Code(logType, i) % 0x1000 == i
  {
    assert Pow2(12) == 16 * Pow2(8) && Pow2(8) == 16 * Pow2(4);
    BitOrDisjoint(logType, i, 12);
  }

  // ---- Configuring all log types ----

  ghost predicate EnabledBy(r: Request, code: nat) {
    r.SetMask? && exists i: nat :: i < r.logMaskBitsize && MaskBit(r.logMask, i) && Code(r.logType, i) == code
  }

  /** The codes that a device enables when it carries out the requests. */
  ghost predicate Enables(requests: seq<Request>, code: nat) {
    exists r :: r in requests && EnabledBy(r, code)
  }

  /** One request for each of the first n log types that has any codes. */
  function MaskRequests(sizes: seq<nat>, accepted: seq<nat>, n: nat): seq<Request>
    requires n <= |sizes|
  {
    if n == 0 then []
    else
      MaskRequests(sizes, accepted, n - 1)
      + if sizes[n - 1] > 0 then [SetMask(n - 1, sizes[n - 1], Mask(n - 1, sizes[n - 1], accepted))] else []
  }

  lemma {:induction false} MaskRequestFor(sizes: seq<nat>, accepted: seq<nat>, n: nat, r: Request)
    requires n <= |sizes|
    ensures r in MaskRequests(sizes, accepted, n)
       <==> && r.SetMask? && r.logType < n && sizes[r.logType] > 0
            && r == SetMask(r.logType, sizes[r.logType], Mask(r.logType, sizes[r.logType], accepted))
  {
    if n == 0 {
    } else {
      MaskRequestFor(sizes, accepted, n - 1, r);
      var before := MaskRequests(sizes, accepted, n - 1);
      assert sizes[n - 1] == 0 ==> MaskRequests(sizes, accepted, n) == before;
    }
  }

  /** A type's mask enables the accepted codes among the items it covers. */
  lemma EnabledByMask(t: nat, size: nat, accepted: seq<nat>, code: nat)
    ensures EnabledBy(SetMask(t, size, Mask(t, size, accepted)), code)
       <==> code in accepted && exists i: nat :: i < size && Code(t, i) == code
  {
    var r := SetMask(t, size, Mask(t, size, accepted));
    forall i: nat
      ensures i < size && MaskBit(r.logMask, i) && Code(t, i) == code
         <==> i < size && code in accepted && Code(t, i) == code
    {
      MaskBits(t, size, accepted, i);
    }
  }

  lemma CodeIn(t: nat, size: nat, code: nat)
    requires size <= CODES_PER_TYPE
    ensures (exists i: nat :: i < size && Code(t, i) == code)
       <==> code / CODES_PER_TYPE == t && code % CODES_PER_TYPE < size
  {
    forall i: nat | i < size
      ensures Code(t, i) == t * CODES_PER_TYPE + i
    {
      CodeParts(t, i);
    }
    CodeParts(code / CODES_PER_TYPE, code % CODES_PER_TYPE);
  }

  /** The code belongs to an item that the device reported for some log type. */
  ghost predicate Covered(sizes: seq<nat>, code: nat) {
    exists t, i | 0 <= t < |sizes| && 0 <= i < sizes[t] :: Code(t, i) == code
  }

  /** Configuring all log types enables exactly the accepted codes among the items the device reported. */
  lemma EnabledCodes(sizes: seq<nat>, accepted: seq<nat>, code: nat)
    ensures Enables(MaskRequests(sizes, accepted, |sizes|), code) <==> code in accepted && Covered(sizes, code)
  {
    var requests := MaskRequests(sizes, accepted, |sizes|);
    if Enables(requests, code) {
      var r :| r in requests && EnabledBy(r, code);
      MaskRequestFor(sizes, accepted, |sizes|, r);
      EnabledByMask(r.logType, sizes[r.logType], accepted, code);
    }
    if code in accepted && Covered(sizes, code) {
      var t, i :| 0 <= t < |sizes| && 0 <= i < sizes[t] && Code(t, i) == code;
      var r := SetMask(t, sizes[t], Mask(t, sizes[t], accepted));
      MaskRequestFor(sizes, accepted, |sizes|, r);
      EnabledByMask(t, sizes[t], accepted, code);
    }
  }

  /** If no type reports more than its 4096 codes, these are the accepted codes inside the ranges of their types. */
  lemma EnabledCodesInRange(sizes: seq<nat>, accepted: seq<nat>, code: nat)
    requires forall t | 0 <= t < |sizes| :: sizes[t] <= CODES_PER_TYPE
    ensures Enables(MaskRequests(sizes, accepted, |sizes|), code)
       <==> && code in accepted && code / CODES_PER_TYPE < |sizes|
            && code % CODES_PER_TYPE < sizes[code / CODES_PER_TYPE]
  {
    EnabledCodes(sizes, accepted, code);
    forall t | 0 <= t < |sizes|
      ensures (exists i: nat :: i < sizes[t] && Code(t, i) == code)
         <==> code / CODES_PER_TYPE == t && code % CODES_PER_TYPE < sizes[t]
    {
      CodeIn(t, sizes[t], code);
    }
  }

  /** A longer range reaches into the codes of another type. */
  lemma LongRangeEnablesNextType()
    ensures Enables(MaskRequests([CODES_PER_TYPE + 1], [CODES_PER_TYPE], 1), CODES_PER_TYPE)
  {
    assert Code(0, CODES_PER_TYPE) == CODES_PER_TYPE;
    assert Covered([CODES_PER_TYPE + 1], CODES_PER_TYPE);
    EnabledCodes([CODES_PER_TYPE + 1], [CODES_PER_TYPE], CODES_PER_TYPE);
  }

  // ---- The device ----

  datatype DiagDeviceError = RequestFailed(status: nat, request: Request) | NoResponse(request: Request)

  /** The first answer to a mask request among the messages read, if there is one. */
  function MaskAnswer(request: Request, messages: seq<Parsed>): Result<(), DiagDeviceError> {
    if messages == [] then Err(NoResponse(request))
    else
      match messages[0]
      case Ok(Response(_, _, status, SetMask)) =>
        if status.Value() != 0 then Err(RequestFailed(status.Value(), request)) else Ok(())
      case _ => MaskAnswer(request, messages[1..])
  }

  function RangesAnswer(messages: seq<Parsed>): Result<seq<nat>, DiagDeviceError> {
    if messages == [] then Err(NoResponse(RetrieveIdRanges))
    else
      match messages[0]
      case Ok(Response(_, _, status, RetrieveIdRanges(sizes))) =>
        if status.Value() != 0 then Err(RequestFailed(status.Value(), RetrieveIdRanges))
        else Ok(seq(|sizes|, i requires 0 <= i < |sizes| => sizes[i].Value()))
      case _ => RangesAnswer(messages[1..])
  }

  /** The first message that answers a mask request is number k. */
  predicate IsMaskAnswer(messages: seq<Parsed>, k: int) {
    0 <= k < |messages| && messages[k].Ok? && messages[k].value.Response? && messages[k].value.payload.SetMask?
  }

  predicate IsRangesAnswer(messages: seq<Parsed>, k: int) {
    0 <= k < |messages| && messages[k].Ok? && messages[k].value.Response? && messages[k].value.payload.RetrieveIdRanges?
  }

  ghost predicate FirstMaskAnswer(messages: seq<Parsed>, k: int, status: nat) {
    && IsMaskAnswer(messages, k) && messages[k].value.status.Value() == status
    && forall j | 0 <= j < k :: !IsMaskAnswer(messages, j)
  }

  ghost predicate FirstRangesAnswer(messages: seq<Parsed>, k: int, status: nat) {
    && IsRangesAnswer(messages, k) && messages[k].value.status.Value() == status
    && forall j | 0 <= j < k :: !IsRangesAnswer(messages, j)
  }

  /** The first answer to a mask request has status 0. */
  ghost predicate Confirmed(messages: seq<Parsed>) {
    exists k :: FirstMaskAnswer(messages, k, 0)
  }

  /** Each request was confirmed, the replies to them beginning with that number. */
  ghost predicate AllConfirmed(replies: nat -> seq<Parsed>, start: nat, requests: seq<Request>) {
    forall k: nat | start <= k < start + |requests| :: Confirmed(replies(k))
  }

  function AllRequests(sizes: seq<nat>, accepted: seq<nat>): seq<Request> {
    MaskRequests(sizes, accepted, |sizes|)
  }

  lemma ConfirmedOneMore(replies: nat -> seq<Parsed>, start: nat, requests: seq<Request>, more: seq<Request>,
                         request: Request)
    requires AllConfirmed(replies, start, requests) && requests + [request] <= more
    ensures Confirmed(replies(start + |requests|)) <==> AllConfirmed(replies, start, requests + [request])
    ensures !Confirmed(replies(start + |requests|)) ==> !AllConfirmed(replies, start, more)
  {
    assert |requests| < |more|;
  }

  lemma {:induction false} MaskAnswerIs(request: Request, messages: seq<Parsed>, k: nat)
    requires k <= |messages| && forall j | 0 <= j < k :: !IsMaskAnswer(messages, j)
    ensures k < |messages| && IsMaskAnswer(messages, k) ==>
              var status := messages[k].value.status.Value();
              MaskAnswer(request, messages) == if status == 0 then Ok(()) else Err(RequestFailed(status, request))
    ensures k == |messages| ==> MaskAnswer(request, messages) == Err(NoResponse(request))
    decreases k
  {
    if k == 0 {
    } else {
      assert !IsMaskAnswer(messages, 0);
      assert forall j | 0 <= j < k - 1 :: IsMaskAnswer(messages[1..], j) <==> IsMaskAnswer(messages, j + 1);
      MaskAnswerIs(request, messages[1..], k - 1);
      assert MaskAnswer(request, messages) == MaskAnswer(request, messages[1..]);
    }
  }

  lemma FirstMaskAnswerOrNone(messages: seq<Parsed>) returns (k: nat)
    ensures k <= |messages| && forall j | 0 <= j < k :: !IsMaskAnswer(messages, j)
    ensures k < |messages| ==> IsMaskAnswer(messages, k)
  {
    k := 0;
    while k < |messages| && !IsMaskAnswer(messages, k)
      invariant k <= |messages| && forall j | 0 <= j < k :: !IsMaskAnswer(messages, j)
    {
      k := k + 1;
    }
  }

  /** A mask request succeeds exactly when its first answer has status 0; else it fails with that or without any. */
  lemma MaskSetIff(request: Request, messages: seq<Parsed>)
    ensures MaskAnswer(request, messages).Ok? <==> Confirmed(messages)
    ensures forall k, status | FirstMaskAnswer(messages, k, status) && status != 0 ::
              MaskAnswer(request, messages) == Err(RequestFailed(status, request))
    ensures (forall k :: !IsMaskAnswer(messages, k)) ==> MaskAnswer(request, messages) == Err(NoResponse(request))
  {
    var first := FirstMaskAnswerOrNone(messages);
    MaskAnswerIs(request, messages, first);
    if first < |messages| {
      assert FirstMaskAnswer(messages, first, messages[first].value.status.Value());
    }
    forall k, status | FirstMaskAnswer(messages, k, status)
      ensures first == k && MaskAnswer(request, messages).Ok? == (status == 0)
    {
      assert !(first < k) && !(k < first);
    }
  }

  lemma {:induction false} RangesAnswerIs(messages: seq<Parsed>, k: nat)
    requires k <= |messages| && forall j | 0 <= j < k :: !IsRangesAnswer(messages, j)
    ensures k < |messages| && IsRangesAnswer(messages, k) ==>
              var status, sizes := messages[k].value.status.Value(), messages[k].value.payload.logMaskSizes;
              if status != 0 then RangesAnswer(messages) == Err(RequestFailed(status, RetrieveIdRanges))
              else
                && RangesAnswer(messages).Ok? && |RangesAnswer(messages).value| == |sizes|
                && forall t | 0 <= t < |sizes| :: RangesAnswer(messages).value[t] == sizes[t].Value()
    ensures k == |messages| ==> RangesAnswer(messages) == Err(NoResponse(RetrieveIdRanges))
    decreases k
  {
    if k == 0 {
    } else {
      assert !IsRangesAnswer(messages, 0);
      assert forall j | 0 <= j < k - 1 :: IsRangesAnswer(messages[1..], j) <==> IsRangesAnswer(messages, j + 1);
      RangesAnswerIs(messages[1..], k - 1);
      assert RangesAnswer(messages) == RangesAnswer(messages[1..]);
    }
  }

  /** The sizes are those of the first answer to the ranges request if it has status 0; otherwise there are none. */
  lemma RangesTakenIff(messages: seq<Parsed>, k: nat, status: nat)
    requires FirstRangesAnswer(messages, k, status)
    ensures RangesAnswer(messages).Ok? <==> status == 0
    ensures status == 0 ==>
              var sizes := messages[k].value.payload.logMaskSizes;
              && |RangesAnswer(messages).value| == |sizes|
              && forall t | 0 <= t < |sizes| :: RangesAnswer(messages).value[t] == sizes[t].Value()
  {
    RangesAnswerIs(messages, k);
  }

  lemma {:induction false} MaskRequestsPrefix(sizes: seq<nat>, accepted: seq<nat>, n: nat, m: nat)
    requires n <= m <= |sizes|
    ensures MaskRequests(sizes, accepted, n) <= MaskRequests(sizes, accepted, m)
    decreases m
  {
    if n == m {
    } else {
      MaskRequestsPrefix(sizes, accepted, n, m - 1);
    }
  }

  class DiagDevice {
    const accepted: seq<nat>
    /** The messages of the container read after request number k. */
    const replies: nat -> seq<Parsed>
    var sent: seq<Request>

    constructor (accepted: seq<nat>, replies: nat -> seq<Parsed>)
      ensures this.accepted == accepted && this.replies == replies && sent == []
    {
      this.accepted := accepted;
      this.replies := replies;
      sent := [];
    }

    method RetrieveRanges() returns (r: Result<seq<nat>, DiagDeviceError>)
      modifies this
      ensures sent == old(sent) + [RetrieveIdRanges] && r == RangesAnswer(replies(|old(sent)|))
    {
      var messages := replies(|sent|);
      sent := sent + [RetrieveIdRanges];
      for k := 0 to |messages|
        invariant RangesAnswer(messages) == RangesAnswer(messages[k..])
      {
        assert messages[k..][1..] == messages[k + 1..];
        match messages[k] {
          case Ok(Response(_, _, status, RetrieveIdRanges(sizes))) =>
            if status.Value() != 0 {
              return Err(RequestFailed(status.Value(), RetrieveIdRanges));
            }
            return Ok(seq(|sizes|, i requires 0 <= i < |sizes| => sizes[i].Value()));
          case _ =>
        }
      }
      r := Err(NoResponse(RetrieveIdRanges));
    }

    method SetLogMask(logType: nat, bitsize: nat) returns (r: Result<(), DiagDeviceError>)
      modifies this
      ensures var request := SetMask(logType, bitsize, Mask(logType, bitsize, accepted));
              sent == old(sent) + [request] && r == MaskAnswer(request, replies(|old(sent)|))
    {
      var request := BuildLogMaskRequest(logType, bitsize, accepted);
      var messages := replies(|sent|);
      sent := sent + [request];
      for k := 0 to |messages|
        invariant MaskAnswer(request, messages) == MaskAnswer(request, messages[k..])
      {
        assert messages[k..][1..] == messages[k + 1..];
        match messages[k] {
          case Ok(Response(_, _, status, SetMask)) =>
            if status.Value() != 0 {
              return Err(RequestFailed(status.Value(), request));
            }
            return Ok(());
          case _ =>
        }
      }
      r := Err(NoResponse(request));
    }

    /** Sets the mask of every log type that has codes, up to the first that is not confirmed. */
    method SetLogMasks(sizes: seq<nat>) returns (r: Result<(), DiagDeviceError>, ghost n: nat)
      modifies this
      ensures n <= |sizes| && sent == old(sent) + MaskRequests(sizes, accepted, n) && (r.Ok? ==> n == |sizes|)
      ensures forall k | |old(sent)| <= k < |sent| && (r.Ok? || k < |sent| - 1) :: MaskAnswer(sent[k], replies(k)).Ok?
      ensures r.Err? ==> |sent| > |old(sent)| && r == MaskAnswer(sent[|sent| - 1], replies(|sent| - 1))
      ensures r.Ok? <==> AllConfirmed(replies, |old(sent)|, AllRequests(sizes, accepted))
    {
      assert old(sent) + [] == old(sent);
      n := 0;
      for logType := 0 to |sizes|
        invariant n == logType && sent == old(sent) + MaskRequests(sizes, accepted, n)
        invariant forall k | |old(sent)| <= k < |sent| :: MaskAnswer(sent[k], replies(k)).Ok?
        invariant AllConfirmed(replies, |old(sent)|, MaskRequests(sizes, accepted, n))
      {
        n := n + 1;
        assert MaskRequests(sizes, accepted, logType) + [] == MaskRequests(sizes, accepted, logType);
        if sizes[logType] > 0 {
          ghost var before := sent;
          var answer := SetLogMask(logType, sizes[logType]);
          MaskSetIff(sent[|before|], replies(|before|));
          MaskRequestsPrefix(sizes, accepted, n, |sizes|);
          ConfirmedOneMore(replies, |old(sent)|, MaskRequests(sizes, accepted, logType), AllRequests(sizes, accepted),
                           sent[|before|]);
          Associative(old(sent), MaskRequests(sizes, accepted, logType), [sent[|before|]]);
          if answer.Err? {
            return Err(answer.error), n;
          }
        }
      }
      r := Ok(());
    }

    /** Asks for the ranges and sets the masks. */
    method ConfigLogs() returns (r: Result<(), DiagDeviceError>, ghost n: nat)
      modifies this
      ensures var ranges := RangesAnswer(replies(|old(sent)|));
              match ranges
              case Err(e) => r == Err(e) && sent == old(sent) + [RetrieveIdRanges]
              case Ok(sizes) =>
                && n <= |sizes| && (r.Ok? ==> n == |sizes|)
                && sent == old(sent) + [RetrieveIdRanges] + MaskRequests(sizes, accepted, n)
      ensures forall k | |old(sent)| < k < |sent| && (r.Ok? || k < |sent| - 1) :: MaskAnswer(sent[k], replies(k)).Ok?
      ensures r.Err? && |sent| > |old(sent)| + 1 ==> r == MaskAnswer(sent[|sent| - 1], replies(|sent| - 1))
      ensures var ranges := RangesAnswer(replies(|old(sent)|));
              r.Ok? <==> ranges.Ok? && AllConfirmed(replies, |old(sent)| + 1, AllRequests(ranges.value, accepted))
    {
      n := 0;
      var ranges := RetrieveRanges();
      if ranges.Err? {
        return Err(ranges.error), n;
      }
      r, n := SetLogMasks(ranges.value);
    }
  }
}
