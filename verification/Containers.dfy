/** Containers of HDLC frames, as the diag device delivers them, and the messages inside them. */
module Containers {
  import opened Wrappers
  import opened Bytes
  import opened Seqs
  import opened Frames
  import Hdlc
  import Wire
  import Diag

  datatype DataType = UserSpace | Other(id: nat)

  datatype HdlcEncapsulatedMessage = HdlcEncapsulatedMessage(len: nat, data: seq<byte>)

  datatype MessagesContainer =
    MessagesContainer(dataType: DataType, numMessages: nat, messages: seq<HdlcEncapsulatedMessage>)

  datatype DiagParsingError =
    | MessageParsingError(parseError: Wire.ParseError, payload: seq<byte>)
    | HdlcDecapsulationError(hdlcError: Hdlc.HdlcError, frame: seq<byte>)

  type Parsed = Result<Diag.Message, DiagParsingError>

  /** What one frame yields; bytes left over after the message are dropped. */
  function DecodeFrame(frame: seq<byte>): Parsed {
    match Hdlc.Decapsulated(frame)
    case Err(e) => Err(HdlcDecapsulationError(e, frame))
    case Ok(data) =>
      match Diag.FromBytes(data)
      case Ok((m, _)) => Ok(m)
      case Err(e) => Err(MessageParsingError(e, data))
  }

  /** Bytes after the message do not matter; errors name the frame or the payload. */
  lemma FrameResult(frame: seq<byte>, data: seq<byte>, m: Diag.Message, rest: seq<byte>, h: Hdlc.HdlcError,
                    p: Wire.ParseError)
    ensures Hdlc.Decapsulated(frame) == Ok(data) && Diag.FromBytes(data) == Ok((m, rest)) ==>
              DecodeFrame(frame) == Ok(m)
    ensures Hdlc.Decapsulated(frame) == Err(h) ==> DecodeFrame(frame) == Err(HdlcDecapsulationError(h, frame))
    ensures Hdlc.Decapsulated(frame) == Ok(data) && Diag.FromBytes(data) == Err(p) ==>
              DecodeFrame(frame) == Err(MessageParsingError(p, data))
  {
  }

  function DecodeAll(frames: seq<seq<byte>>): (r: seq<Parsed>)
    ensures |r| == |frames|
  {
    Map(DecodeFrame, frames)
  }

  function Datas(messages: seq<HdlcEncapsulatedMessage>): (r: seq<seq<byte>>)
    ensures |r| == |messages|
  {
    seq(|messages|, i requires 0 <= i < |messages| => messages[i].data)
  }

  /** The message results of one container: one per frame, in order, errors included. */
  function Messages(c: MessagesContainer): seq<Parsed> {
    DecodeAll(SplitEach(Datas(c.messages)))
  }

  /** The frame can be read; in a build that checks overflow, a log with too short a length cannot. */
  predicate Readable(checksOverflow: bool, frame: seq<byte>) {
    checksOverflow && Hdlc.Decapsulated(frame).Ok? ==> Diag.LengthSuffices(Hdlc.Decapsulated(frame).value)
  }

  predicate AllReadable(checksOverflow: bool, frames: seq<seq<byte>>) {
    forall frame | frame in frames :: Readable(checksOverflow, frame)
  }

  /** The result for one frame, or None for a panic. */
  method ReadFrame(checksOverflow: bool, frame: seq<byte>) returns (result: Option<Parsed>)
    ensures result == if Readable(checksOverflow, frame) then Some(DecodeFrame(frame)) else None
  {
    var decapsulated := Hdlc.Decapsulate(frame);
    match decapsulated {
      case Err(e) => return Some(Err(HdlcDecapsulationError(e, frame)));
      case Ok(data) =>
        Diag.CheckedRead(data);
        var read := if checksOverflow then Diag.FromBytesChecked(data) else Some(Diag.FromBytes(data));
        match read {
          case None => return None;
          case Some(Ok((m, leftover))) => return Some(Ok(m));
          case Some(Err(e)) => return Some(Err(MessageParsingError(e, data)));
        }
    }
  }

  method ReadFrames(checksOverflow: bool, frames: seq<seq<byte>>) returns (result: Option<seq<Parsed>>)
    ensures result == if AllReadable(checksOverflow, frames) then Some(DecodeAll(frames)) else None
  {
    var parsed := [];
    for j := 0 to |frames|
      invariant parsed == DecodeAll(frames[..j]) && AllReadable(checksOverflow, frames[..j])
    {
      PrefixGrows(frames, j);
      DecodeAllAppend(frames[..j], [frames[j]]);
      var next := ReadFrame(checksOverflow, frames[j]);
      if next.None? {
        assert frames[j] in frames;
        return None;
      }
      parsed := parsed + [next.value];
    }
    WholeSlice(frames);
    return Some(parsed);
  }

  /** All results of a container, or None for a panic. */
  method IntoMessages(checksOverflow: bool, c: MessagesContainer) returns (result: Option<seq<Parsed>>)
    ensures result == if AllReadable(checksOverflow, SplitEach(Datas(c.messages))) then Some(Messages(c)) else None
  {
    var parsed := [];
    var datas := Datas(c.messages);
    for i := 0 to |c.messages|
      invariant parsed == DecodeAll(SplitEach(datas[..i])) && AllReadable(checksOverflow, SplitEach(datas[..i]))
    {
      var frames := Split(c.messages[i].data);
      SplitEachNext(datas, i);
      DecodeAllAppend(SplitEach(datas[..i]), frames);
      var more := ReadFrames(checksOverflow, frames);
      if more.None? {
        UnreadablePart(checksOverflow, datas, i);
        return None;
      }
      parsed := parsed + more.value;
    }
    WholeSlice(datas);
    return Some(parsed);
  }

  lemma UnreadablePart(checksOverflow: bool, datas: seq<seq<byte>>, i: nat)
    requires i < |datas| && !AllReadable(checksOverflow, Split(datas[i]))
    ensures !AllReadable(checksOverflow, SplitEach(datas))
  {
    CutInTwo(datas, i + 1);
    SplitEachAppend(datas[..i + 1], datas[i + 1..]);
    SplitEachNext(datas, i);
    var frame :| frame in Split(datas[i]) && !Readable(checksOverflow, frame);
    assert frame in SplitEach(datas);
  }

  lemma SplitEachOne(data: seq<byte>)
    ensures SplitEach([data]) == Split(data)
  {
    assert [data][1..] == [];
    assert SplitEach([]) == [];
  }

  lemma SplitEachNext(datas: seq<seq<byte>>, i: nat)
    requires i < |datas|
    ensures SplitEach(datas[..i + 1]) == SplitEach(datas[..i]) + Split(datas[i])
  {
    assert datas[..i + 1] == datas[..i] + [datas[i]];
    SplitEachAppend(datas[..i], [datas[i]]);
    SplitEachOne(datas[i]);
  }

  lemma DecodeAllAppend(a: seq<seq<byte>>, b: seq<seq<byte>>)
    ensures DecodeAll(a + b) == DecodeAll(a) + DecodeAll(b)
  {
    MapAppend(DecodeFrame, a, b);
  }

  // ---- Many containers ----

  function AllDatas(cs: seq<MessagesContainer>): seq<seq<byte>> {
    if cs == [] then [] else Datas(cs[0].messages) + AllDatas(cs[1..])
  }

  function AllFrames(cs: seq<MessagesContainer>): seq<seq<byte>> {
    SplitEach(AllDatas(cs))
  }

  lemma AllFramesNext(cs: seq<MessagesContainer>, i: nat)
    requires i < |cs|
    ensures AllFrames(cs[..i + 1]) == AllFrames(cs[..i]) + SplitEach(Datas(cs[i].messages))
    ensures AllFrames(cs) == AllFrames(cs[..i + 1]) + AllFrames(cs[i + 1..])
  {
    PrefixGrows(cs, i);
    AllDatasOneMore(cs[..i], cs[i]);
    SplitEachAppend(AllDatas(cs[..i]), Datas(cs[i].messages));
    CutInTwo(cs, i + 1);
    AllDatasAppend(cs[..i + 1], cs[i + 1..]);
    SplitEachAppend(AllDatas(cs[..i + 1]), AllDatas(cs[i + 1..]));
  }

  function AllMessages(cs: seq<MessagesContainer>): seq<Parsed> {
    if cs == [] then [] else Messages(cs[0]) + AllMessages(cs[1..])
  }

  lemma {:induction false} AllMessagesDecode(cs: seq<MessagesContainer>)
    ensures AllMessages(cs) == DecodeAll(AllFrames(cs))
  {
    if cs == [] {
    } else {
      AllMessagesDecode(cs[1..]);
      SplitEachAppend(Datas(cs[0].messages), AllDatas(cs[1..]));
      DecodeAllAppend(SplitEach(Datas(cs[0].messages)), SplitEach(AllDatas(cs[1..])));
    }
  }

  lemma {:induction false} AllDatasAppend(a: seq<MessagesContainer>, b: seq<MessagesContainer>)
    ensures AllDatas(a + b) == AllDatas(a) + AllDatas(b)
  {
    if a == [] {
      assert a + b == b;
    } else {
      TailOfConcat(a, b);
      AllDatasAppend(a[1..], b);
      Associative(Datas(a[0].messages), AllDatas(a[1..]), AllDatas(b));
    }
  }

  lemma AllDatasOneMore(cs: seq<MessagesContainer>, c: MessagesContainer)
    ensures AllDatas(cs + [c]) == AllDatas(cs) + Datas(c.messages)
    ensures Concat(AllDatas(cs + [c])) == Concat(AllDatas(cs)) + Concat(Datas(c.messages))
  {
    AllDatasAppend(cs, [c]);
    assert [c][1..] == [];
    assert AllDatas([c]) == Datas(c.messages) + AllDatas([]);
    ConcatAppend(AllDatas(cs), Datas(c.messages));
  }

  lemma AllMessagesAppend(a: seq<MessagesContainer>, b: seq<MessagesContainer>)
    ensures AllMessages(a + b) == AllMessages(a) + AllMessages(b)
  {
    AllMessagesDecode(a);
    AllMessagesDecode(b);
    AllMessagesDecode(a + b);
    AllDatasAppend(a, b);
    SplitEachAppend(AllDatas(a), AllDatas(b));
    DecodeAllAppend(SplitEach(AllDatas(a)), SplitEach(AllDatas(b)));
  }

  lemma AllMessagesOne(c: MessagesContainer)
    ensures AllMessages([c]) == Messages(c)
  {
    assert [c][1..] == [];
    assert AllMessages([]) == [];
  }

  lemma AllMessagesNext(cs: seq<MessagesContainer>, i: nat)
    requires i < |cs|
    ensures AllMessages(cs[..i + 1]) == AllMessages(cs[..i]) + Messages(cs[i])
    ensures AllMessages(cs) == AllMessages(cs[..i + 1]) + AllMessages(cs[i + 1..])
  {
    PrefixGrows(cs, i);
    AllMessagesAppend(cs[..i], [cs[i]]);
    AllMessagesOne(cs[i]);
    CutInTwo(cs, i + 1);
    AllMessagesAppend(cs[..i + 1], cs[i + 1..]);
  }

  /** A frame without its flag is reported as damaged, with its bytes. */
  lemma OpenFrameFails(frame: seq<byte>)
    requires !Closed(frame)
    ensures DecodeFrame(frame).Err? && DecodeFrame(frame).error.HdlcDecapsulationError?
    ensures DecodeFrame(frame).error.frame == frame
  {
  }

  // ---- Messages in, messages out ----

  function FrameOf(m: Diag.Message): seq<byte> {
    Hdlc.Encapsulated(Diag.ToBytes(m))
  }

  function FramesOf(ms: seq<Diag.Message>): (r: seq<seq<byte>>)
    ensures |r| == |ms|
  {
    Map(FrameOf, ms)
  }

  function AllOk(ms: seq<Diag.Message>): (r: seq<Parsed>)
    ensures |r| == |ms|
  {
    seq(|ms|, i requires 0 <= i < |ms| => Ok(ms[i]))
  }

  lemma FrameRoundTrip(m: Diag.Message)
    requires Diag.WellFormed(m)
    ensures DecodeFrame(FrameOf(m)) == Ok(m)
    ensures IsFrame(FrameOf(m)) && Closed(FrameOf(m))
  {
    var data := Diag.ToBytes(m);
    Hdlc.RoundTrip(data);
    Diag.MessageRoundTrip(m, []);
    assert data + [] == data;
    EncapsulationIsFrame(data);
  }

  lemma EncapsulationIsFrame(data: seq<byte>)
    ensures IsFrame(Hdlc.Encapsulated(data)) && Closed(Hdlc.Encapsulated(data))
  {
    Hdlc.FlagOnlyCloses(data);
    FrameLenUnique(Hdlc.Encapsulated(data), |Hdlc.Encapsulated(data)|);
  }

  function Flatten(groups: seq<seq<Diag.Message>>): seq<Diag.Message> {
    if groups == [] then [] else groups[0] + Flatten(groups[1..])
  }

  /** One encapsulated message per group, its data being the frames of the group joined. */
  function Pack(groups: seq<seq<Diag.Message>>): (r: seq<seq<byte>>)
    ensures |r| == |groups|
  {
    seq(|groups|, i requires 0 <= i < |groups| => Concat(FramesOf(groups[i])))
  }

  predicate AllWellFormed(ms: seq<Diag.Message>) {
    forall i | 0 <= i < |ms| :: Diag.WellFormed(ms[i])
  }

  lemma FramesOfAppend(a: seq<Diag.Message>, b: seq<Diag.Message>)
    ensures FramesOf(a + b) == FramesOf(a) + FramesOf(b)
  {
    MapAppend(FrameOf, a, b);
  }

  lemma SplitGroup(ms: seq<Diag.Message>)
    requires AllWellFormed(ms)
    ensures Split(Concat(FramesOf(ms))) == FramesOf(ms)
    ensures DecodeAll(FramesOf(ms)) == AllOk(ms)
  {
    forall i | 0 <= i < |ms|
      ensures IsFrame(FramesOf(ms)[i]) && Closed(FramesOf(ms)[i]) && DecodeFrame(FramesOf(ms)[i]) == Ok(ms[i])
    {
      FrameRoundTrip(ms[i]);
    }
    SplitFrames(FramesOf(ms));
  }

  lemma {:induction false} GroupsSplit(groups: seq<seq<Diag.Message>>)
    requires forall i | 0 <= i < |groups| :: AllWellFormed(groups[i])
    ensures SplitEach(Pack(groups)) == FramesOf(Flatten(groups))
    ensures AllWellFormed(Flatten(groups))
  {
    if groups == [] {
    } else {
      assert Pack(groups)[1..] == Pack(groups[1..]);
      GroupsSplit(groups[1..]);
      SplitGroup(groups[0]);
      FramesOfAppend(groups[0], Flatten(groups[1..]));
    }
  }

  /** Serialised, framed and grouped in any way, well-formed messages come back as they were. */
  lemma {:induction false} ContainerRoundTrip(c: MessagesContainer, groups: seq<seq<Diag.Message>>)
    requires forall i | 0 <= i < |groups| :: AllWellFormed(groups[i])
    requires Datas(c.messages) == Pack(groups)
    ensures Messages(c) == AllOk(Flatten(groups))
  {
    GroupsSplit(groups);
    SplitGroup(Flatten(groups));
  }
}
