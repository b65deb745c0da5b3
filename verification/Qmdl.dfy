/** QMDL files: the frames of many containers, written one after another and read back one at a time. */
module Qmdl {
  import opened Wrappers
  import opened Bytes
  import opened Seqs
  import opened Frames
  import opened Containers
  import opened Disks
  import Hdlc

  class QmdlWriter {
    const disk: Disk
    const path: Path
    var totalWritten: nat

    constructor (disk: Disk, path: Path, existingSize: nat)
      ensures this.disk == disk && this.path == path && totalWritten == existingSize
    {
      this.disk := disk;
      this.path := path;
      totalWritten := existingSize;
    }

    /**
     Writes the messages in turn. When a write fails the call gives up: the file then holds part of
     that message, which is not counted.
     */
    method WriteContainer(c: MessagesContainer) returns (ok: bool)
      modifies this, disk
      ensures ok ==>
                && disk.files == Appended(old(disk.files), path, Concat(Datas(c.messages)))
                && totalWritten == old(totalWritten) + |Concat(Datas(c.messages))|
      ensures !ok ==> exists i, torn | 0 <= i < |c.messages| ::
                && disk.files == Appended(old(disk.files), path,
                                          Concat(Datas(c.messages)[..i]) + Torn(c.messages[i].data, torn))
                && totalWritten == old(totalWritten) + |Concat(Datas(c.messages)[..i])|
      ensures disk.NeverFails() ==> ok
    {
      ghost var datas := Datas(c.messages);
      AppendedNothing(disk.files, path);
      for i := 0 to |c.messages|
        invariant disk.files == Appended(old(disk.files), path, Concat(datas[..i]))
        invariant totalWritten == old(totalWritten) + |Concat(datas[..i])|
      {
        var data := c.messages[i].data;
        ghost var torn := disk.torn(disk.step);
        ok := disk.Perform(Append(path, data));
        AppendedTwice(old(disk.files), path, Concat(datas[..i]), Torn(data, torn));
        if !ok {
          return;
        }
        AppendedTwice(old(disk.files), path, Concat(datas[..i]), data);
        ConcatNext(datas, i);
        totalWritten := totalWritten + |data|;
      }
      WholeSlice(datas);
      ok := true;
    }
  }

  lemma ConcatNext(datas: seq<seq<byte>>, i: nat)
    requires i < |datas|
    ensures Concat(datas[..i + 1]) == Concat(datas[..i]) + datas[i]
  {
    PrefixGrows(datas, i);
    ConcatAppend(datas[..i], [datas[i]]);
    ConcatOne(datas[i]);
  }

  lemma ConcatOne(data: seq<byte>)
    ensures Concat([data]) == data
  {
    assert [data][1..] == [];
    assert Concat([]) == [];
  }

  // ---- Reading ----

  const TWO_TO_THE_32: nat := 0x1_0000_0000

  /** Container structure is not stored, so every frame comes back in a container of its own. */
  function Single(data: seq<byte>): MessagesContainer {
    MessagesContainer(UserSpace, 1, [HdlcEncapsulatedMessage(|data| % TWO_TO_THE_32, data)])
  }

  class QmdlReader {
    const stream: seq<byte>
    const maxBytes: Option<nat>
    var bytesRead: nat

    ghost predicate Valid()
      reads this
    {
      bytesRead <= |stream|
    }

    constructor (stream: seq<byte>, maxBytes: Option<nat>)
      ensures this.stream == stream && this.maxBytes == maxBytes && bytesRead == 0 && Valid()
    {
      this.stream := stream;
      this.maxBytes := maxBytes;
      bytesRead := 0;
    }

    method GetNextMessagesContainer() returns (c: Option<MessagesContainer>)
      requires Valid()
      modifies this
      ensures Valid()
      ensures c.None? <==> AtLimit(maxBytes, old(bytesRead))
      ensures c.None? ==> bytesRead == old(bytesRead)
      ensures c.Some? ==> bytesRead == NextPosition(stream, old(bytesRead))
                          && c == Some(Single(stream[old(bytesRead)..bytesRead]))
    {
      if maxBytes.Some? && bytesRead >= maxBytes.value {
        return None;
      }
      // read_until: byte by byte up to the flag or the end of the stream
      var buf := [];
      ghost var start := bytesRead;
      var n := bytesRead;
      while n < |stream| && (buf == [] || buf[|buf| - 1] != Hdlc.MESSAGE_TERMINATOR)
        invariant start <= n <= |stream|
        invariant buf == stream[start..n]
        invariant forall i | start <= i < n - 1 :: stream[i] != Hdlc.MESSAGE_TERMINATOR
      {
        buf := buf + [stream[n]];
        n := n + 1;
      }
      FrameLenUnique(stream[start..], n - start);
      bytesRead := n;
      return Some(Single(buf));
    }
  }

  predicate AtLimit(maxBytes: Option<nat>, bytesRead: nat) {
    maxBytes.Some? && bytesRead >= maxBytes.value
  }

  function NextPosition(stream: seq<byte>, position: nat): (r: nat)
    requires position <= |stream|
    ensures position <= r <= |stream|
  {
    position + FrameLen(stream[position..])
  }

  /** Where a reader bounded by limit stops: the end of the frame that holds byte limit - 1. */
  function ReadEnd(stream: seq<byte>, limit: nat): (r: nat)
    requires limit <= |stream|
    ensures limit <= r <= |stream|
  {
    if limit == 0 then 0 else limit - 1 + FrameLen(stream[limit - 1..])
  }

  /** The reader stops exactly at its limit when the limit falls between two frames or at the end. */
  lemma ReadEndIsLimit(stream: seq<byte>, limit: nat)
    requires limit <= |stream|
    ensures ReadEnd(stream, limit) == limit <==> Closed(stream[..limit]) || limit == |stream|
    ensures ReadEnd(stream, limit) < |stream| ==> Closed(stream[..ReadEnd(stream, limit)])
    ensures forall i | limit <= i < ReadEnd(stream, limit) - 1 :: stream[i] != Hdlc.MESSAGE_TERMINATOR
  {
    if limit != 0 {
      var s := stream[limit - 1..];
      FrameLenSound(s);
      assert s[0] == stream[limit - 1];
      assert FrameLen(s) == 1 <==> s[0] == Hdlc.MESSAGE_TERMINATOR || |s| == 1;
      assert forall i | 0 <= i < |s| :: s[i] == stream[limit - 1 + i];
    }
  }

  /** Drains a reader bounded within its stream, as the analysis and export loops do. */
  method ReadAll(stream: seq<byte>, limit: nat) returns (cs: seq<MessagesContainer>)
    requires limit <= |stream|
    ensures AllDatas(cs) == Split(stream[..ReadEnd(stream, limit)])
    ensures forall c | c in cs :: c.dataType == UserSpace && |c.messages| == 1
    ensures AllMessages(cs) == MessagesRead(stream, limit)
  {
    var reader := new QmdlReader(stream, Some(limit));
    cs := [];
    var c := reader.GetNextMessagesContainer();
    ghost var position := 0;
    assert stream[..0] == [];
    while c.Some?
      invariant reader.Valid() && reader.stream == stream && reader.maxBytes == Some(limit)
      invariant 0 <= position <= |stream|
      invariant AllDatas(cs) == Split(stream[..position])
      invariant position == |stream| || Closed(stream[..position])
      invariant if c.Some? then position < limit && reader.bytesRead == NextPosition(stream, position)
                                && c == Some(Single(stream[position..reader.bytesRead]))
                else position == ReadEnd(stream, limit)
      invariant forall k | k in cs :: k.dataType == UserSpace && |k.messages| == 1
      decreases c.Some?, limit - position
    {
      TakeFrame(stream, position, limit);
      AllDatasAppend(cs, [c.value]);
      AllDatasSingle(stream[position..reader.bytesRead]);
      cs := cs + [c.value];
      position := reader.bytesRead;
      c := reader.GetNextMessagesContainer();
    }
    AllMessagesDecode(cs);
    SplitEachOfSplit(stream[..ReadEnd(stream, limit)]);
  }

  /** Containers that hold a frame of the file each hold its frames. */
  lemma FramesOfFile(cs: seq<MessagesContainer>, stream: seq<byte>)
    requires AllDatas(cs) == Split(stream[..ReadEnd(stream, |stream|)])
    ensures AllFrames(cs) == Split(stream)
  {
    ReadEndIsLimit(stream, |stream|);
    WholeSlice(stream);
    SplitEachOfSplit(stream);
  }

  function MessagesRead(stream: seq<byte>, limit: nat): seq<Parsed>
    requires limit <= |stream|
  {
    DecodeAll(Split(stream[..ReadEnd(stream, limit)]))
  }

  lemma AllDatasSingle(data: seq<byte>)
    ensures AllDatas([Single(data)]) == [data]
  {
    assert [Single(data)][1..] == [];
    assert AllDatas([]) == [];
    assert Datas(Single(data).messages) == [data];
  }

  lemma {:induction false} SplitEachOfSplit(s: seq<byte>)
    ensures SplitEach(Split(s)) == Split(s)
    decreases |s|
  {
    if s == [] {
    } else {
      SplitEachOfSplit(s[FrameLen(s)..]);
      FrameLenOfFrame(s);
      SplitFrame(s[..FrameLen(s)]);
      assert Split(s)[1..] == Split(s[FrameLen(s)..]);
    }
  }

  /** One step of a bounded reader that has not reached its limit. */
  lemma TakeFrame(stream: seq<byte>, position: nat, limit: nat)
    requires position < limit <= |stream| && Closed(stream[..position])
    ensures var next := NextPosition(stream, position);
            && position < next
            && Split(stream[..next]) == Split(stream[..position]) + [stream[position..next]]
            && (next == |stream| || Closed(stream[..next]))
            && (next >= limit ==> next == ReadEnd(stream, limit))
  {
    var next := NextPosition(stream, position);
    NextFrame(stream, position);
    SplitFrame(stream[position..next]);
    SplitClosed(stream[..position], stream[position..next]);
    SlicesMeet(stream, position, next);
    if next >= limit {
      ReadEndInFrame(stream, position, limit);
    }
  }

  lemma ReadEndInFrame(stream: seq<byte>, position: nat, limit: nat)
    requires position < limit <= |stream| && limit <= NextPosition(stream, position)
    ensures ReadEnd(stream, limit) == NextPosition(stream, position)
  {
    FrameLenSuffix(stream[position..], limit - 1 - position);
    SliceOfSlice(stream, position, limit - 1);
  }

  lemma NextFrame(stream: seq<byte>, position: nat)
    requires position < |stream|
    ensures var next := NextPosition(stream, position);
            IsFrame(stream[position..next]) && (next == |stream| || Closed(stream[..next]))
  {
    var s := stream[position..];
    var next := NextPosition(stream, position);
    assert stream[position..next] == s[..FrameLen(s)];
    FrameLenOfFrame(s);
    if next < |stream| {
      FrameInside(s);
    }
  }

  // ---- Forgetting the container structure ----

  /**
   Writing any containers and reading the file back yields the same message results, errors
   included, exactly when no container data that lacks its final flag is followed by more bytes.
   */
  lemma ForgettingContainersIff(cs: seq<MessagesContainer>)
    ensures var file := Concat(AllDatas(cs));
            MessagesRead(file, |file|) == AllMessages(cs) <==> Harmless(AllDatas(cs))
  {
    var file := Concat(AllDatas(cs));
    ReadEndIsLimit(file, |file|);
    assert file[..|file|] == file;
    AllMessagesDecode(cs);
    GroupingIffHarmless(AllDatas(cs));
    SplitCount(AllDatas(cs));
  }

  /** In particular it is harmless when every data ends in a flag. */
  lemma ForgettingClosedContainers(cs: seq<MessagesContainer>)
    requires forall data | data in AllDatas(cs) :: Closed(data)
    ensures var file := Concat(AllDatas(cs)); MessagesRead(file, |file|) == AllMessages(cs)
  {
    ConcatClosed(AllDatas(cs));
    ForgettingContainersIff(cs);
  }

  /** Without its flag, a data is two damaged frames in two containers but one frame in the file. */
  lemma ForgettingCanMatter()
    ensures var cs := [Single([1]), Single([2])]; var file := Concat(AllDatas(cs));
            |AllMessages(cs)| == 2 && |MessagesRead(file, |file|)| == 1
  {
    var cs := [Single([1]), Single([2])];
    AllDatasAppend([Single([1])], [Single([2])]);
    assert cs == [Single([1])] + [Single([2])];
    AllDatasSingle([1]);
    AllDatasSingle([2]);
    assert AllDatas(cs) == [[1], [2]];
    ConcatAppend([[1]], [[2]]);
    ConcatOne([1]);
    ConcatOne([2]);
    var file: seq<byte> := [1, 2];
    assert Concat(AllDatas(cs)) == file;
    assert forall i | 0 <= i < 2 :: file[i] != Hdlc.MESSAGE_TERMINATOR;
    FrameLenUnique(file, 2);
    SplitFrame(file);
    FrameLenUnique([1], 1);
    FrameLenUnique([2], 1);
    SplitFrame([1]);
    SplitFrame([2]);
    AllMessagesDecode(cs);
    SplitEachAppend([[1]], [[2]]);
    SplitEachOne([1]);
    SplitEachOne([2]);
    ReadEndIsLimit(file, 2);
    assert file[..2] == file;
  }

  /**
   A reader bounded by a size taken earlier gets the messages of that earlier file, whatever was
   appended since, exactly when the earlier file ended between two frames or nothing was appended.
   */
  lemma SnapshotIff(file: seq<byte>, later: seq<byte>)
    ensures MessagesRead(file + later, |file|) == MessagesRead(file, |file|)
       <==> Closed(file) || later == []
  {
    var whole := file + later;
    ReadEndIsLimit(file, |file|);
    ReadEndIsLimit(whole, |file|);
    assert file[..|file|] == file && whole[..|file|] == file;
    if !Closed(file) && later != [] {
      var end := ReadEnd(whole, |file|);
      SharedFrameDiffers(file, whole[|file|..end]);
      assert whole[..end] == file + whole[|file|..end];
    }
  }

  /**
   Such a reader gets the messages of the containers written by then exactly when forgetting their
   structure is harmless, and they ended between two frames or nothing was appended.
   */
  lemma SnapshotOfContainersIff(cs: seq<MessagesContainer>, later: seq<byte>)
    ensures MessagesRead(Concat(AllDatas(cs)) + later, |Concat(AllDatas(cs))|) == AllMessages(cs)
       <==> Harmless(AllDatas(cs)) && (Closed(Concat(AllDatas(cs))) || later == [])
  {
    var file := Concat(AllDatas(cs));
    ForgettingContainersIff(cs);
    SnapshotIff(file, later);
    if !Harmless(AllDatas(cs)) {
      AllMessagesDecode(cs);
      SplitCount(AllDatas(cs));
      SnapshotCount(file, later);
    }
  }

  lemma SnapshotCount(file: seq<byte>, later: seq<byte>)
    ensures |MessagesRead(file + later, |file|)| == |Split(file)|
  {
    var whole := file + later;
    ReadEndIsLimit(whole, |file|);
    var end := ReadEnd(whole, |file|);
    var x := whole[|file|..end];
    assert whole[..end] == file + x;
    if x == [] {
      assert file + x == file;
    } else {
      assert whole[..|file|] == file;
      assert forall i | 0 <= i < |x| - 1 :: x[i] == whole[|file| + i];
      FrameLenUnique(x, |x|);
      SplitOpen(file, x);
      assert x[..FrameLen(x)] == x;
      WholeSlice(x);
    }
  }

  lemma SharedFrameDiffers(file: seq<byte>, x: seq<byte>)
    requires !Closed(file) && x != []
    requires forall i | 0 <= i < |x| - 1 :: x[i] != Hdlc.MESSAGE_TERMINATOR
    ensures DecodeAll(Split(file + x)) != DecodeAll(Split(file))
  {
    FrameLenUnique(x, |x|);
    SplitOpen(file, x);
    SplitClosesFrames(file);
    var n := |Split(file)| - 1;
    ExtendLast(Split(file), x);
    assert x[..FrameLen(x)] == x;
    OpenFrameFails(Split(file)[n]);
    assert DecodeAll(Split(file))[n] == DecodeFrame(Split(file)[n]);
    assert DecodeAll(Split(file + x))[n] == DecodeFrame(Split(file + x)[n]);
    DecodeErrorNamesFrame(Split(file + x)[n]);
  }

  lemma {:induction false} ExtendLast(frames: seq<seq<byte>>, x: seq<byte>)
    requires frames != []
    ensures Extend(frames, x)[|frames| - 1] == frames[|frames| - 1] + x
  {
    if |frames| == 1 {
    } else {
      ExtendLast(frames[1..], x);
    }
  }

  lemma DecodeErrorNamesFrame(frame: seq<byte>)
    ensures var r := DecodeFrame(frame);
            r.Err? && r.error.HdlcDecapsulationError? ==> r.error.frame == frame
  {
  }

  // ---- Termination of bounded reading ----

  /** The position after k more reads, or None once the reader has reported the end. */
  function PositionAfter(stream: seq<byte>, limit: nat, k: nat): (r: Option<nat>)
    ensures r.Some? ==> r.value <= |stream|
  {
    if k == 0 then Some(0)
    else
      var position :- PositionAfter(stream, limit, k - 1);
      if AtLimit(Some(limit), position) then None else Some(NextPosition(stream, position))
  }

  lemma {:induction false} PositionProgress(stream: seq<byte>, limit: nat, k: nat)
    ensures var r := PositionAfter(stream, limit, k);
            if r.None? then limit <= |stream|
            else r.value >= k || r.value >= limit || r.value == |stream|
  {
    if k == 0 {
    } else {
      PositionProgress(stream, limit, k - 1);
    }
  }

  /** Repeated reads come to an end exactly when the limit lies within the stream. */
  lemma BoundedReaderTerminatesIff(stream: seq<byte>, limit: nat)
    ensures (exists k :: PositionAfter(stream, limit, k).None?) <==> limit <= |stream|
  {
    if limit <= |stream| {
      PositionProgress(stream, limit, limit);
      assert PositionAfter(stream, limit, limit + 1).None?;
    }
    forall k | PositionAfter(stream, limit, k).None?
      ensures limit <= |stream|
    {
      PositionProgress(stream, limit, k);
    }
  }
}
