/** Cutting a byte stream at its flag bytes, and when that does not depend on how the bytes were grouped. */
module Frames {
  import opened Bytes
  import opened Seqs
  import opened Hdlc

  /** The length of the first frame of s: up to and including its first flag, or all of s. */
  function FrameLen(s: seq<byte>): (n: nat)
    ensures n <= |s| && (s != [] ==> n >= 1)
  {
    if s == [] then 0
    else if s[0] == MESSAGE_TERMINATOR then 1
    else 1 + FrameLen(s[1..])
  }

  /** No flag before the last byte of the frame, and a flag there unless the stream ends. */
  predicate IsFrameLen(s: seq<byte>, n: nat) {
    && n <= |s|
    && (s != [] ==> n >= 1)
    && (forall i | 0 <= i < n - 1 :: s[i] != MESSAGE_TERMINATOR)
    && (n < |s| ==> n >= 1 && s[n - 1] == MESSAGE_TERMINATOR)
  }

  lemma {:induction false} FrameLenSound(s: seq<byte>)
    ensures IsFrameLen(s, FrameLen(s))
  {
    if s == [] || s[0] == MESSAGE_TERMINATOR {
    } else {
      FrameLenSound(s[1..]);
    }
  }

  lemma FrameLenUnique(s: seq<byte>, n: nat)
    requires IsFrameLen(s, n)
    ensures n == FrameLen(s)
  {
    FrameLenSound(s);
    var m := FrameLen(s);
    if s != [] {
      var last := s[if n < m then n - 1 else m - 1];
      assert last == MESSAGE_TERMINATOR || n == m;
    }
  }

  /** split_inclusive at the flag byte; the empty stream has no frames. */
  function Split(s: seq<byte>): seq<seq<byte>>
    decreases |s|
  {
    if s == [] then [] else [s[..FrameLen(s)]] + Split(s[FrameLen(s)..])
  }

  function Concat(parts: seq<seq<byte>>): seq<byte> {
    if parts == [] then [] else parts[0] + Concat(parts[1..])
  }

  /** The frames of several byte strings, each cut on its own. */
  function SplitEach(parts: seq<seq<byte>>): seq<seq<byte>> {
    if parts == [] then [] else Split(parts[0]) + SplitEach(parts[1..])
  }

  /** Empty, or ending on a flag: nothing that follows can join its last frame. */
  predicate Closed(s: seq<byte>) {
    s == [] || s[|s| - 1] == MESSAGE_TERMINATOR
  }

  /** Every part is closed, except possibly the last one that holds any bytes. */
  predicate Harmless(parts: seq<seq<byte>>) {
    parts == [] || (Harmless(parts[1..]) && (Closed(parts[0]) || Concat(parts[1..]) == []))
  }

  lemma FrameLenFlagInside(a: seq<byte>, b: seq<byte>)
    requires a != [] && a[FrameLen(a) - 1] == MESSAGE_TERMINATOR
    ensures FrameLen(a + b) == FrameLen(a)
  {
    FrameLenSound(a);
    assert forall i | 0 <= i < |a| :: (a + b)[i] == a[i];
    FrameLenUnique(a + b, FrameLen(a));
  }

  lemma FrameLenNoFlag(a: seq<byte>, b: seq<byte>)
    requires MESSAGE_TERMINATOR !in a && b != []
    ensures FrameLen(a + b) == |a| + FrameLen(b)
  {
    FrameLenSound(b);
    var s, n := a + b, |a| + FrameLen(b);
    assert forall i | 0 <= i < |a| :: s[i] == a[i];
    assert forall i | |a| <= i < |s| :: s[i] == b[i - |a|];
    FrameLenUnique(s, n);
  }

  lemma FrameLenWithoutFlag(a: seq<byte>)
    requires MESSAGE_TERMINATOR !in a
    ensures FrameLen(a) == |a|
  {
    FrameLenUnique(a, |a|);
  }

  /** Inside a frame, what is left of it is the frame length of the rest. */
  lemma FrameLenSuffix(s: seq<byte>, k: nat)
    requires k < FrameLen(s)
    ensures FrameLen(s[k..]) == FrameLen(s) - k
  {
    FrameLenSound(s);
    FrameLenUnique(s[k..], FrameLen(s) - k);
  }

  lemma FrameLenOfFrame(s: seq<byte>)
    ensures FrameLen(s[..FrameLen(s)]) == FrameLen(s)
  {
    FrameLenSound(s);
    FrameLenUnique(s[..FrameLen(s)], FrameLen(s));
  }

  /** A nonempty run of bytes with no flag before its last byte. */
  predicate IsFrame(f: seq<byte>) {
    f != [] && FrameLen(f) == |f|
  }

  // ---- Cutting ----

  lemma SplitFirst(s: seq<byte>, head: seq<byte>, tail: seq<byte>)
    requires s == head + tail && head != [] && |head| == FrameLen(s)
    ensures Split(s) == [head] + Split(tail)
  {
    assert s[..|head|] == head && s[|head|..] == tail;
  }

  lemma Regroup(a: seq<byte>, n: nat, b: seq<byte>)
    requires n <= |a|
    ensures a == a[..n] + a[n..]
    ensures a + b == a[..n] + (a[n..] + b)
  {
  }

  lemma SplitFrame(f: seq<byte>)
    requires IsFrame(f)
    ensures Split(f) == [f]
  {
    assert f[..FrameLen(f)] == f && f[FrameLen(f)..] == [];
    assert Split([]) == [];
  }

  /** Cutting loses and reorders nothing. */
  lemma {:induction false} ConcatSplit(s: seq<byte>)
    ensures Concat(Split(s)) == s
    decreases |s|
  {
    if s == [] {
    } else {
      var head, tail := s[..FrameLen(s)], s[FrameLen(s)..];
      ConcatSplit(tail);
      Regroup(s, FrameLen(s), []);
      assert Split(s) == [head] + Split(tail) && ([head] + Split(tail))[1..] == Split(tail);
    }
  }

  lemma {:induction false} SplitGivesFrames(s: seq<byte>)
    ensures forall f | f in Split(s) :: IsFrame(f)
    decreases |s|
  {
    if s == [] {
    } else {
      SplitGivesFrames(s[FrameLen(s)..]);
      FrameLenOfFrame(s);
    }
  }

  lemma ClosedTail(a: seq<byte>, n: nat)
    requires n <= |a|
    ensures Closed(a) ==> Closed(a[n..])
    ensures n < |a| && Closed(a[n..]) ==> Closed(a)
  {
  }

  lemma FrameInside(s: seq<byte>)
    requires s != [] && (FrameLen(s) < |s| || Closed(s))
    ensures s[FrameLen(s) - 1] == MESSAGE_TERMINATOR
  {
    FrameLenSound(s);
  }

  /** Only the last frame can lack its flag, and does exactly when the stream does. */
  lemma {:induction false} SplitClosesFrames(s: seq<byte>)
    requires s != []
    ensures Split(s) != []
    ensures forall i | 0 <= i < |Split(s)| - 1 :: Closed(Split(s)[i])
    ensures Closed(s) <==> Closed(Split(s)[|Split(s)| - 1])
    decreases |s|
  {
    var n := FrameLen(s);
    if n == |s| {
      SplitFrame(s);
    } else {
      FrameInside(s);
      SplitClosesFrames(s[n..]);
      ClosedTail(s, n);
      SplitFirst(s, s[..n], s[n..]);
    }
  }

  /** Cuts a closed string and what follows it apart. */
  lemma {:induction false} SplitClosed(a: seq<byte>, b: seq<byte>)
    requires Closed(a)
    ensures Split(a + b) == Split(a) + Split(b)
    decreases |a|
  {
    if a == [] {
      assert a + b == b;
    } else {
      var n := FrameLen(a);
      var head, tail := a[..n], a[n..];
      FrameInside(a);
      FrameLenFlagInside(a, b);
      Regroup(a, n, b);
      SplitFirst(a, head, tail);
      SplitFirst(a + b, head, tail + b);
      ClosedTail(a, n);
      SplitClosed(tail, b);
      Associative([head], Split(tail), Split(b));
    }
  }

  /** The frames with x put on the end of the last one. */
  function Extend(frames: seq<seq<byte>>, x: seq<byte>): (r: seq<seq<byte>>)
    requires frames != []
    ensures |r| == |frames|
  {
    if |frames| == 1 then [frames[0] + x] else [frames[0]] + Extend(frames[1..], x)
  }

  lemma SplitNoFlag(a: seq<byte>, b: seq<byte>)
    requires a != [] && MESSAGE_TERMINATOR !in a && b != []
    ensures Split(a) == [a]
    ensures Split(a + b) == [a + b[..FrameLen(b)]] + Split(b[FrameLen(b)..])
  {
    var m := FrameLen(b);
    FrameLenNoFlag(a, b);
    FrameLenWithoutFlag(a);
    SplitFrame(a);
    assert a + b == (a + b[..m]) + b[m..];
    SplitFirst(a + b, a + b[..m], b[m..]);
  }

  /** An unclosed string and what follows it share one frame; all others are as before. */
  lemma {:induction false} SplitOpen(a: seq<byte>, b: seq<byte>)
    requires !Closed(a) && b != []
    ensures Split(a) != []
    ensures Split(a + b) == Extend(Split(a), b[..FrameLen(b)]) + Split(b[FrameLen(b)..])
    decreases |a|
  {
    var n := FrameLen(a);
    if n < |a| {
      var head, tail := a[..n], a[n..];
      FrameInside(a);
      FrameLenFlagInside(a, b);
      ClosedTail(a, n);
      SplitFirst(a, head, tail);
      Regroup(a, n, b);
      SplitFirst(a + b, head, tail + b);
      SplitOpen(tail, b);
    } else {
      OpenHasNoFlag(a);
      SplitNoFlag(a, b);
    }
  }

  lemma OpenHasNoFlag(a: seq<byte>)
    requires !Closed(a) && FrameLen(a) == |a|
    ensures MESSAGE_TERMINATOR !in a
  {
    FrameLenSound(a);
  }

  /** Grouping can only hide frames, and hides none exactly when the parts are harmless. */
  lemma {:induction false} SplitCount(parts: seq<seq<byte>>)
    ensures |Split(Concat(parts))| <= |SplitEach(parts)|
    ensures |Split(Concat(parts))| == |SplitEach(parts)| <==> Harmless(parts)
  {
    if parts == [] {
    } else {
      var tail := parts[1..];
      SplitCount(tail);
      if Closed(parts[0]) {
        SplitClosed(parts[0], Concat(tail));
      } else if Concat(tail) == [] {
        assert parts[0] + Concat(tail) == parts[0];
      } else {
        SplitOpen(parts[0], Concat(tail));
      }
    }
  }

  lemma {:induction false} HarmlessSplit(parts: seq<seq<byte>>)
    requires Harmless(parts)
    ensures Split(Concat(parts)) == SplitEach(parts)
  {
    if parts == [] {
    } else {
      var tail := parts[1..];
      HarmlessSplit(tail);
      if Closed(parts[0]) {
        SplitClosed(parts[0], Concat(tail));
      } else {
        assert parts[0] + Concat(tail) == parts[0];
        assert Split(Concat(tail)) == [];
      }
    }
  }

  /** Cutting after joining equals cutting each part exactly when the parts are harmless. */
  lemma GroupingIffHarmless(parts: seq<seq<byte>>)
    ensures Split(Concat(parts)) == SplitEach(parts) <==> Harmless(parts)
  {
    SplitCount(parts);
    if Harmless(parts) {
      HarmlessSplit(parts);
    }
  }

  lemma {:induction false} ConcatAppend(a: seq<seq<byte>>, b: seq<seq<byte>>)
    ensures Concat(a + b) == Concat(a) + Concat(b)
  {
    if a == [] {
      assert a + b == b;
    } else {
      assert (a + b)[1..] == a[1..] + b;
      ConcatAppend(a[1..], b);
    }
  }

  lemma {:induction false} SplitEachAppend(a: seq<seq<byte>>, b: seq<seq<byte>>)
    ensures SplitEach(a + b) == SplitEach(a) + SplitEach(b)
  {
    if a == [] {
      assert a + b == b;
    } else {
      assert (a + b)[1..] == a[1..] + b;
      SplitEachAppend(a[1..], b);
    }
  }

  /** Closed frames, joined, are cut back into themselves. */
  lemma {:induction false} SplitFrames(frames: seq<seq<byte>>)
    requires forall f | f in frames :: IsFrame(f) && Closed(f)
    ensures Split(Concat(frames)) == frames
  {
    if frames == [] {
    } else {
      SplitFrames(frames[1..]);
      SplitFrame(frames[0]);
      SplitClosed(frames[0], Concat(frames[1..]));
    }
  }

  lemma {:induction false} ConcatClosed(parts: seq<seq<byte>>)
    requires forall p | p in parts :: Closed(p)
    ensures Closed(Concat(parts)) && Harmless(parts)
  {
    if parts == [] {
    } else {
      assert forall p | p in parts[1..] :: p in parts;
      ConcatClosed(parts[1..]);
      assert Closed(parts[0]);
    }
  }
}
