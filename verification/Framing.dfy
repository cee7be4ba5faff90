/** Reading TTLV frames off a byte stream: ee/kmip's ReadFrame and the connection's read loop. */
module Framing {
  import opened Bytes
  import opened Ttlv

  const DEFAULT_FRAME_CAP := 0x10_0000

  datatype ReadError = Eof | UnexpectedEof | OverCap

  datatype Read = Got(frame: seq<Byte>) | Failed(error: ReadError)

  function EffectiveCap(maxFrameSize: int): (cap: nat)
    ensures cap > 0 && cap == (if maxFrameSize > 0 then maxFrameSize else 1024 * 1024)
  {
    if maxFrameSize <= 0 then DEFAULT_FRAME_CAP else maxFrameSize
  }

  /** The bytes are one frame by their own Length field, and within the cap. */
  predicate IsFrame(f: seq<Byte>, cap: nat) {
    |f| >= 8 && |f| == ItemSize(HeaderLength(f)) <= cap
  }

  // ---------------------------------------------------------------- the stream

  /** An io.Reader over bytes that have yet to arrive. */
  class Stream {
    var rest: seq<Byte>

    constructor (bytes: seq<Byte>)
      ensures rest == bytes
    {
      rest := bytes;
    }

    /** io.ReadFull: end of input only when nothing at all was read. */
    method ReadFull(n: nat) returns (r: Read)
      modifies this
      ensures n <= |old(rest)| ==> r == Got(old(rest)[..n]) && rest == old(rest)[n..]
      ensures n > |old(rest)| ==> rest == [] && r == Failed(if old(rest) == [] then Eof else UnexpectedEof)
    {
      if n <= |rest| {
        r := Got(rest[..n]);
        rest := rest[n..];
      } else {
        r := Failed(if rest == [] then Eof else UnexpectedEof);
        rest := [];
      }
    }
  }

  /** What reading one frame from the front of the input yields, and what it leaves behind. */
  function NextFrame(input: seq<Byte>, cap: nat): (r: (Read, seq<Byte>))
    ensures r.0.Got? ==> IsFrame(r.0.frame, cap) && input == r.0.frame + r.1
  {
    if |input| < 8 then (Failed(if input == [] then Eof else UnexpectedEof), [])
    else
      var total := ItemSize(HeaderLength(input));
      if total > cap then (Failed(OverCap), input[8..])
      else if total <= |input| then
        assert input[..total][4..8] == input[4..8];
        (Got(input[..total]), input[total..])
      else (Failed(if |input| == 8 then Eof else UnexpectedEof), [])
  }

  method ReadFrame(s: Stream, maxFrameSize: int) returns (r: Read)
    modifies s
    ensures (r, s.rest) == NextFrame(old(s.rest), EffectiveCap(maxFrameSize))
  {
    var cap := EffectiveCap(maxFrameSize);
    var header := s.ReadFull(8);
    if header.Failed? { return header; }
    ghost var input := old(s.rest);
    assert header.frame[4..8] == input[4..8];
    var length := HeaderLength(header.frame);
    var total := 8 + length + Padding(length);
    if total > cap { return Failed(OverCap); }
    var body := s.ReadFull(total - 8);
    if body.Failed? { return body; }
    assert header.frame + body.frame == input[..total];
    assert input[8..][total - 8..] == input[total..];
    return Got(header.frame + body.frame);
  }

  // ---------------------------------------------------------------- the read loop

  datatype Session = Session(frames: seq<seq<Byte>>, error: ReadError, rest: seq<Byte>)

  /** Frames until the first error, which ends the connection. */
  function ReadUntilError(input: seq<Byte>, cap: nat): (s: Session)
    decreases |input|
  {
    var (r, rest) := NextFrame(input, cap);
    match r
    case Failed(e) => Session([], e, rest)
    case Got(f) =>
      var more := ReadUntilError(rest, cap);
      Session([f] + more.frames, more.error, more.rest)
  }

  /** The connection's loop, which stops at the first read error. */
  method ReadLoop(s: Stream, maxFrameSize: int) returns (frames: seq<seq<Byte>>, error: ReadError)
    modifies s
    ensures Session(frames, error, s.rest) == ReadUntilError(old(s.rest), EffectiveCap(maxFrameSize))
  {
    var cap := EffectiveCap(maxFrameSize);
    frames := [];
    while true
      invariant var all, more := ReadUntilError(old(s.rest), cap), ReadUntilError(s.rest, cap);
        all == Session(frames + more.frames, more.error, more.rest)
      decreases |s.rest|
    {
      var r := ReadFrame(s, maxFrameSize);
      if r.Failed? { return frames, r.error; }
      frames := frames + [r.frame];
    }
  }

  // ---------------------------------------------------------------- framing is self-delimiting

  predicate AllFrames(fs: seq<seq<Byte>>, cap: nat) {
    forall i :: 0 <= i < |fs| ==> IsFrame(fs[i], cap)
  }

  /** A concatenation of frames is read back as exactly those frames, then end of input. */
  lemma {:induction false} FramesAreSelfDelimiting(fs: seq<seq<Byte>>, cap: nat)
    requires AllFrames(fs, cap)
    ensures ReadUntilError(Concat(fs), cap) == Session(fs, Eof, [])
  {
    if fs != [] {
      var input := Concat(fs);
      var f := fs[0];
      assert IsFrame(f, cap);
      assert input[4..8] == f[4..8];
      assert input[..|f|] == f && input[|f|..] == Concat(fs[1..]);
      FramesAreSelfDelimiting(fs[1..], cap);
    }
  }

  /** The input from where the loop's last, failing read began. */
  function Unframed(input: seq<Byte>, cap: nat): (tail: seq<Byte>)
    decreases |input|
  {
    var (r, rest) := NextFrame(input, cap);
    if r.Got? then Unframed(rest, cap) else input
  }

  /** Every input, conversely, is the frames returned followed by a tail that starts no frame. */
  lemma {:induction false} ReadLoopLosesNothing(input: seq<Byte>, cap: nat)
    ensures var s := ReadUntilError(input, cap);
      && AllFrames(s.frames, cap)
      && input == Concat(s.frames) + Unframed(input, cap)
      && NextFrame(Unframed(input, cap), cap) == (Failed(s.error), s.rest)
    decreases |input|
  {
    var (r, rest) := NextFrame(input, cap);
    if r.Got? {
      ReadLoopLosesNothing(rest, cap);
      FirstFrame(r.frame, ReadUntilError(rest, cap).frames, Unframed(rest, cap), cap);
    }
  }

  lemma FirstFrame(f: seq<Byte>, fs: seq<seq<Byte>>, tail: seq<Byte>, cap: nat)
    requires IsFrame(f, cap) && AllFrames(fs, cap)
    ensures AllFrames([f] + fs, cap)
    ensures f + (Concat(fs) + tail) == Concat([f] + fs) + tail
  {
    assert ([f] + fs)[1..] == fs;
  }

  /**
   The loop reports a clean end of input not only when nothing is left but also when the stream
   stops right after a header that announces more: the second ReadFull then reads no byte at all.
   */
  lemma CleanEndMeaning(input: seq<Byte>, cap: nat)
    ensures ReadUntilError(input, cap).error == Eof <==>
            var tail := Unframed(input, cap);
            tail == [] || (|tail| == 8 && 8 < ItemSize(HeaderLength(tail)) <= cap)
  {
    ReadLoopLosesNothing(input, cap);
  }

  /** A frame over the cap is left on the stream but for its header; any other error comes at the end of the stream. */
  lemma WhatIsLeft(input: seq<Byte>, cap: nat)
    ensures var s, tail := ReadUntilError(input, cap), Unframed(input, cap);
      if s.error == OverCap then |tail| >= 8 && ItemSize(HeaderLength(tail)) > cap && s.rest == tail[8..]
      else s.rest == [] && (|tail| < 8 || |tail| < ItemSize(HeaderLength(tail)) <= cap)
  {
    ReadLoopLosesNothing(input, cap);
  }

  function EncodeEach(ts: seq<Node>): (fs: seq<seq<Byte>>)
    ensures |fs| == |ts|
    ensures forall i :: 0 <= i < |ts| ==> fs[i] == Encode(ts[i])
  {
    seq(|ts|, i requires 0 <= i < |ts| => Encode(ts[i]))
  }

  lemma EncodingIsFrame(t: Node, cap: nat)
    requires WellFormed(t) && Size(t) <= cap
    ensures IsFrame(Encode(t), cap)
  {
    EncodeHeader(t);
  }

  /** In particular a pipelined stream of encoded trees is read back tree by tree. */
  lemma TreesAreSelfDelimiting(ts: seq<Node>, cap: nat)
    requires forall i :: 0 <= i < |ts| ==> WellFormed(ts[i]) && Size(ts[i]) <= cap
    ensures ReadUntilError(Concat(EncodeEach(ts)), cap) == Session(EncodeEach(ts), Eof, [])
  {
    forall i | 0 <= i < |ts| ensures IsFrame(EncodeEach(ts)[i], cap) { EncodingIsFrame(ts[i], cap); }
    FramesAreSelfDelimiting(EncodeEach(ts), cap);
  }
}
