/**
 * Stale-frame-tolerant acquisition: what the three raw buffers hold after one cycle, and
 * after a run of cycles, given what the multi-source reader delivered.
 */
module Acquisition {
  import opened Wrappers
  import opened SensorTypes

  /**
   * A combined frame from `AcquireLatestFrame`: each sub-frame reference may fail to
   * acquire on its own; a present colour sub-frame is already converted to RGBA bytes.
   */
  datatype MultiSourceFrame = MultiSourceFrame(bodyIndex: Option<seq<byte>>, color: Option<seq<byte>>, depth: Option<seq<ushort>>)

  /** Contents of the three raw buffers. */
  datatype Buffers = Buffers(bodyIndex: seq<byte>, color: seq<byte>, depth: seq<ushort>)

  /** Each present sub-frame has exactly the size of the buffer it is copied into. */
  predicate Fits(frame: MultiSourceFrame, buffers: Buffers) {
    (frame.bodyIndex.Some? ==> |frame.bodyIndex.value| == |buffers.bodyIndex|) &&
    (frame.color.Some? ==> |frame.color.value| == |buffers.color|) &&
    (frame.depth.Some? ==> |frame.depth.value| == |buffers.depth|)
  }

  /** A buffer after its sub-frame was or was not acquired. */
  function CopyIfPresent<T>(buffer: seq<T>, subFrame: Option<seq<T>>): seq<T> {
    match subFrame
    case Some(data) => data
    case None => buffer
  }

  /** The buffers after one cycle's acquisition step, with the reader open or already released. */
  function Acquire(buffers: Buffers, readerOpen: bool, latest: Option<MultiSourceFrame>): (next: Buffers)
    ensures next.bodyIndex == buffers.bodyIndex || (latest.Some? && latest.value.bodyIndex == Some(next.bodyIndex))
    ensures next.color == buffers.color || (latest.Some? && latest.value.color == Some(next.color))
    ensures next.depth == buffers.depth || (latest.Some? && latest.value.depth == Some(next.depth))
  {
    if readerOpen && latest.Some? then
      var frame := latest.value;
      Buffers(CopyIfPresent(buffers.bodyIndex, frame.bodyIndex),
              CopyIfPresent(buffers.color, frame.color),
              CopyIfPresent(buffers.depth, frame.depth))
    else
      buffers
  }

  /** No reader, or no combined frame ready: all three buffers keep their contents. */
  lemma NoNewFrameKeepsBuffers(buffers: Buffers, readerOpen: bool, latest: Option<MultiSourceFrame>)
    requires !readerOpen || latest.None?
    ensures Acquire(buffers, readerOpen, latest) == buffers
  {
  }

  /**
   * Per-stream independence: with a combined frame in hand, each buffer is replaced by its
   * own sub-frame exactly when that sub-frame is present, whatever the other two streams did.
   */
  lemma SubFramesAreIndependent(buffers: Buffers, frame: MultiSourceFrame)
    ensures var next := Acquire(buffers, true, Some(frame));
            next.bodyIndex == (if frame.bodyIndex.Some? then frame.bodyIndex.value else buffers.bodyIndex) &&
            next.color == (if frame.color.Some? then frame.color.value else buffers.color) &&
            next.depth == (if frame.depth.Some? then frame.depth.value else buffers.depth)
  {
  }

  /** Buffers are never resized: a cycle keeps all three lengths. */
  lemma AcquireKeepsSizes(buffers: Buffers, readerOpen: bool, latest: Option<MultiSourceFrame>)
    requires latest.Some? ==> Fits(latest.value, buffers)
    ensures var next := Acquire(buffers, readerOpen, latest);
            |next.bodyIndex| == |buffers.bodyIndex| && |next.color| == |buffers.color| && |next.depth| == |buffers.depth|
  {
  }

  /** The buffers after a run of cycles with the reader open, `latests[k]` being what cycle `k` acquired. */
  function Cycles(buffers: Buffers, latests: seq<Option<MultiSourceFrame>>): Buffers {
    if latests == [] then buffers
    else Acquire(Cycles(buffers, latests[..|latests| - 1]), true, latests[|latests| - 1])
  }

  /** The most recent present sub-frame of a run, if any. */
  function LatestPresent<T>(subFrames: seq<Option<seq<T>>>): Option<seq<T>> {
    if subFrames == [] then None
    else if subFrames[|subFrames| - 1].Some? then subFrames[|subFrames| - 1]
    else LatestPresent(subFrames[..|subFrames| - 1])
  }

  /** What a cycle delivered for each stream: nothing when no combined frame was ready. */
  function BodyIndexOf(latest: Option<MultiSourceFrame>): Option<seq<byte>> {
    if latest.Some? then latest.value.bodyIndex else None
  }

  function ColorOf(latest: Option<MultiSourceFrame>): Option<seq<byte>> {
    if latest.Some? then latest.value.color else None
  }

  function DepthOf(latest: Option<MultiSourceFrame>): Option<seq<ushort>> {
    if latest.Some? then latest.value.depth else None
  }

  /**
   * Streams age independently: after any run of cycles, each buffer holds the most recent
   * sub-frame of its own stream, or its contents from before the run if none arrived.
   */
  lemma {:induction false} CyclesKeepLatestPerStream(buffers: Buffers, latests: seq<Option<MultiSourceFrame>>)
    ensures var next := Cycles(buffers, latests);
            next.bodyIndex == CopyIfPresent(buffers.bodyIndex, LatestPresent(seq(|latests|, k requires 0 <= k < |latests| => BodyIndexOf(latests[k])))) &&
            next.color == CopyIfPresent(buffers.color, LatestPresent(seq(|latests|, k requires 0 <= k < |latests| => ColorOf(latests[k])))) &&
            next.depth == CopyIfPresent(buffers.depth, LatestPresent(seq(|latests|, k requires 0 <= k < |latests| => DepthOf(latests[k]))))
  {
    if latests != [] {
      var n := |latests| - 1;
      var prefix := latests[..n];
      CyclesKeepLatestPerStream(buffers, prefix);
      var bodies := seq(|latests|, k requires 0 <= k < |latests| => BodyIndexOf(latests[k]));
      var colors := seq(|latests|, k requires 0 <= k < |latests| => ColorOf(latests[k]));
      var depths := seq(|latests|, k requires 0 <= k < |latests| => DepthOf(latests[k]));
      assert bodies[..n] == seq(|prefix|, k requires 0 <= k < |prefix| => BodyIndexOf(prefix[k]));
      assert colors[..n] == seq(|prefix|, k requires 0 <= k < |prefix| => ColorOf(prefix[k]));
      assert depths[..n] == seq(|prefix|, k requires 0 <= k < |prefix| => DepthOf(prefix[k]));
    }
  }
}
