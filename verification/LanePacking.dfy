/**
 What an enqueue puts on the wire and what it leaves on the lane
 (internal/transport/batcher.go:109-144, fragmenter.go:43-67), told without its branches:
 an express message travels alone and at once, any other message waits for company, and
 an oversized one is cut into as few FRAGMENTs as will do.
 */
module LanePacking {
  import opened Buffer
  import opened TransportMessages
  import opened SequenceNumbers
  import opened Lanes

  /** The message goes out in one FRAME. */
  predicate Small(c: Settings, msg: bytes) {
    |msg| <= c.batchSize - FragmentOverhead
  }

  /** The message can be added to the open FRAME, or starts one. */
  predicate Joins(c: Settings, was: LaneState, msg: bytes) {
    was.batch == [] || |was.batch| + |msg| <= c.batchSize
  }

  /** What the lane still owes the wire: the open FRAME if it holds any message. */
  function Backlog(was: LaneState): seq<bytes> {
    if |was.batch| > was.bodyStart then [was.batch] else []
  }

  /** The number of the batch after the backlog. */
  function NumberAfterBacklog(c: Settings, was: LaneState): uint64 {
    Nth(was.seqNum, c.snMask, |Backlog(was)|)
  }

  /** The lane holds nothing back; the message has a FRAME of its own, after the backlog. */
  predicate GoneAlone(c: Settings, k: LaneKey, was: LaneState, msg: bytes, now: LaneState, emitted: seq<bytes>) {
    && now.batch == []
    && emitted == Backlog(was)
                  + if msg == [] then [] else [FrameStart(c, k, NumberAfterBacklog(c, was)) + msg]
  }

  /** Nothing is emitted; the open FRAME, or a new one, has grown by the message. */
  predicate Joined(c: Settings, k: LaneKey, was: LaneState, msg: bytes, now: LaneState, emitted: seq<bytes>) {
    && emitted == [] && now.seqNum == was.seqNum
    && now.batch == (if was.batch == [] then FrameStart(c, k, was.seqNum) else was.batch) + msg
  }

  /** The backlog is emitted and the message opens the next FRAME. */
  predicate Turned(c: Settings, k: LaneKey, was: LaneState, msg: bytes, now: LaneState, emitted: seq<bytes>) {
    && emitted == [was.batch]
    && now.seqNum == Next(was.seqNum, c.snMask) && now.batch == FrameStart(c, k, now.seqNum) + msg
  }

  // ----- the pieces of an oversized message -----

  function PieceSize(c: Settings): (n: nat)
    requires c.batchSize > FragmentOverhead
    ensures n > 0
  {
    c.batchSize - FragmentOverhead
  }

  /** The i-th of the pieces that a message falls into: all full but the last, which
      alone is not followed by more. */
  predicate IsPiece(c: Settings, k: LaneKey, seqNum: uint64, msg: bytes, i: nat, batch: bytes)
    requires c.batchSize > FragmentOverhead
  {
    var from, to := i * PieceSize(c), (i + 1) * PieceSize(c);
    && from < |msg|
    && batch == FragmentBatch(c, k, Nth(seqNum, c.snMask, i), to < |msg|, msg[from..if to < |msg| then to else |msg|])
  }

  predicate Pieces(c: Settings, k: LaneKey, seqNum: uint64, msg: bytes, batches: seq<bytes>)
    requires c.batchSize > FragmentOverhead
  {
    && |batches| * PieceSize(c) >= |msg|
    && forall i :: 0 <= i < |batches| ==> IsPiece(c, k, seqNum, msg, i, batches[i])
  }

  /** The backlog, then the message in pieces; the lane holds nothing back. */
  predicate GoneInPieces(c: Settings, k: LaneKey, was: LaneState, msg: bytes, now: LaneState, emitted: seq<bytes>)
    requires c.batchSize > FragmentOverhead
  {
    && now.batch == [] && Backlog(was) <= emitted
    && Pieces(c, k, NumberAfterBacklog(c, was), msg, emitted[|Backlog(was)|..])
  }

  lemma PieceOfRest(c: Settings, k: LaneKey, seqNum: uint64, msg: bytes, i: nat, batch: bytes)
    requires c.batchSize > FragmentOverhead && |msg| > PieceSize(c)
    requires IsPiece(c, k, Next(seqNum, c.snMask), msg[PieceSize(c)..], i, batch)
    ensures IsPiece(c, k, seqNum, msg, i + 1, batch)
  {
    hide FragmentBatch, Next;
    var n := PieceSize(c);
    var from, to := i * n, (i + 1) * n;
    assert from + n == (i + 1) * n && to + n == (i + 2) * n;
    NthAfter(seqNum, c.snMask, 1, i);
    assert Nth(seqNum, c.snMask, 1) == Next(seqNum, c.snMask);
    var end := if to < |msg| - n then to else |msg| - n;
    assert msg[n..][from..end] == msg[from + n..end + n];
  }

  lemma {:induction false} FragmentsArePieces(c: Settings, k: LaneKey, seqNum: uint64, msg: bytes)
    requires c.batchSize > FragmentOverhead
    ensures Pieces(c, k, seqNum, msg, Fragmented(c, k, seqNum, msg).0)
    decreases |msg|
  {
    hide FragmentBatch, Next, IsPiece;
    if |msg| > 0 {
      var n := Chunk(c, msg);
      var all, rest := Fragmented(c, k, seqNum, msg).0, Fragmented(c, k, Next(seqNum, c.snMask), msg[n..]).0;
      FirstPiece(c, k, seqNum, msg);
      FragmentsArePieces(c, k, Next(seqNum, c.snMask), msg[n..]);
      assert |all| * PieceSize(c) == |rest| * PieceSize(c) + PieceSize(c);
      forall i | 0 <= i < |all|
        ensures IsPiece(c, k, seqNum, msg, i, all[i])
      {
        if i > 0 {
          assert all[i] == rest[i - 1];
          RestHasMore(c, k, Next(seqNum, c.snMask), msg, n, i - 1, rest[i - 1]);
          PieceOfRest(c, k, seqNum, msg, i - 1, rest[i - 1]);
        }
      }
    }
  }

  lemma FirstPiece(c: Settings, k: LaneKey, seqNum: uint64, msg: bytes)
    requires c.batchSize > FragmentOverhead && |msg| > 0
    ensures var n := Chunk(c, msg);
            IsPiece(c, k, seqNum, msg, 0, FragmentBatch(c, k, seqNum, n < |msg|, msg[..n]))
  {
    hide FragmentBatch;
  }

  lemma RestHasMore(c: Settings, k: LaneKey, seqNum: uint64, msg: bytes, n: nat, i: nat, batch: bytes)
    requires c.batchSize > FragmentOverhead && |msg| > 0 && n == Chunk(c, msg)
    requires IsPiece(c, k, seqNum, msg[n..], i, batch)
    ensures |msg| > PieceSize(c) && n == PieceSize(c)
  {
    hide FragmentBatch;
    assert i * PieceSize(c) >= 0;
  }

  // ----- what an enqueue does -----

  /** For every well-formed lane and every message: an express message leaves nothing
      behind and, if small, goes out alone after the backlog; any other small message
      joins the open FRAME if it fits and otherwise turns the page; an oversized message
      goes out in pieces, or not at all if the batch size leaves no room for pieces. */
  predicate Packed(c: Settings, k: LaneKey, was: LaneState, msg: bytes, express: bool, now: LaneState,
                   emitted: seq<bytes>, ok: bool) {
    && (ok <==> Small(c, msg) || c.batchSize > FragmentOverhead)
    && (express ==> now.batch == [])
    && (Small(c, msg) && express ==> GoneAlone(c, k, was, msg, now, emitted))
    && (Small(c, msg) && !express && Joins(c, was, msg) ==> Joined(c, k, was, msg, now, emitted))
    && (Small(c, msg) && !express && !Joins(c, was, msg) ==> Turned(c, k, was, msg, now, emitted))
    && (!Small(c, msg) && ok ==> GoneInPieces(c, k, was, msg, now, emitted))
    && (!ok ==> now.batch == [] && emitted == Backlog(was))
  }

  lemma FlushIsBacklog(c: Settings, k: LaneKey, was: LaneState)
    requires WellFormed(c, k, was)
    ensures Flushed(c, was).emitted == Backlog(was) && Flushed(c, was).lane == Idle(NumberAfterBacklog(c, was))
  {
    hide FrameStart, Next;
    assert Nth(was.seqNum, c.snMask, 1) == Next(was.seqNum, c.snMask);
  }

  lemma EnqueuePacks(c: Settings, k: LaneKey, was: LaneState, msg: bytes, express: bool)
    requires WellFormed(c, k, was)
    ensures var step := Enqueued(c, k, was, msg, express);
            Packed(c, k, was, msg, express, step.lane, step.emitted, step.ok)
  {
    hide FrameStart, Next, Nth, Fragmented, Pieces;
    FlushIsBacklog(c, k, was);
    var number := NumberAfterBacklog(c, was);
    if !Small(c, msg) {
      if c.batchSize > FragmentOverhead {
        FragmentsArePieces(c, k, number, msg);
        var batches := Fragmented(c, k, number, msg).0;
        assert (Backlog(was) + batches)[|Backlog(was)|..] == batches;
      }
    } else if !express && !Joins(c, was, msg) {
      HoldsAMessage(c, k, was, msg);
    }
  }

  /** A FRAME that has no room for a small message is not a bare header. */
  lemma HoldsAMessage(c: Settings, k: LaneKey, was: LaneState, msg: bytes)
    requires WellFormed(c, k, was) && Small(c, msg) && !Joins(c, was, msg)
    ensures Backlog(was) == [was.batch] && NumberAfterBacklog(c, was) == Next(was.seqNum, c.snMask)
  {
    HeaderBudget(c, k, was.seqNum);
    assert Nth(was.seqNum, c.snMask, 1) == Next(was.seqNum, c.snMask);
  }
}
