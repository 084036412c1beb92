/** What compaction would need: which cursor keeps the reader's input, and what a
    crash between the rename and the checkpoint reset leaves. How the sections
    interleave is in QueueAsWritten. */
module Compaction {
  import opened WalFrame
  import opened QueueSteps
  import opened QueueRefinement
  import R = RecordLog

  // ---- what the intended step keeps -----------------------------------------

  lemma CutFile(q: Queue, g: R.Log)
    requires Refines(q, g) && CanCompact(q)
    ensures q.ackPos <= q.cursor <= q.writePos == |q.wal|
    ensures CompactFields(q).wal == q.wal[q.ackPos..]
  {
    hide R.PointsIn, FrameFrom, FrameIn, Ledger, CleanLines, LoadCkpt;
    TailAtOffset(g, g.base);
    TailAtOffset(g, g.cursor);
    OffsetsIncrease(g, g.ack, g.cursor);
  }

  /** Both branches leave exactly the unacknowledged bytes, and the only cursor
      from which the reader's input is what it was is the old one moved back by
      the number of bytes cut. */
  lemma RebasingIsWhatKeepsThePendingInput(q: Queue, g: R.Log, c: nat)
    requires Refines(q, g) && CanCompact(q) && c <= |CompactFields(q).wal|
    ensures q.ackPos <= q.cursor <= |q.wal|
    ensures CompactFields(q).wal == q.wal[q.ackPos..]
    ensures CompactFields(q).wal[c..] == q.wal[q.cursor..] <==> c == q.cursor - q.ackPos
    ensures DoCompact(q).cursor == q.cursor - q.ackPos
  {
    hide Refines;
    CutFile(q, g);
    hide CompactFields;
    var cut := q.wal[q.ackPos..];
    assert cut[q.cursor - q.ackPos..] == q.wal[q.cursor..];
    assert |cut[c..]| == |cut| - c;
  }

  // ---- a crash between the rename and the checkpoint reset ------------------

  /** The shortened file with the old checkpoint: after a restart the reader and
      sentPos stand past the end of the file, so none of the unacknowledged
      lines it holds is read, as long as nothing makes the file longer. */
  lemma CrashBeforeCheckpointReset(q: Queue, g: R.Log)
    requires Refines(q, g) && CanCompact(q) && LoadCkpt(q.ckptFile) >= q.ackPos
    ensures var r := DoRestart(DoCrash(CompactFields(q).(ckptFile := q.ckptFile)));
            && q.ackPos <= |q.wal| && r.wal == q.wal[q.ackPos..] && r.up
            && r.cursor == r.sentPos >= q.ackPos > |r.wal|
            && DoRead(r) == r
  {
    hide Refines, LoadCkpt;
    CutFile(q, g);
  }
}
