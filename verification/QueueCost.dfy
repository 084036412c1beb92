/** How large the log grows and what compaction costs. */
module QueueCost {
  import opened WalFrame
  import opened WalCodec
  import opened QueueSteps
  import opened QueueRefinement
  import R = RecordLog

  /** Bytes appended over a run. */
  function BytesWritten(q: Queue, run: seq<Action>): nat
    decreases |run|
  {
    if run == [] then 0
    else
      (if run[0].Write? && Accepts(q, run[0].p) then |Encode(run[0].p).value| + 1 else 0)
      + BytesWritten(Step(q, run[0]), run[1..])
  }

  /** Bytes compaction copies over a run: the tail, or nothing when the file is
      fully acknowledged and simply truncated. */
  function BytesCopied(q: Queue, run: seq<Action>): nat
    decreases |run|
  {
    if run == [] then 0
    else
      (if run[0].Compact? && CanCompact(q) && q.ackPos < q.writePos then q.writePos - q.ackPos else 0)
      + BytesCopied(Step(q, run[0]), run[1..])
  }

  /** One step: the file grows by what is written, and compaction copies at most
      a quarter of what it cuts (the 80% rule). */
  lemma StepCost(q: Queue, g: R.Log, a: Action)
    requires Refines(q, g)
    ensures var copied := if a.Compact? && CanCompact(q) && q.ackPos < q.writePos then q.writePos - q.ackPos else 0;
            var written := if a.Write? && Accepts(q, a.p) then |Encode(a.p).value| + 1 else 0;
            4 * copied + |Step(q, a).wal| <= |q.wal| + written
  {
    hide Encode, Decode, ScanLine, R.PointsIn, FrameFrom, FrameIn, Ledger, CleanLines, LoadCkpt, CkptText;
    TailAtOffset(g, g.base);
    OffsetsIncrease(g, g.ack, |g.lines|);
  }

  /** Over any run, four times the bytes copied is at most what was on disk at
      the start plus what was written since: amortised, each byte written pays
      for copying a quarter of a byte. */
  lemma {:induction false} CopyingIsAmortised(q: Queue, g: R.Log, run: seq<Action>)
    requires Refines(q, g)
    ensures 4 * BytesCopied(q, run) + |Exec(q, run).wal| <= |q.wal| + BytesWritten(q, run)
    decreases |run|
  {
    hide Refines, Step, R.Step, Accepts, Encode;
    if run != [] {
      StepCost(q, g, run[0]);
      RefinesInv(q, g);
      RefineStep(q, g, run[0]);
      CopyingIsAmortised(Step(q, run[0]), R.Step(g, run[0]), run[1..]);
    }
  }

  /** The two counts are what happens to the file: a write adds to it what it writes, and
      a compaction that changes it has copied what it then holds; over a run they add
      up. */
  lemma CountsAreReal(q: Queue, g: R.Log, a: Action)
    requires Refines(q, g)
    ensures BytesWritten(q, [a]) == (if a.Write? then |Step(q, a).wal| - |q.wal| else 0)
    ensures BytesCopied(q, [a]) == (if a.Compact? && Step(q, a).wal != q.wal then |Step(q, a).wal| else 0)
    ensures BytesWritten(q, []) == 0 == BytesCopied(q, [])
  {
    assert [a][1..] == [];
    if a.Compact? && CanCompact(q) {
      TailAtOffset(g, g.base);
      OffsetsIncrease(g, g.ack, |g.lines|);
    }
    hide Encode, Decode, ScanLine, R.PointsIn, FrameFrom, FrameIn, Ledger, CleanLines, LoadCkpt, CkptText;
  }

  lemma {:induction false} CountsAddUp(q: Queue, a: seq<Action>, b: seq<Action>)
    ensures BytesWritten(q, a + b) == BytesWritten(q, a) + BytesWritten(Exec(q, a), b)
    ensures BytesCopied(q, a + b) == BytesCopied(q, a) + BytesCopied(Exec(q, a), b)
    decreases |a|
  {
    hide Step, Accepts, Encode, CanCompact;
    if a == [] {
      assert a + b == b;
    } else {
      assert (a + b)[1..] == a[1..] + b;
      CountsAddUp(Step(q, a[0]), a[1..], b);
    }
  }

  /** The intended compaction cuts the log iff at least four fifths of it, and not
      nothing, are acknowledged. */
  lemma CompactsIff(q: Queue, g: R.Log)
    requires Refines(q, g) && q.up && q.phase.Idle?
    ensures Step(q, Compact).wal != q.wal <==> q.ackPos > 0 && 5 * q.ackPos >= 4 * q.writePos
  {
    hide *;
    FileIsWhole(q, g);
    CompactedFile(q);
    FourFifths(q.writePos, q.ackPos);
  }

  lemma FourFifths(writePos: nat, ackPos: nat)
    requires ackPos <= writePos
    ensures WorthCompacting(writePos, ackPos) <==> ackPos > 0 && 5 * ackPos >= 4 * writePos
  {
  }

  lemma CompactedFile(q: Queue)
    requires q.up && q.phase.Idle? && q.ackPos <= q.writePos == |q.wal|
    ensures Step(q, Compact).wal == if WorthCompacting(q.writePos, q.ackPos) then q.wal[q.ackPos..] else q.wal
    ensures q.ackPos > 0 ==> q.wal[q.ackPos..] != q.wal
    ensures WorthCompacting(q.writePos, q.ackPos) ==> q.ackPos > 0
  {
    hide CkptText;
    assert |q.wal[q.ackPos..]| == |q.wal| - q.ackPos;
    assert Step(q, Compact) == DoCompact(q);
  }

  lemma FileIsWhole(q: Queue, g: R.Log)
    requires Refines(q, g) && q.up
    ensures q.ackPos <= q.writePos == |q.wal|
  {
    OffsetsIncrease(g, g.ack, |g.lines|);
    TailAtOffset(g, g.base);
    hide Encode, Decode, ScanLine, R.PointsIn, FrameFrom, FrameIn, Ledger, CleanLines, LoadCkpt, CkptText;
  }

  /** All lines written in the run are shorter than `bound` with their newline. */
  predicate LinesWithin(run: seq<Action>, bound: nat) {
    forall i :: 0 <= i < |run| && run[i].Write? && Encode(run[i].p).Some? ==> |Encode(run[i].p).value| + 1 <= bound
  }

  lemma StepSize(q: Queue, g: R.Log, a: Action, bound: nat)
    requires Refines(q, g) && |q.wal| < q.maxBytes + bound
    requires a.Write? && Encode(a.p).Some? ==> |Encode(a.p).value| + 1 <= bound
    ensures |Step(q, a).wal| < q.maxBytes + bound && Step(q, a).maxBytes == q.maxBytes
  {
    hide Encode, Decode, ScanLine, R.PointsIn, FrameFrom, FrameIn, Ledger, CleanLines, LoadCkpt, CkptText;
    TailAtOffset(g, g.base);
  }

  /** The limit is checked before a line is appended, so the file can pass it,
      but never by a whole line. */
  lemma {:induction false} FileStaysWithinOneLine(q: Queue, g: R.Log, run: seq<Action>, bound: nat)
    requires Refines(q, g) && |q.wal| < q.maxBytes + bound && LinesWithin(run, bound)
    ensures |Exec(q, run).wal| < q.maxBytes + bound
    decreases |run|
  {
    hide Refines, Step, R.Step, Encode;
    if run != [] {
      StepSize(q, g, run[0], bound);
      RefinesInv(q, g);
      RefineStep(q, g, run[0]);
      FileStaysWithinOneLine(Step(q, run[0]), R.Step(g, run[0]), run[1..], bound);
    }
  }
}
