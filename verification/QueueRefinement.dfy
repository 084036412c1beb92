/** The byte-level queue carries out exactly the steps of the record log. */
module QueueRefinement {
  import opened Wrappers
  import opened WalFrame
  import opened WalCodec
  import opened QueueSteps
  import R = RecordLog

  predicate PhaseMatches(c: Phase, g: R.Log)
    requires R.Inv(g)
  {
    match (c, g.phase)
    case (Idle, Idle) => true
    case (Holding(p), Holding(i)) => p == R.Offset(g, i)
    case (Saved(p), Saved(i)) => p == R.Offset(g, i)
    case _ => false
  }

  /** The files hold the lines still on disk and the checkpointed boundary. */
  predicate Disk(q: Queue, g: R.Log)
    requires R.Inv(g)
  {
    && q.maxBytes == g.maxBytes && q.up == g.up
    && q.wal == FrameFrom(g.lines, g.base)
    && LoadCkpt(q.ckptFile) == R.Offset(g, g.ckpt)
  }

  /** Every offset in memory is the boundary the log's index names. */
  predicate Memory(q: Queue, g: R.Log)
    requires R.Inv(g)
  {
    g.up ==>
      && q.writePos == |q.wal|
      && q.sentPos == R.Offset(g, g.sent)
      && q.ackPos == R.Offset(g, g.ack)
      && q.cursor == R.Offset(g, g.cursor)
      && q.unpublished == g.unpublished
      && PhaseMatches(q.phase, g)
  }

  /** What went onto outCh, what came off it and what is still on it, when the
      incarnation in progress began at line s, the consumer is at t and the
      reader at c. */
  predicate Ledger(lines: seq<string>, past: seq<R.Span>, s: nat, t: nat, c: nat,
                   handed: seq<DataPoint>, taken: seq<DataPoint>, chan: seq<DataPoint>)
  {
    && R.SpansIn(past, |lines|) && s <= t <= c <= |lines|
    && handed == R.Handed(lines, past) + R.PointsIn(lines, s, c)
    && taken == R.Taken(lines, past) + R.PointsIn(lines, s, t)
    && chan == R.PointsIn(lines, t, c)
  }

  predicate History(q: Queue, g: R.Log) {
    Ledger(g.lines, g.past, g.start, g.taken, g.cursor, q.handed, q.taken, q.chan)
  }

  predicate Refines(q: Queue, g: R.Log) {
    R.Inv(g) && Disk(q, g) && Memory(q, g) && History(q, g)
  }

  // ---- boundaries -----------------------------------------------------------

  /** Boundaries are ordered like the lines they separate. */
  lemma OffsetsIncrease(g: R.Log, i: nat, j: nat)
    requires g.base <= i <= j <= |g.lines|
    ensures R.Offset(g, j) == R.Offset(g, i) + |FrameIn(g.lines, i, j)|
    ensures i < j ==> R.Offset(g, i) < R.Offset(g, j)
  {
    FrameSplit(g.lines, g.base, i, j);
  }

  /** The file from a boundary on holds the lines from there on. */
  lemma TailAtOffset(g: R.Log, i: nat)
    requires g.base <= i <= |g.lines|
    ensures R.Offset(g, i) <= |FrameFrom(g.lines, g.base)|
    ensures FrameFrom(g.lines, g.base)[R.Offset(g, i)..] == FrameFrom(g.lines, i)
    ensures R.Offset(g, |g.lines|) == |FrameFrom(g.lines, g.base)|
  {
    FrameTail(g.lines, g.base, i);
  }

  // ---- history bookkeeping --------------------------------------------------

  lemma SamePoints(lines: seq<string>, more: seq<string>, i: nat, j: nat)
    requires i <= j <= |lines|
    ensures R.PointsIn(lines + more, i, j) == R.PointsIn(lines, i, j)
  {
    assert (lines + more)[i..j] == lines[i..j];
  }

  /** Appending a line changes no past hand-over. */
  lemma {:induction false} HistoryOfLonger(lines: seq<string>, more: seq<string>, spans: seq<R.Span>)
    requires R.SpansIn(spans, |lines|)
    ensures R.Handed(lines + more, spans) == R.Handed(lines, spans)
    ensures R.Taken(lines + more, spans) == R.Taken(lines, spans)
  {
    hide R.PointsIn;
    if spans != [] {
      var last := spans[|spans| - 1];
      SamePoints(lines, more, last.start, last.stop);
      SamePoints(lines, more, last.start, last.taken);
      HistoryOfLonger(lines, more, spans[..|spans| - 1]);
    }
  }

  lemma PointsSplit(lines: seq<string>, a: nat, b: nat, c: nat)
    requires a <= b <= c <= |lines|
    ensures R.PointsIn(lines, a, c) == R.PointsIn(lines, a, b) + R.PointsIn(lines, b, c)
  {
    R.PointsAppend(lines[a..b], lines[b..c]);
    assert lines[a..b] + lines[b..c] == lines[a..c];
  }

  lemma PointsOfOne(lines: seq<string>, i: nat)
    requires i < |lines|
    ensures R.PointsIn(lines, i, i + 1) == match Decode(lines[i]) case None => [] case Some(dp) => [dp]
  {
    hide Decode;
    assert lines[i..i + 1] == [lines[i]];
    assert R.Points([lines[i]][1..]) == [];
  }

  lemma LedgerAppended(lines: seq<string>, past: seq<R.Span>, s: nat, t: nat, c: nat,
                       handed: seq<DataPoint>, taken: seq<DataPoint>, chan: seq<DataPoint>, line: string)
    requires Ledger(lines, past, s, t, c, handed, taken, chan)
    ensures Ledger(lines + [line], past, s, t, c, handed, taken, chan)
  {
    hide R.PointsIn, R.Handed, R.Taken;
    HistoryOfLonger(lines, [line], past);
    SamePoints(lines, [line], s, c);
    SamePoints(lines, [line], s, t);
    SamePoints(lines, [line], t, c);
  }

  /** The cursor going over one line. */
  lemma LedgerAdvanced(lines: seq<string>, past: seq<R.Span>, s: nat, t: nat, c: nat,
                       handed: seq<DataPoint>, taken: seq<DataPoint>, chan: seq<DataPoint>)
    requires Ledger(lines, past, s, t, c, handed, taken, chan) && c < |lines|
    ensures var more := R.PointsIn(lines, c, c + 1);
            Ledger(lines, past, s, t, c + 1, handed + more, taken, chan + more)
  {
    hide R.PointsIn, R.Handed, R.Taken, R.SpansIn;
    PointsSplit(lines, s, c, c + 1);
    PointsSplit(lines, t, c, c + 1);
  }

  /** The lines the consumer passes to reach the next point hold just that one. */
  lemma {:induction false} BehindNextPoint(lines: seq<string>, t: nat, c: nat)
    requires t <= c <= |lines| && R.PointsIn(lines, t, c) != []
    ensures var u := R.BehindNext(lines[..c], t);
            && t <= u <= c
            && R.PointsIn(lines, t, u) == R.PointsIn(lines, t, c)[..1]
            && R.PointsIn(lines, u, c) == R.PointsIn(lines, t, c)[1..]
    decreases c - t
  {
    hide Decode;
    assert t < c by { assert R.Points([]) == []; }
    assert lines[..c][t] == lines[t];
    PointsSplit(lines, t, t + 1, c);
    PointsOfOne(lines, t);
    if Decode(lines[t]).None? {
      BehindNextPoint(lines, t + 1, c);
      PointsSplit(lines, t, t + 1, R.BehindNext(lines[..c], t + 1));
    }
  }

  /** The consumer receiving the point at the head of the channel. */
  lemma LedgerTaken(lines: seq<string>, past: seq<R.Span>, s: nat, t: nat, c: nat,
                    handed: seq<DataPoint>, taken: seq<DataPoint>, chan: seq<DataPoint>)
    requires Ledger(lines, past, s, t, c, handed, taken, chan) && chan != []
    ensures Ledger(lines, past, s, R.BehindNext(lines[..c], t), c, handed, taken + [chan[0]], chan[1..])
  {
    BehindNextPoint(lines, t, c);
    var u := R.BehindNext(lines[..c], t);
    PointsSplit(lines, s, t, u);
    hide R.PointsIn, R.Handed, R.Taken, R.SpansIn, R.BehindNext;
    assert chan[..1] == [chan[0]];
  }

  /** A crash closes the incarnation; the next one begins at line k. */
  lemma LedgerClosed(lines: seq<string>, past: seq<R.Span>, s: nat, t: nat, c: nat,
                     handed: seq<DataPoint>, taken: seq<DataPoint>, chan: seq<DataPoint>, k: nat)
    requires Ledger(lines, past, s, t, c, handed, taken, chan) && k <= |lines|
    ensures Ledger(lines, past + [R.Span(s, t, c)], k, k, k, handed, taken, [])
  {
    var spans := past + [R.Span(s, t, c)];
    assert R.PointsIn(lines, k, k) == [] by { assert R.Points([]) == []; }
    hide R.PointsIn;
    assert R.SpansIn(spans, |lines|);
    assert spans[..|spans| - 1] == past;
  }

  // ---- one step each --------------------------------------------------------

  lemma AppendedOffsets(g: R.Log, line: string, h: R.Log)
    requires g.base <= |g.lines| && h == g.(lines := g.lines + [line])
    ensures forall i :: g.base <= i <= |g.lines| ==> R.Offset(h, i) == R.Offset(g, i)
    ensures FrameFrom(h.lines, g.base) == FrameFrom(g.lines, g.base) + (line + "\n")
  {
    forall i | g.base <= i <= |g.lines| ensures R.Offset(h, i) == R.Offset(g, i) {
      assert h.lines[g.base..i] == g.lines[g.base..i];
    }
    assert h.lines[g.base..] == g.lines[g.base..] + [line];
    FrameAppend(g.lines[g.base..], [line]);
    assert Frame([line]) == line + "\n";
  }

  lemma AppendedMemory(q: Queue, g: R.Log, line: string, h: R.Log)
    requires R.Inv(g) && Disk(q, g) && Memory(q, g)
    requires R.Inv(h) && h == g.(lines := g.lines + [line])
    ensures var r := q.(wal := q.wal + (line + "\n"), writePos := q.writePos + |line| + 1);
            Disk(r, h) && Memory(r, h)
  {
    AppendedOffsets(g, line, h);
    assert g.phase != Idle ==> g.base <= g.phase.pos <= |g.lines|;
    hide R.Inv, R.Offset, LoadCkpt, FrameFrom;
  }

  lemma RefineWrite(q: Queue, g: R.Log, p: Point)
    requires Refines(q, g)
    ensures Refines(DoWrite(q, p), R.Step(g, Write(p)))
    ensures R.Step(g, Write(p)).lines == if Accepts(q, p) then g.lines + [Encode(p).value] else g.lines
  {
    hide Encode, Decode, R.PointsIn, FrameIn, FrameFrom;
    TailAtOffset(g, g.base);
    R.StepKeepsInv(g, Write(p));
    if Accepts(q, p) {
      var line := Encode(p).value;
      var h := g.(lines := g.lines + [line]);
      assert R.Step(g, Write(p)) == h;
      hide R.Step, R.Inv, R.Offset, Disk, Memory, Ledger;
      AppendedMemory(q, g, line, h);
      LedgerAppended(g.lines, g.past, g.start, g.taken, g.cursor, q.handed, q.taken, q.chan, line);
    }
  }

  /** The reader's scan at the cursor sees the log's next line. */
  lemma ScanAtCursor(q: Queue, g: R.Log)
    requires R.Inv(g) && Disk(q, g) && Memory(q, g) && g.up
    ensures q.cursor <= |q.wal|
    ensures ScanLine(q.wal[q.cursor..])
         == if g.cursor == |g.lines| then None
            else Some((g.lines[g.cursor], FrameFrom(g.lines, g.cursor + 1)))
    ensures g.cursor < |g.lines| ==> q.cursor + |g.lines[g.cursor]| + 1 == R.Offset(g, g.cursor + 1)
  {
    hide ScanLine, FrameIn, FrameFrom, LoadCkpt;
    TailAtOffset(g, g.cursor);
    var tail := q.wal[q.cursor..];
    assert tail == FrameFrom(g.lines, g.cursor);
    hide R.Offset, R.Inv;
    NextAtCursor(g);
  }

  lemma NextAtCursor(g: R.Log)
    requires R.Inv(g)
    ensures ScanLine(FrameFrom(g.lines, g.cursor))
         == if g.cursor == |g.lines| then None
            else Some((g.lines[g.cursor], FrameFrom(g.lines, g.cursor + 1)))
    ensures g.cursor < |g.lines| ==>
              R.Offset(g, g.cursor) + |g.lines[g.cursor]| + 1 == R.Offset(g, g.cursor + 1)
  {
    hide ScanLine, FrameIn, FrameFrom;
    ScanAtBoundary(g.lines, g.cursor);
    if g.cursor < |g.lines| {
      OffsetsIncrease(g, g.cursor, g.cursor + 1);
    }
  }

  lemma RefineRead(q: Queue, g: R.Log)
    requires Refines(q, g)
    ensures Refines(DoRead(q), R.Step(g, Read))
  {
    hide R.PointsIn, FrameFrom, FrameIn, CleanLines, ScanLine;
    if g.up && !g.unpublished {
      ScanAtCursor(q, g);
      if g.cursor < |g.lines| {
        hide R.Offset, LoadCkpt, DoRead, R.Step;
        LedgerAfterLine(q, g, Decode(g.lines[g.cursor]));
        RefineReadLine(q, g, Decode(g.lines[g.cursor]));
      } else {
        assert DoRead(q) == q && R.Step(g, Read) == g;
      }
    } else {
      assert DoRead(q) == q && R.Step(g, Read) == g;
    }
  }

  lemma LedgerAfterLine(q: Queue, g: R.Log, found: Option<DataPoint>)
    requires History(q, g) && g.cursor < |g.lines| && found == Decode(g.lines[g.cursor])
    ensures var more := if found.Some? then [found.value] else [];
            Ledger(g.lines, g.past, g.start, g.taken, g.cursor + 1, q.handed + more, q.taken, q.chan + more)
  {
    PointsOfOne(g.lines, g.cursor);
    hide R.PointsIn, Decode;
    LedgerAdvanced(g.lines, g.past, g.start, g.taken, g.cursor, q.handed, q.taken, q.chan);
    hide Ledger;
  }

  lemma RefineReadLine(q: Queue, g: R.Log, found: Option<DataPoint>)
    requires Refines(q, g) && g.up && !g.unpublished && g.cursor < |g.lines|
    requires found == Decode(g.lines[g.cursor])
    requires q.cursor <= |q.wal|
    requires ScanLine(q.wal[q.cursor..]) == Some((g.lines[g.cursor], FrameFrom(g.lines, g.cursor + 1)))
    requires q.cursor + |g.lines[g.cursor]| + 1 == R.Offset(g, g.cursor + 1)
    requires var h := g.(cursor := g.cursor + 1, unpublished := found.Some?);
             var r := q.(cursor := R.Offset(g, g.cursor + 1), unpublished := found.Some?);
             R.Inv(h) && Disk(r, h) && Memory(r, h)
    requires var more := if found.Some? then [found.value] else [];
             Ledger(g.lines, g.past, g.start, g.taken, g.cursor + 1, q.handed + more, q.taken, q.chan + more)
    ensures Refines(DoRead(q), R.Step(g, Read))
  {
    hide Decode, R.PointsIn, FrameFrom, FrameIn, CleanLines, ScanLine;
    var h := g.(cursor := g.cursor + 1, unpublished := found.Some?);
    if found.None? || |q.chan| < OUT_CAPACITY {
      assert R.Step(g, Read) == h;
      hide Disk, Memory, R.Inv, Ledger, R.Offset;
    } else {
      assert R.Step(g, Read) == g;
    }
  }

  lemma RefineTake(q: Queue, g: R.Log)
    requires Refines(q, g)
    ensures Refines(DoTake(q), R.Step(g, Take))
  {
    hide R.PointsIn, FrameFrom, FrameIn, CleanLines, LoadCkpt;
    R.StepKeepsInv(g, Take);
    if g.up && q.chan != [] {
      LedgerTaken(g.lines, g.past, g.start, g.taken, g.cursor, q.handed, q.taken, q.chan);
      hide R.BehindNext, Ledger;
      assert R.Step(g, Take) == g.(taken := R.BehindNext(g.lines[..g.cursor], g.taken));
      hide R.Step;
    }
  }

  /** Taking the sentPos, writing the file, moving ackPos, the reader's publish
      and the save in Close: none touches the log or the channel. */
  lemma RefineOffsets(q: Queue, g: R.Log, a: Action)
    requires Refines(q, g)
    requires a.Publish? || a.CkptHold? || a.CkptSave? || a.CkptAck? || a.Close?
    ensures Refines(QueueSteps.Step(q, a), R.Step(g, a))
  {
    hide R.PointsIn, FrameFrom, FrameIn, Ledger, LoadCkpt;
    R.StepKeepsInv(g, a);
    OffsetsIncrease(g, g.ack, g.sent);
    CkptRoundTrip(q.sentPos);
    if q.phase.Holding? {
      CkptRoundTrip(q.phase.pos);
    }
  }

  /** Cutting everything before line `ack` off the front shifts every later
      boundary by the same number of bytes. */
  lemma CutOffsets(g: R.Log, i: nat)
    requires R.Inv(g) && g.ack <= i <= |g.lines|
    ensures R.Offset(g, g.ack) <= R.Offset(g, i)
    ensures R.Offset(g.(base := g.ack, ckpt := g.ack), i) == R.Offset(g, i) - R.Offset(g, g.ack)
  {
    OffsetsIncrease(g, g.ack, i);
  }

  lemma RefineCompact(q: Queue, g: R.Log)
    requires Refines(q, g)
    ensures Refines(DoCompact(q), R.Step(g, Compact))
  {
    hide R.PointsIn, FrameFrom, FrameIn, Ledger, CleanLines;
    R.StepKeepsInv(g, Compact);
    TailAtOffset(g, g.base);
    TailAtOffset(g, g.ack);
    if CanCompact(q) {
      var h := g.(base := g.ack, ckpt := g.ack);
      assert R.Step(g, Compact) == h;
      CutOffsets(g, g.ack);
      CutOffsets(g, g.sent);
      CutOffsets(g, g.cursor);
      CutOffsets(g, |g.lines|);
      OffsetsIncrease(g, g.ack, |g.lines|);
      OffsetsIncrease(g, g.sent, g.cursor);
      OffsetsIncrease(g, g.cursor, |g.lines|);
      CkptRoundTrip(0);
      hide R.Step, R.Offset, LoadCkpt;
    } else {
      assert R.Step(g, Compact) == g;
    }
  }

  lemma RefineCrash(q: Queue, g: R.Log)
    requires Refines(q, g)
    ensures Refines(DoCrash(q), R.Step(g, Crash))
  {
    hide R.PointsIn, FrameFrom, FrameIn, CleanLines, LoadCkpt;
    R.StepKeepsInv(g, Crash);
    if g.up {
      LedgerClosed(g.lines, g.past, g.start, g.taken, g.cursor, q.handed, q.taken, q.chan, g.ckpt);
      hide Ledger;
    }
  }

  lemma NoPoints(lines: seq<string>, i: nat)
    requires i <= |lines|
    ensures R.PointsIn(lines, i, i) == []
  {
    assert R.Points([]) == [];
  }

  /** One step of the byte-level queue is one step of the record log. */
  lemma RefineStep(q: Queue, g: R.Log, a: Action)
    requires Refines(q, g)
    ensures Refines(QueueSteps.Step(q, a), R.Step(g, a))
  {
    match a
    case Write(p) => RefineWrite(q, g, p);
    case Read => RefineRead(q, g);
    case Take => RefineTake(q, g);
    case Compact => RefineCompact(q, g);
    case Crash => RefineCrash(q, g);
    case Restart => 
    case _ => RefineOffsets(q, g, a);
  }

  /** Every run over bytes, in any interleaving of writer, reader, consumer,
      checkpointer, compaction, shutdown, crashes and restarts, is a run of the
      record log. */
  lemma {:induction false} RefineRun(q: Queue, g: R.Log, run: seq<Action>)
    requires Refines(q, g)
    ensures Refines(QueueSteps.Exec(q, run), R.Exec(g, run))
    decreases |run|
  {
    hide Refines;
    if run != [] {
      RefineStep(q, g, run[0]);
      RefinesInv(q, g);
      RefineRun(QueueSteps.Step(q, run[0]), R.Step(g, run[0]), run[1..]);
    }
  }

  lemma RefinesInv(q: Queue, g: R.Log)
    requires Refines(q, g)
    ensures R.Inv(g)
  {
  }
}
