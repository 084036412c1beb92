/** What the record log guarantees over whole runs, and with it the byte-level
    queue: nothing accepted is skipped, and only what lies behind the saved
    checkpoint is repeated. */
module CrashSafety {
  import opened Wrappers
  import opened WalFrame
  import opened WalCodec
  import opened QueueSteps
  import opened QueueRefinement
  import R = RecordLog

  // ---- incarnations leave no gap --------------------------------------------

  /** The first incarnation begins at line `first`, and each later one at or
      before the line the previous one had reached. */
  predicate Chained(spans: seq<R.Span>, first: nat)
    decreases |spans|
  {
    spans != [] &&
    var n := |spans| - 1;
    if n == 0 then spans[0].start == first
    else spans[n].start <= spans[n - 1].stop && Chained(spans[..n], first)
  }

  /** How one step changes the incarnations: a crash closes the last one and
      begins the next at the checkpoint, anything else can only extend it. */
  lemma StepSpans(g: R.Log, a: Action)
    requires R.Inv(g)
    ensures var h := R.Step(g, a);
            if a.Crash? && g.up then
              h.past == R.Spans(g) && h.start == g.ckpt <= g.cursor
            else
              h.past == g.past && h.start == g.start && g.taken <= h.taken && g.cursor <= h.cursor
  {
    hide Encode, Decode, R.PointsIn, R.Offset, CleanLines;
  }

  lemma StepKeepsChain(g: R.Log, a: Action, first: nat)
    requires R.Inv(g) && Chained(R.Spans(g), first)
    ensures Chained(R.Spans(R.Step(g, a)), first)
  {
    StepSpans(g, a);
    hide R.Step, R.Inv;
    var h := R.Step(g, a);
    assert R.Spans(h)[..|h.past|] == h.past;
    assert R.Spans(g)[..|g.past|] == g.past;
  }

  lemma {:induction false} RunKeepsChain(g: R.Log, run: seq<Action>, first: nat)
    requires R.Inv(g) && Chained(R.Spans(g), first)
    ensures Chained(R.Spans(R.Exec(g, run)), first)
    decreases |run|
  {
    hide R.Inv, Chained, R.Step, R.Spans;
    if run != [] {
      R.StepKeepsInv(g, run[0]);
      StepKeepsChain(g, run[0], first);
      RunKeepsChain(R.Step(g, run[0]), run[1..], first);
    }
  }

  /** No line between the first checkpoint and the furthest point reached is
      outside every incarnation. */
  lemma {:induction false} ChainCovers(spans: seq<R.Span>, first: nat, i: nat) returns (j: nat)
    requires Chained(spans, first) && first <= i < spans[|spans| - 1].stop
    ensures j < |spans| && spans[j].start <= i < spans[j].stop
    decreases |spans|
  {
    j := |spans| - 1;
    if i < spans[j].start {
      j := ChainCovers(spans[..j], first, i);
    }
  }

  lemma {:induction false} HandedHolds(lines: seq<string>, spans: seq<R.Span>, j: nat, i: nat)
    requires R.SpansIn(spans, |lines|) && j < |spans| && spans[j].start <= i < spans[j].stop
    requires Decode(lines[i]).Some?
    ensures Decode(lines[i]).value in R.Handed(lines, spans)
    decreases |spans|
  {
    hide Decode, R.PointsIn;
    var last := spans[|spans| - 1];
    if j == |spans| - 1 {
      PointsHold(lines, last.start, last.stop, i);
    } else {
      HandedHolds(lines, spans[..|spans| - 1], j, i);
    }
  }

  lemma PointsHold(lines: seq<string>, a: nat, c: nat, i: nat)
    requires a <= i < c <= |lines| && Decode(lines[i]).Some?
    ensures Decode(lines[i]).value in R.PointsIn(lines, a, c)
  {
    PointsSplit(lines, a, i, c);
    PointsSplit(lines, i, i + 1, c);
    PointsOfOne(lines, i);
    hide R.PointsIn, Decode;
  }

  // ---- the log is exactly what Write accepted -------------------------------

  function Encoded(points: seq<Point>): (r: seq<string>)
    ensures |r| == |points|
  {
    if points == [] then []
    else
      [EncodedLine(points[0])] + Encoded(points[1..])
  }

  function EncodedLine(p: Point): string {
    match Encode(p) case Some(line) => line case None => ""
  }

  lemma {:induction false} EncodedAppend(a: seq<Point>, b: seq<Point>)
    ensures Encoded(a + b) == Encoded(a) + Encoded(b)
  {
    hide EncodedLine;
    if a == [] {
      assert a + b == b;
    } else {
      EncodedAppend(a[1..], b);
      assert (a + b)[1..] == a[1..] + b;
    }
  }

  lemma StepAppends(q: Queue, g: R.Log, a: Action)
    requires Refines(q, g)
    ensures R.Step(g, a).lines
         == g.lines + Encoded(if a.Write? && Accepts(q, a.p) then [a.p] else [])
  {
    hide Encode, Decode, R.PointsIn, Refines;
    if a.Write? {
      RefineWrite(q, g, a.p);
      assert Encoded([a.p][1..]) == [];
    }
  }

  lemma {:induction false} RunAppends(q: Queue, g: R.Log, run: seq<Action>)
    requires Refines(q, g)
    ensures R.Inv(g) && R.Exec(g, run).lines == g.lines + Encoded(Accepted(q, run))
    decreases |run|
  {
    hide Refines, Accepts, R.Step, QueueSteps.Step, R.Inv, Encoded;
    RefinesInv(q, g);
    if run == [] {
      assert Encoded([]) == [] by { }
    } else {
      var first := if run[0].Write? && Accepts(q, run[0].p) then [run[0].p] else [];
      RefineStep(q, g, run[0]);
      RefinesInv(QueueSteps.Step(q, run[0]), R.Step(g, run[0]));
      StepAppends(q, g, run[0]);
      RunAppends(QueueSteps.Step(q, run[0]), R.Step(g, run[0]), run[1..]);
      EncodedAppend(first, Accepted(QueueSteps.Step(q, run[0]), run[1..]));
    }
  }

  lemma {:induction false} AcceptedEncode(q: Queue, run: seq<Action>)
    ensures forall k :: 0 <= k < |Accepted(q, run)| ==> Encode(Accepted(q, run)[k]).Some?
    decreases |run|
  {
    hide Encode, QueueSteps.Step;
    if run != [] {
      AcceptedEncode(QueueSteps.Step(q, run[0]), run[1..]);
    }
  }

  lemma {:induction false} EncodedAt(points: seq<Point>, k: nat)
    requires k < |points| && Encode(points[k]).Some?
    ensures Encoded(points)[k] == Encode(points[k]).value
  {
    hide Encode;
    if k > 0 {
      EncodedAt(points[1..], k - 1);
    }
  }

  // ---- whole runs from the files on disk ------------------------------------

  /** A stopped agent with these lines in the file and a checkpoint on the
      boundary before line `first`. */
  predicate Stopped(q: Queue, lines: seq<string>, first: nat) {
    && !q.up && CleanLines(lines) && first <= |lines|
    && q.wal == FrameFrom(lines, 0)
    && LoadCkpt(q.ckptFile) == |FrameIn(lines, 0, first)|
    && q.handed == q.taken == q.chan == []
  }

  function StoppedLog(maxBytes: nat, lines: seq<string>, first: nat): R.Log {
    R.Log(maxBytes, lines, 0, first, false, first, first, first, first, first, false, Idle, [])
  }

  lemma StoppedRefines(q: Queue, lines: seq<string>, first: nat)
    requires Stopped(q, lines, first)
    ensures Refines(q, StoppedLog(q.maxBytes, lines, first))
    ensures Chained(R.Spans(StoppedLog(q.maxBytes, lines, first)), first)
  {
    hide FrameFrom, FrameIn, R.PointsIn;
    NoPoints(lines, first);
  }

  /** In every reachable state the saved checkpoint, sentPos, the reader's
      cursor and the end of the file are record boundaries, in this order. */
  lemma OffsetsStayOnBoundaries(q: Queue, lines: seq<string>, first: nat, run: seq<Action>)
    returns (disk: seq<string>, i: nat, j: nat, k: nat)
    requires Stopped(q, lines, first)
    ensures var r := Exec(q, run);
            && CleanLines(disk) && r.wal == FrameFrom(disk, 0) && i <= j <= k <= |disk|
            && LoadCkpt(r.ckptFile) == |FrameIn(disk, 0, i)|
            && (r.up ==>
                  && r.sentPos == |FrameIn(disk, 0, j)|
                  && r.cursor == |FrameIn(disk, 0, k)|
                  && LoadCkpt(r.ckptFile) <= r.sentPos <= r.cursor <= r.writePos == |r.wal|)
  {
    hide Refines;
    var g0 := StoppedLog(q.maxBytes, lines, first);
    StoppedRefines(q, lines, first);
    RefinesInv(q, g0);
    RefineRun(q, g0, run);
    var r, g := Exec(q, run), R.Exec(g0, run);
    disk, i, j, k := BoundariesOf(r, g);
  }

  lemma BoundariesOf(r: Queue, g: R.Log) returns (disk: seq<string>, i: nat, j: nat, k: nat)
    requires Refines(r, g)
    ensures CleanLines(disk) && r.wal == FrameFrom(disk, 0) && i <= j <= k <= |disk|
    ensures LoadCkpt(r.ckptFile) == |FrameIn(disk, 0, i)|
    ensures r.up ==>
              && r.sentPos == |FrameIn(disk, 0, j)|
              && r.cursor == |FrameIn(disk, 0, k)|
              && LoadCkpt(r.ckptFile) <= r.sentPos <= r.cursor <= r.writePos == |r.wal|
  {
    hide R.PointsIn, LoadCkpt, Frame, Ledger;
    disk := g.lines[g.base..];
    i, j, k := g.ckpt - g.base, g.sent - g.base, g.cursor - g.base;
    assert disk[0..] == disk;
    assert disk[0..i] == g.lines[g.base..g.ckpt];
    assert disk[0..j] == g.lines[g.base..g.sent];
    assert disk[0..k] == g.lines[g.base..g.cursor];
    OffsetsIncrease(g, g.ckpt, g.sent);
    OffsetsIncrease(g, g.sent, g.cursor);
    TailAtOffset(g, g.cursor);
  }

  /** Everything handed to the stream consumer, over all incarnations, is a
      sequence of runs through the one log of all lines ever accepted, in file
      order, undecodable lines skipped, the first run from the initial
      checkpoint and none starting beyond where an earlier one stopped. */
  lemma HandedInOrderWithoutGap(q: Queue, lines: seq<string>, first: nat, run: seq<Action>)
    returns (spans: seq<R.Span>)
    requires Stopped(q, lines, first)
    ensures var log := lines + Encoded(Accepted(q, run));
            && R.SpansIn(spans, |log|) && Chained(spans, first)
            && Exec(q, run).handed == R.Handed(log, spans)
            && Exec(q, run).taken == R.Taken(log, spans)
  {
    hide Refines, R.Handed, R.Taken;
    var g0 := StoppedLog(q.maxBytes, lines, first);
    StoppedRefines(q, lines, first);
    RefinesInv(q, g0);
    RefineRun(q, g0, run);
    RunAppends(q, g0, run);
    RunKeepsChain(g0, run, first);
    spans := R.Spans(R.Exec(g0, run));
    SpansOfLedger(Exec(q, run), R.Exec(g0, run));
  }

  lemma SpansOfLedger(r: Queue, g: R.Log)
    requires Refines(r, g)
    ensures R.SpansIn(R.Spans(g), |g.lines|)
    ensures r.handed == R.Handed(g.lines, R.Spans(g)) && r.taken == R.Taken(g.lines, R.Spans(g))
  {
    hide R.PointsIn;
    var spans := R.Spans(g);
    assert R.SpansIn(spans, |g.lines|);
    assert spans[..|spans| - 1] == g.past;
  }

  /** Once a running reader has caught up with the file, every point whose Write
      returned nil in any incarnation has been handed over, as the log renders it. */
  lemma NothingAcceptedIsLost(q: Queue, lines: seq<string>, first: nat, run: seq<Action>)
    requires Stopped(q, lines, first)
    requires Exec(q, run).up && Exec(q, run).cursor == Exec(q, run).writePos
    ensures forall k :: 0 <= k < |Accepted(q, run)| ==> Reread(Accepted(q, run)[k]) in Exec(q, run).handed
  {
    hide Refines, R.Handed, R.Taken, R.PointsIn, Encode, Decode, Reread;
    var g0 := StoppedLog(q.maxBytes, lines, first);
    StoppedRefines(q, lines, first);
    RefinesInv(q, g0);
    RefineRun(q, g0, run);
    RunAppends(q, g0, run);
    RunKeepsChain(g0, run, first);
    var r, g := Exec(q, run), R.Exec(g0, run);
    SpansOfLedger(r, g);
    CaughtUp(r, g);
    AcceptedEncode(q, run);
    forall k | 0 <= k < |Accepted(q, run)| ensures Reread(Accepted(q, run)[k]) in r.handed {
      var p := Accepted(q, run)[k];
      var i := |lines| + k;
      EncodedAt(Accepted(q, run), k);
      LineRoundTrip(p);
      var j := ChainCovers(R.Spans(g), first, i);
      HandedHolds(g.lines, R.Spans(g), j, i);
    }
  }

  lemma CaughtUp(r: Queue, g: R.Log)
    requires Refines(r, g) && r.up && r.cursor == r.writePos
    ensures g.cursor == |g.lines|
  {
    hide R.PointsIn, LoadCkpt, FrameIn, FrameFrom, Ledger;
    TailAtOffset(g, g.base);
    if g.cursor < |g.lines| {
      OffsetsIncrease(g, g.cursor, |g.lines|);
    }
  }

  /** A crash repeats exactly what lies behind the saved checkpoint: the
      restarted reader's input is the file from there, and everything before it
      had been published as sent. */
  lemma RestartRepeatsFromCheckpoint(q: Queue, g: R.Log)
    requires Refines(q, g) && q.up
    ensures var r := DoRestart(DoCrash(q));
            && r.cursor == LoadCkpt(q.ckptFile) <= q.sentPos
            && r.cursor <= |r.wal| && r.wal[r.cursor..] == FrameFrom(g.lines, g.ckpt)
            && g.ckpt <= g.sent
  {
    hide R.PointsIn, LoadCkpt, FrameIn, FrameFrom, Ledger;
    TailAtOffset(g, g.ckpt);
    OffsetsIncrease(g, g.ckpt, g.sent);
  }

  // ---- at-least-once delivery to the consumer -------------------------------

  /** Some incarnation's consumer received what line i holds. */
  predicate Covered(spans: seq<R.Span>, i: nat) {
    exists k :: 0 <= k < |spans| && spans[k].start <= i < spans[k].taken
  }

  predicate Decodable(lines: seq<string>, i: nat) {
    i < |lines| && Decode(lines[i]).Some?
  }

  /** The furthest line any incarnation's consumer has reached. */
  function Furthest(spans: seq<R.Span>): (f: nat)
    ensures forall k :: 0 <= k < |spans| ==> spans[k].taken <= f
  {
    if spans == [] then 0
    else
      var f, last := Furthest(spans[..|spans| - 1]), spans[|spans| - 1].taken;
      if f < last then last else f
  }

  /** No decodable line before where the consumer stands was skipped. */
  predicate WithoutGap(g: R.Log, first: nat) {
    forall i :: first <= i < g.taken && Decodable(g.lines, i) ==> Covered(R.Spans(g), i)
  }

  /** A crash that strands a point: a decodable line no consumer has reached yet
      lies before the saved checkpoint. */
  predicate Strands(g: R.Log, a: Action) {
    a.Crash? && g.up && exists i :: Furthest(R.Spans(g)) <= i < g.ckpt && Decodable(g.lines, i)
  }

  predicate NeverStrands(g: R.Log, run: seq<Action>)
    requires R.Inv(g)
    decreases |run|
  {
    run == [] ||
    (!Strands(g, run[0]) && (R.StepKeepsInv(g, run[0]); NeverStrands(R.Step(g, run[0]), run[1..])))
  }

  /** Within an incarnation nothing that a restart could begin with lies before
      where it began itself: across incarnations the checkpoint never goes back. */
  predicate Floor(g: R.Log) {
    && R.SpansIn(g.past, |g.lines|)
    && g.start <= g.ckpt && g.start <= g.sent && g.start <= g.ack
    && (g.phase != Idle ==> g.start <= g.phase.pos)
  }

  lemma StepKeepsFloor(g: R.Log, a: Action)
    requires R.Inv(g) && Floor(g)
    ensures Floor(R.Step(g, a)) && g.start <= R.Step(g, a).start
  {
    hide Encode, Decode, R.PointsIn, R.Offset, CleanLines, R.BehindNext;
  }

  lemma StepKeepsLines(g: R.Log, a: Action)
    requires R.Inv(g)
    ensures |g.lines| <= |R.Step(g, a).lines|
    ensures forall i :: 0 <= i < |g.lines| ==> R.Step(g, a).lines[i] == g.lines[i]
  {
    hide Encode, Decode, R.PointsIn, R.Offset, CleanLines, R.BehindNext;
  }

  /** Every decodable line before the furthest one reached was received. */
  predicate Complete(lines: seq<string>, spans: seq<R.Span>, first: nat) {
    forall i :: first <= i < Furthest(spans) && Decodable(lines, i) ==> Covered(spans, i)
  }

  lemma SpansSnoc(spans: seq<R.Span>, last: R.Span)
    ensures Furthest(spans + [last]) == if Furthest(spans) < last.taken then last.taken else Furthest(spans)
    ensures forall i: nat :: Covered(spans + [last], i) <==> Covered(spans, i) || last.start <= i < last.taken
  {
    var all := spans + [last];
    assert all[..|spans|] == spans;
    forall i: nat ensures Covered(all, i) <==> Covered(spans, i) || last.start <= i < last.taken {
      if k :| 0 <= k < |spans| && spans[k].start <= i < spans[k].taken {
        assert all[k] == spans[k];
      }
      assert all[|spans|] == last;
    }
  }

  lemma {:induction false} FurthestIsInLog(spans: seq<R.Span>, n: nat)
    requires R.SpansIn(spans, n)
    ensures Furthest(spans) <= n
  {
    if spans != [] {
      FurthestIsInLog(spans[..|spans| - 1], n);
    }
  }

  /** The consumer moves on, and the log may grow. */
  lemma CompleteFurther(lines: seq<string>, more: seq<string>, past: seq<R.Span>, was: R.Span, now: R.Span, first: nat)
    requires Complete(lines, past + [was], first) && Furthest(past + [was]) <= |lines| <= |more|
    requires forall i :: 0 <= i < |lines| ==> more[i] == lines[i]
    requires now.start == was.start <= was.taken <= now.taken
    ensures Complete(more, past + [now], first)
  {
    SpansSnoc(past, was);
    SpansSnoc(past, now);
    hide Furthest, Covered, Decode;
    forall i | first <= i < Furthest(past + [now]) && Decodable(more, i) ensures Covered(past + [now], i) {
      if i < Furthest(past + [was]) {
        assert Decodable(lines, i);
      }
    }
  }

  /** The next incarnation begins where only undecodable lines are skipped. */
  lemma CompleteAgain(lines: seq<string>, spans: seq<R.Span>, ckpt: nat, first: nat)
    requires Complete(lines, spans, first)
    requires forall i :: Furthest(spans) <= i < ckpt ==> !Decodable(lines, i)
    ensures Complete(lines, spans + [R.Span(ckpt, ckpt, ckpt)], first)
  {
    SpansSnoc(spans, R.Span(ckpt, ckpt, ckpt));
    hide Furthest, Covered, Decodable;
  }

  /** A step that strands nothing leaves no gap. */
  lemma StepKeepsComplete(g: R.Log, a: Action, first: nat)
    requires R.Inv(g) && Floor(g) && Complete(g.lines, R.Spans(g), first) && !Strands(g, a)
    ensures Complete(R.Step(g, a).lines, R.Spans(R.Step(g, a)), first)
  {
    var h := R.Step(g, a);
    StepSpans(g, a);
    StepKeepsLines(g, a);
    if a.Crash? && g.up {
      CrashTakes(g);
      hide R.Step, R.Inv, Complete, Decodable;
      CompleteAgain(g.lines, R.Spans(g), g.ckpt, first);
      CompleteIgnoresStop(h.lines, R.Spans(g), R.Span(g.ckpt, g.ckpt, g.ckpt), R.Span(h.start, h.taken, h.cursor), first);
    } else {
      FurthestIsInLog(R.Spans(g), |g.lines|);
      hide R.Step, Complete, Furthest, Decodable;
      CompleteFurther(g.lines, h.lines, g.past, R.Span(g.start, g.taken, g.cursor), R.Span(h.start, h.taken, h.cursor), first);
    }
  }

  lemma CompleteIgnoresStop(lines: seq<string>, past: seq<R.Span>, a: R.Span, b: R.Span, first: nat)
    requires Complete(lines, past + [a], first) && a.start == b.start && a.taken == b.taken
    ensures Complete(lines, past + [b], first)
  {
    SpansSnoc(past, a);
    SpansSnoc(past, b);
    hide Furthest, Covered, Decodable;
  }

  lemma CrashTakes(g: R.Log)
    requires R.Inv(g) && g.up
    ensures var h := R.Step(g, Crash); h.start == h.taken == g.ckpt && h.lines == g.lines
  {
  }

  /** A point once stranded is never received. */
  predicate Lost(g: R.Log, first: nat, i: nat) {
    first <= i < g.start && Decodable(g.lines, i) && !Covered(R.Spans(g), i)
  }

  lemma StepKeepsLost(g: R.Log, a: Action, first: nat, i: nat)
    requires R.Inv(g) && Floor(g) && Lost(g, first, i)
    ensures Lost(R.Step(g, a), first, i)
  {
    var h := R.Step(g, a);
    StepKeepsFloor(g, a);
    StepSpans(g, a);
    StepKeepsLines(g, a);
    SpansSnoc(g.past, R.Span(g.start, g.taken, g.cursor));
    SpansSnoc(h.past, R.Span(h.start, h.taken, h.cursor));
    hide R.Step, Decode, R.Inv;
  }

  lemma {:induction false} LostForGood(g: R.Log, run: seq<Action>, first: nat, i: nat)
    requires R.Inv(g) && Floor(g) && Lost(g, first, i)
    ensures !WithoutGap(R.Exec(g, run), first)
    decreases |run|
  {
    if run == [] {
      hide R.Spans, Decode;
    } else {
      R.StepKeepsInv(g, run[0]);
      StepKeepsFloor(g, run[0]);
      StepKeepsLost(g, run[0], first, i);
      hide Lost, Floor, R.Inv, WithoutGap, R.Step;
      LostForGood(R.Step(g, run[0]), run[1..], first, i);
    }
  }

  lemma StrandedIsLost(g: R.Log, a: Action, first: nat)
    requires R.Inv(g) && Floor(g) && first <= g.start && Strands(g, a)
    ensures exists i :: Lost(R.Step(g, a), first, i)
  {
    var h := R.Step(g, a);
    var i :| Furthest(R.Spans(g)) <= i < g.ckpt && Decodable(g.lines, i);
    StepSpans(g, a);
    CrashTakes(g);
    assert R.Spans(g)[|g.past|].taken <= Furthest(R.Spans(g));
    assert g.start <= g.taken;
    FurthestCovers(R.Spans(g), i);
    hide R.Step, Decode, R.Inv, Floor, Furthest, Covered;
    SpansSnoc(h.past, R.Span(h.start, h.taken, h.cursor));
    assert Lost(h, first, i);
  }

  lemma FurthestCovers(spans: seq<R.Span>, i: nat)
    requires Furthest(spans) <= i
    ensures !Covered(spans, i)
  {
  }

  lemma CompleteIsWithoutGap(g: R.Log, first: nat)
    requires Complete(g.lines, R.Spans(g), first)
    ensures WithoutGap(g, first)
  {
    SpansSnoc(g.past, R.Span(g.start, g.taken, g.cursor));
    hide Furthest, Covered, Decodable;
  }

  lemma {:induction false} GapIff(g: R.Log, run: seq<Action>, first: nat)
    requires R.Inv(g) && Floor(g) && first <= g.start && Complete(g.lines, R.Spans(g), first)
    ensures WithoutGap(R.Exec(g, run), first) <==> NeverStrands(g, run)
    decreases |run|
  {
    if run == [] {
      CompleteIsWithoutGap(g, first);
    } else {
      R.StepKeepsInv(g, run[0]);
      StepKeepsFloor(g, run[0]);
      hide R.Inv, Floor, WithoutGap, R.Step, Complete, Strands, Lost;
      if Strands(g, run[0]) {
        StrandedIsLost(g, run[0], first);
        var i :| Lost(R.Step(g, run[0]), first, i);
        LostForGood(R.Step(g, run[0]), run[1..], first, i);
      } else {
        StepKeepsComplete(g, run[0], first);
        GapIff(R.Step(g, run[0]), run[1..], first);
      }
    }
  }

  /** From a stopped agent, over any run: the consumers of all incarnations have
      together received every decodable line from the first checkpoint to where
      the last one stands, iff no crash finds, before the saved checkpoint, a
      decodable line that no consumer had reached. */
  lemma TakenWithoutGapIff(maxBytes: nat, lines: seq<string>, first: nat, run: seq<Action>)
    requires CleanLines(lines) && first <= |lines|
    ensures WithoutGap(R.Exec(StoppedLog(maxBytes, lines, first), run), first)
       <==> NeverStrands(StoppedLog(maxBytes, lines, first), run)
  {
    var g := StoppedLog(maxBytes, lines, first);
    SpansSnoc([], R.Span(first, first, first));
    assert R.Spans(g) == [] + [R.Span(first, first, first)];
    GapIff(g, run, first);
  }

  /** A covered line's point is among those received. */
  lemma {:induction false} CoveredIsTaken(lines: seq<string>, spans: seq<R.Span>, i: nat)
    requires R.SpansIn(spans, |lines|) && Covered(spans, i) && Decodable(lines, i)
    ensures Decode(lines[i]).value in R.Taken(lines, spans)
    decreases |spans|
  {
    hide Decode, R.PointsIn;
    var n := |spans| - 1;
    var k :| 0 <= k < |spans| && spans[k].start <= i < spans[k].taken;
    if k == n {
      PointsHold(lines, spans[n].start, spans[n].taken, i);
    } else {
      assert spans[..n][k] == spans[k];
      CoveredIsTaken(lines, spans[..n], i);
    }
  }

  /** So with the queue itself: over a run in which no crash strands a point, every
      point whose Write returned nil and that lies before the consumer's place has
      been received by RunStream. */
  lemma AcceptedIsTaken(q: Queue, lines: seq<string>, first: nat, run: seq<Action>, k: nat)
    requires Stopped(q, lines, first) && NeverStrands(StoppedLog(q.maxBytes, lines, first), run)
    requires k < |Accepted(q, run)|
    requires |lines| + k < R.Exec(StoppedLog(q.maxBytes, lines, first), run).taken
    ensures Reread(Accepted(q, run)[k]) in Exec(q, run).taken
  {
    hide Refines, R.Handed, R.Taken, R.PointsIn, Encode, Decode, Reread, NeverStrands, QueueSteps.Step, R.Step;
    var g0 := StoppedLog(q.maxBytes, lines, first);
    StoppedRefines(q, lines, first);
    RefinesInv(q, g0);
    RefineRun(q, g0, run);
    RunAppends(q, g0, run);
    TakenWithoutGapIff(q.maxBytes, lines, first, run);
    var r, g := Exec(q, run), R.Exec(g0, run);
    SpansOfLedger(r, g);
    AcceptedEncode(q, run);
    EncodedAt(Accepted(q, run), k);
    LineRoundTrip(Accepted(q, run)[k]);
    CoveredIsTaken(g.lines, R.Spans(g), |lines| + k);
  }

  /** The reader going over the only line of the file. */
  lemma ReadOnlyLine(q: Queue, p: Point)
    requires Encode(p).Some? && q.wal == Encode(p).value + "\n"
    requires q.up && !q.unpublished && q.cursor == 0 && q.chan == [] && q.handed == []
    ensures DoRead(q) == q.(cursor := |q.wal|, unpublished := true, chan := [Reread(p)], handed := [Reread(p)])
  {
    hide Encode, Decode, Reread, ScanLine;
    LineRoundTrip(p);
    ScanOnlyLine(p);
    assert q.wal[0..] == q.wal;
  }

  lemma ScanOnlyLine(p: Point)
    requires Encode(p).Some?
    ensures ScanLine(Encode(p).value + "\n") == Some((Encode(p).value, ""))
  {
    var line := Encode(p).value;
    LineIsClean(p);
    hide Encode, ScanLine;
    assert CleanLines([line]);
    ScanFirst([line]);
    assert [line][1..] == [] && Frame([]) == "";
    assert Frame([line]) == line + "\n" + Frame([]);
    assert line + "\n" + "" == line + "\n";
  }

  /** The checkpoint records the hand-over to outCh, not delivery: every point
      the queue accepts can be checkpointed and then lost with the channel. The
      restarted reader is at the end of the file and the point was never taken. */
  lemma CheckpointedButNeverTaken(p: Point, maxBytes: nat)
    requires Encode(p).Some? && maxBytes > 0
    ensures var empty := Queue(maxBytes, "", None, false, 0, 0, 0, 0, false, Idle, [], [], []);
            var run := [Restart, Write(p), Read, Publish, CkptHold, CkptSave, Crash, Restart];
            var r := Exec(empty, run);
            && Accepted(empty, run) == [p] && r.handed == [Reread(p)]
            && r.up && r.cursor == r.writePos && r.chan == [] && r.taken == []
  {
    hide Encode, Decode, Reread, LoadCkpt, ScanLine, CkptText, Exec, Accepted;
    var run := [Restart, Write(p), Read, Publish, CkptHold, CkptSave, Crash, Restart];
    var q0 := Queue(maxBytes, "", None, false, 0, 0, 0, 0, false, Idle, [], [], []);
    var wal, n := Encode(p).value + "\n", |Encode(p).value| + 1;
    var q1 := q0.(up := true);
    var q2 := q1.(wal := wal, writePos := n);
    var q3 := q2.(cursor := n, unpublished := true, chan := [Reread(p)], handed := [Reread(p)]);
    var q4 := q3.(sentPos := n, unpublished := false);
    var q6 := q4.(ckptFile := Some(CkptText(n)), phase := Saved(n));
    assert LoadCkpt(None) == 0 by { assert LoadCkpt(q0.ckptFile) == 0 by { NoCkpt(); } }
    assert QueueSteps.Step(q0, run[0]) == q1;
    assert "" + wal == wal;
    assert QueueSteps.Step(q1, run[1]) == q2;
    ReadOnlyLine(q2, p);
    assert QueueSteps.Step(q2, run[2]) == q3;
    assert QueueSteps.Step(q3, run[3]) == q4;
    CheckpointThenCrash(q4, q6);
    hide QueueSteps.Step;
    var q8 := QueueSteps.Step(QueueSteps.Step(q6, run[6]), run[7]);
    UnrollAll(q0, run, p, q1, q2, q3, q4, q6, q8);
  }

  lemma CheckpointThenCrash(q: Queue, s: Queue)
    requires q.up && q.phase == Idle && q.sentPos != q.ackPos && |q.wal| == q.sentPos
    requires s == q.(ckptFile := Some(CkptText(q.sentPos)), phase := Saved(q.sentPos))
    ensures QueueSteps.Step(QueueSteps.Step(q, CkptHold), CkptSave) == s
    ensures var r := QueueSteps.Step(QueueSteps.Step(s, Crash), Restart);
            && r.up && r.cursor == r.writePos && r.chan == [] && r.taken == q.taken && r.handed == q.handed
  {
    CkptRoundTrip(q.sentPos);
    hide LoadCkpt, CkptText;
  }

  lemma NoCkpt()
    ensures LoadCkpt(None) == 0
  {
  }

  lemma UnrollAll(q0: Queue, run: seq<Action>, p: Point, q1: Queue, q2: Queue, q3: Queue, q4: Queue, q6: Queue, q8: Queue)
    requires run == [Restart, Write(p), Read, Publish, CkptHold, CkptSave, Crash, Restart]
    requires QueueSteps.Step(q0, run[0]) == q1 && QueueSteps.Step(q1, run[1]) == q2 && Accepts(q1, p)
    requires QueueSteps.Step(q2, run[2]) == q3 && QueueSteps.Step(q3, run[3]) == q4
    requires QueueSteps.Step(QueueSteps.Step(q4, run[4]), run[5]) == q6
    requires QueueSteps.Step(QueueSteps.Step(q6, run[6]), run[7]) == q8
    ensures Exec(q0, run) == q8 && Accepted(q0, run) == [p]
  {
    hide QueueSteps.Step, Exec, Accepted, Accepts;
    UnrollTail(q4, run, q6, q8);
    Unroll(q0, run, 0);
    Unroll(q1, run, 1);
    Unroll(q2, run, 2);
    Unroll(q3, run, 3);
    assert run[0..] == run;
  }

  lemma UnrollTail(q4: Queue, run: seq<Action>, q6: Queue, q8: Queue)
    requires |run| == 8 && run[4] == CkptHold && run[5] == CkptSave && run[6] == Crash && run[7] == Restart
    requires QueueSteps.Step(QueueSteps.Step(q4, run[4]), run[5]) == q6
    requires QueueSteps.Step(QueueSteps.Step(q6, run[6]), run[7]) == q8
    ensures Exec(q4, run[4..]) == q8 && Accepted(q4, run[4..]) == []
  {
    hide QueueSteps.Step, Exec, Accepted, Accepts;
    Unroll(q4, run, 4);
    Unroll(QueueSteps.Step(q4, run[4]), run, 5);
    Unroll(q6, run, 6);
    Unroll(QueueSteps.Step(q6, run[6]), run, 7);
    assert run[8..] == [];
    EmptyRun(q8);
  }

  lemma EmptyRun(q: Queue)
    ensures Exec(q, []) == q && Accepted(q, []) == []
  {
  }

  lemma Unroll(q: Queue, run: seq<Action>, k: nat)
    requires k < |run|
    ensures Exec(q, run[k..]) == Exec(QueueSteps.Step(q, run[k]), run[k + 1..])
    ensures Accepted(q, run[k..])
         == (if run[k].Write? && Accepts(q, run[k].p) then [run[k].p] else [])
            + Accepted(QueueSteps.Step(q, run[k]), run[k + 1..])
  {
    assert run[k..][1..] == run[k + 1..];
  }
}
