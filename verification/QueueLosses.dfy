/** Which runs of the disk queue lose lines, and that they happen (diskqueue.go): from
    the files on disk to a point that Write accepted and nobody is ever handed. */
module QueueLosses {
  import opened Wrappers
  import opened WalFrame
  import opened WalCodec
  import opened QueueAsWritten
  import Q = QueueSteps

  type Point = Q.Point

  // ---- what stays lost ---------------------------------------------------------------------

  lemma ExecSnoc(s: State, run: seq<Act>, a: Act)
    ensures Exec(s, run + [a]) == Step(Exec(s, run), a)
  {
    assert (run + [a])[..|run|] == run;
  }

  lemma ExecOfNothing(s: State, a: seq<Act>)
    ensures Exec(s, []) == s && a + [] == a
  {
  }

  lemma LastOfSum(a: seq<Act>, b: seq<Act>)
    requires b != []
    ensures a + b == (a + b[..|b| - 1]) + [b[|b| - 1]] && b == b[..|b| - 1] + [b[|b| - 1]]
    ensures (a + b)[..|a + b| - 1] == a + b[..|b| - 1] && (a + b)[|a + b| - 1] == b[|b| - 1]
  {
  }

  lemma {:induction false} ExecOfSum(s: State, a: seq<Act>, b: seq<Act>)
    ensures Exec(s, a + b) == Exec(Exec(s, a), b)
  {
    hide *;
    if b == [] {
      ExecOfNothing(Exec(s, a), a);
    } else {
      var before, last := b[..|b| - 1], b[|b| - 1];
      LastOfSum(a, b);
      ExecOfSum(s, a, before);
      ExecSnoc(s, a + before, last);
      ExecSnoc(Exec(s, a), before, last);
    }
  }

  predicate NoRestart(run: seq<Act>) {
    forall a :: a in run ==> !a.Restart?
  }

  /** Until the next restart a doomed line stays doomed, so nobody is handed it. */
  lemma {:induction false} DoomedStays(s: State, run: seq<Act>, i: nat)
    requires Inv(s) && Doomed(s, i) && NoRestart(run)
    ensures Doomed(Exec(s, run), i)
  {
    if run != [] {
      var n := |run| - 1;
      assert run[n] in run && NoRestart(run[..n]);
      hide Inv, Doomed, Step, LostBy;
      DoomedStays(s, run[..n], i);
      RunKeepsInv(s, run[..n]);
      StepDooms(Exec(s, run[..n]), run[n], i);
    }
  }

  /** The line begins nowhere any more: not in the file, not in what the reader
      holds, not in the checkpointer's copy. */
  predicate Vanished(s: State, i: nat) {
    && i < |s.log| && i !in s.gone
    && !Begins(s.path, i) && !Begins(Secured(s), i)
    && (s.job.Swapping? ==> !Begins(s.job.copy, i))
  }

  lemma BeginsFrom(f: File, at: nat, i: nat)
    requires Begins(From(f, at), i)
    ensures Begins(f, i)
  {
  }

  lemma VanishedIsDoomed(s: State, i: nat)
    requires Vanished(s, i)
    ensures Doomed(s, i)
  {
    hide From, Begins, Secured, Frontier;
    if Begins(From(s.path, Frontier(s)), i) {
      BeginsFrom(s.path, Frontier(s), i);
    }
  }

  /** The file and the copy gain no line but new ones. */
  lemma FilesGainNothing(s: State, a: Act, i: nat)
    requires i < |s.log| && !Begins(s.path, i) && (s.job.Swapping? ==> !Begins(s.job.copy, i))
    ensures var t := Step(s, a); !Begins(t.path, i) && (t.job.Swapping? ==> !Begins(t.job.copy, i)) && |s.log| <= |t.log|
  {
    if a.Write? && Accepts(s, a.p) {
      var log := s.log + [Encode(a.p).value];
      LineBegins(log, |s.log|, 0, i);
      BeginsInSum(s.path, LineFrom(log, |s.log|, 0), i);
    }
    if a.Copy? && s.job.Copying? && Begins(From(s.path, s.job.ack), i) {
      BeginsFrom(s.path, s.job.ack, i);
    }
    hide From, LineFrom, Encode, Decode, TokenText, TokenLength, Cells, Inode, Begins;
    assert a.Truncate? && s.job.Draining? ==> !Begins([], i) by {
      NothingBegins(i);
    }
  }

  lemma NothingBegins(i: nat)
    ensures !Begins([], i)
  {
  }

  lemma StepKeepsVanished(s: State, a: Act, i: nat)
    requires Inv(s) && Vanished(s, i)
    ensures Vanished(Step(s, a), i)
  {
    FilesGainNothing(s, a, i);
    if a.Restart? {
      assert Secured(DoRestart(s)) == [];
      NothingBegins(i);
      hide Begins, Secured, Inv;
    } else {
      VanishedIsDoomed(s, i);
      hide Inv, Begins, Secured, LostBy, From, Frontier, Step;
      StepDooms(s, a, i);
    }
  }

  /** Whatever happens later, crashes and restarts included, nobody is handed it. */
  lemma {:induction false} VanishedStays(s: State, run: seq<Act>, i: nat)
    requires Inv(s) && Vanished(s, i)
    ensures Vanished(Exec(s, run), i)
  {
    if run != [] {
      var n := |run| - 1;
      hide Inv, Vanished, Step;
      VanishedStays(s, run[..n], i);
      RunKeepsInv(s, run[..n]);
      StepKeepsVanished(Exec(s, run[..n]), run[n], i);
    }
  }

  // ---- a swap ------------------------------------------------------------------------------

  function Pos(r: Reader): nat {
    r.pos
  }

  /** No offset the checkpointer knows is past the reader's count, which a compaction
      never takes back. */
  predicate Behind(s: State) {
    && s.sentPos <= Pos(s.reader) && s.ackPos <= Pos(s.reader)
    && (s.job.Held? || s.job.Kept? ==> s.job.at <= Pos(s.reader))
    && (s.job.Copying? || s.job.Swapping? ==> s.job.ack <= Pos(s.reader))
  }

  lemma StepKeepsBehind(s: State, a: Act)
    requires Behind(s)
    ensures Behind(Step(s, a))
  {
    hide Encode, Decode, TokenText, TokenLength, Cells, From, LineFrom, Accepts, Inode;
  }

  lemma {:induction false} RunKeepsBehind(s: State, run: seq<Act>)
    requires Behind(s)
    ensures Behind(Exec(s, run))
  {
    if run != [] {
      var n := |run| - 1;
      RunKeepsBehind(s, run[..n]);
      hide Behind, Step;
      StepKeepsBehind(Exec(s, run[..n]), run[n]);
    }
  }

  /** After a swap that cut off more than it kept, whatever the reader is doing, the
      next point written is lost although Write returns nil: the reader goes on
      from an offset past the end of the shortened file. */
  lemma WriteAfterSwapIsLost(s: State, p: Point)
    requires Inv(s) && Behind(s) && s.job.Swapping? && |s.job.copy| < s.job.ack && Accepts(DoSwap(s), p)
    ensures Loses(DoSwap(s), Act.Write(p)) && Doomed(DoWrite(DoSwap(s), p), |s.log|)
  {
    var t := DoSwap(s);
    CompactKeepsInv(s, Swap);
    assert Frontier(t) >= Pos(s.reader);
    WriteDooms(t, p, |s.log|);
    hide Frontier, Inv, Encode, Secured, From;
  }

  /** And by the 80% rule every swap is such a one, unless the file grew by three
      fifths of its size between the decision and the copy. */
  lemma CopyIsShort(s: State, t: State)
    requires Inv(s) && s.job.Deciding? && DoDecide(s).job.Copying?
    requires t.job == DoDecide(s).job && 5 * |t.path| < 8 * |s.path| && t.job.ack <= |t.path|
    ensures |Step(t, Copy).job.copy| < t.job.ack
  {
    hide Regular;
  }

  /** In any run of writer, reader, checkpointer and crashes, the point written after
      such a swap is accepted and doomed, and nobody is handed it until the agent
      restarts. */
  lemma WriteAfterAnySwapIsLost(s: State, run: seq<Act>, p: Point, more: seq<Act>)
    requires Inv(s) && Behind(s) && NoRestart(more)
    requires var t := Exec(s, run); t.job.Swapping? && |t.job.copy| < t.job.ack && Accepts(DoSwap(t), p)
    ensures var n := |Exec(s, run).log|; var run' := run + [Swap, Act.Write(p)];
      && Exec(s, run').log == Exec(s, run).log + [Encode(p).value]
      && Doomed(Exec(s, run'), n)
      && n !in Exec(s, run' + more).gone
  {
    hide *;
    var t, run' := Exec(s, run), run + [Swap, Act.Write(p)];
    RunKeepsInv(s, run);
    RunKeepsInv(s, run');
    RunKeepsBehind(s, run);
    SwapThenWrite(s, run, p);
    WriteAfterSwapIsLost(t, p);
    WriteAppends(DoSwap(t), p);
    SwapKeepsLog(t);
    DoomedStays(Exec(s, run'), more, |t.log|);
    ExecOfSum(s, run', more);
    DoomedIsNotGone(Exec(s, run' + more), |t.log|);
  }

  lemma WriteAppends(s: State, p: Point)
    requires Accepts(s, p)
    ensures Encode(p).Some? && DoWrite(s, p).log == s.log + [Encode(p).value]
  {
    hide Encode;
  }

  lemma SwapKeepsLog(s: State)
    ensures DoSwap(s).log == s.log
  {
  }

  lemma SwapAndWrite(s: State, p: Point)
    ensures Step(s, Swap) == DoSwap(s) && Step(s, Act.Write(p)) == DoWrite(s, p)
  {
    hide DoSwap, DoWrite;
  }

  lemma SwapThenWrite(s: State, run: seq<Act>, p: Point)
    ensures Exec(s, run + [Swap, Act.Write(p)]) == DoWrite(DoSwap(Exec(s, run)), p)
  {
    hide *;
    assert run + [Swap, Act.Write(p)] == (run + [Swap]) + [Act.Write(p)];
    ExecSnoc(s, run, Swap);
    ExecSnoc(s, run + [Swap], Act.Write(p));
    SwapAndWrite(Exec(s, run), p);
    SwapAndWrite(DoSwap(Exec(s, run)), p);
  }

  /** The files on disk are such a start. */
  lemma StartIsBehind(maxBytes: nat, lines: seq<string>, first: nat)
    requires CleanLines(lines) && first <= |lines|
    ensures Inv(StartState(maxBytes, lines, first)) && Behind(StartState(maxBytes, lines, first))
  {
    StartFits(maxBytes, lines, first);
    hide Inv;
  }

  lemma DoomedIsNotGone(s: State, i: nat)
    requires Doomed(s, i)
    ensures i !in s.gone
  {
  }

  /** From the decision to the copy, nothing else moving. */
  lemma TickToCopy(s: State)
    requires s.job == Resting && s.sentPos == s.ackPos && Q.WorthCompacting(s.writePos, s.ackPos) && s.ackPos < s.writePos
    ensures Step(Step(Step(s, Tick), Decide), Copy) == s.(job := Swapping(s.ackPos, From(s.path, s.ackPos)))
  {
  }

  /** The checkpoint lies within the last fifth of the file, and the rest of the file
      leaves room. */
  predicate DueForCompaction(s: State) {
    0 < s.ckpt < |s.path| && 10 * s.ckpt >= 8 * |s.path| && |s.path| - s.ckpt < s.maxBytes
  }

  /** It happens: an agent started on such files compacts at its first tick, and the
      next point it accepts is handed to nobody while it runs. */
  lemma FirstCompactionLosesAPoint(maxBytes: nat, lines: seq<string>, first: nat, p: Point, more: seq<Act>)
    requires CleanLines(lines) && first <= |lines| && DueForCompaction(StartState(maxBytes, lines, first))
    requires Encode(p).Some? && NoRestart(more)
    ensures var s := StartState(maxBytes, lines, first); var run := [Tick, Decide, Copy] + [Swap, Act.Write(p)];
      && Accepted(s, run) == [p] && Exec(s, run).log == lines + [Encode(p).value]
      && Doomed(Exec(s, run), |lines|)
      && |lines| !in Exec(s, run + more).gone
  {
    hide *;
    var s, run := StartState(maxBytes, lines, first), [Tick, Decide, Copy];
    StartIsBehind(maxBytes, lines, first);
    StartTicks(maxBytes, lines, first, p);
    NoWritesBefore();
    WriteAfterAnySwapIsLost(s, run, p, more);
    SwapThenWriteAccepts(s, run, p);
  }

  lemma NoWritesSnoc(run: seq<Act>, a: Act)
    requires NoWrites(run) && !a.Write?
    ensures NoWrites(run + [a])
  {
  }

  lemma NoWritesBefore()
    ensures NoWrites([Tick, Decide, Copy])
  {
  }

  predicate NoWrites(run: seq<Act>) {
    forall a :: a in run ==> !a.Write?
  }

  lemma SwapThenWriteAccepts(s: State, run: seq<Act>, p: Point)
    requires NoWrites(run) && Accepts(DoSwap(Exec(s, run)), p)
    ensures Accepted(s, run + [Swap, Act.Write(p)]) == [p]
  {
    hide *;
    NoWritesSnoc(run, Swap);
    ExecSnoc(s, run, Swap);
    SwapAndWrite(Exec(s, run), p);
    AcceptsOnce(s, run + [Swap], p);
    assert run + [Swap] + [Act.Write(p)] == run + [Swap, Act.Write(p)];
  }

  /** Up to the swap. */
  lemma StartTicks(maxBytes: nat, lines: seq<string>, first: nat, p: Point)
    requires CleanLines(lines) && first <= |lines| && DueForCompaction(StartState(maxBytes, lines, first)) && Encode(p).Some?
    ensures var t := Exec(StartState(maxBytes, lines, first), [Tick, Decide, Copy]);
      && t.job.Swapping? && |t.job.copy| < t.job.ack && t.log == lines && Accepts(DoSwap(t), p)
  {
    hide Encode, FileOf, Exec, Step;
    var s := StartState(maxBytes, lines, first);
    TickToCopy(s);
    ThreeSteps(s, Tick, Decide, Copy);
  }

  lemma ThreeSteps(s: State, a: Act, b: Act, c: Act)
    ensures Exec(s, [a, b, c]) == Step(Step(Step(s, a), b), c)
  {
    assert [a, b, c] == [] + [a] + [b] + [c] && Exec(s, []) == s;
    hide *;
    ExecSnoc(s, [], a);
    ExecSnoc(s, [] + [a], b);
    ExecSnoc(s, [] + [a] + [b], c);
  }

  lemma AcceptedOfNothing(s: State, a: seq<Act>)
    ensures Accepted(s, []) == [] && a + [] == a
    ensures forall points: seq<Point> :: points + [] == points
  {
  }

  lemma Regroup(x: seq<Point>, y: seq<Point>, z: seq<Point>)
    ensures (x + y) + z == x + (y + z)
  {
  }

  lemma {:induction false} AcceptedOfSum(s: State, a: seq<Act>, b: seq<Act>)
    ensures Accepted(s, a + b) == Accepted(s, a) + Accepted(Exec(s, a), b)
  {
    hide *;
    if b == [] {
      AcceptedOfNothing(Exec(s, a), a);
    } else {
      var before, now := b[..|b| - 1], AcceptedNow(Exec(s, a + b[..|b| - 1]), b[|b| - 1]);
      LastOfSum(a, b);
      AcceptedSnoc(s, a + b);
      AcceptedSnoc(Exec(s, a), b);
      AcceptedOfSum(s, a, before);
      ExecOfSum(s, a, before);
      Regroup(Accepted(s, a), Accepted(Exec(s, a), before), now);
    }
  }

  /** Steps without a write, then one that is accepted. */
  lemma AcceptsOnce(s: State, run: seq<Act>, p: Point)
    requires NoWrites(run) && Accepts(Exec(s, run), p)
    ensures Accepted(s, run + [Act.Write(p)]) == [p]
  {
    assert (run + [Act.Write(p)])[..|run|] == run;
    AcceptedSnoc(s, run + [Act.Write(p)]);
    hide *;
    AcceptsNone(s, run);
    WriteIsAccepted(Exec(s, run), p);
  }

  lemma WriteIsAccepted(s: State, p: Point)
    requires Accepts(s, p)
    ensures AcceptedNow(s, Act.Write(p)) == [p] && [] + [p] == [p]
  {
    hide Accepts;
  }

  lemma AcceptedSnoc(s: State, run: seq<Act>)
    requires run != []
    ensures Accepted(s, run) == Accepted(s, run[..|run| - 1]) + AcceptedNow(Exec(s, run[..|run| - 1]), run[|run| - 1])
  {
    hide Exec, AcceptedNow;
  }

  lemma {:induction false} AcceptsNone(s: State, run: seq<Act>)
    requires NoWrites(run)
    ensures Accepted(s, run) == []
  {
    hide Exec;
    if run != [] {
      AcceptsNone(s, run[..|run| - 1]);
      assert run[|run| - 1] in run;
    }
  }

  // ---- a stale offset ----------------------------------------------------------------------

  /** A reader that was in mid-pass at the swap publishes an offset of the old file.
      At the next tick that stale offset passes for the whole of the new file, which
      is emptied: a line written since and not held by the reader has vanished. */
  lemma StaleOffsetEmptiesTheFile(s: State, i: nat)
    requires s.job == Resting && 0 < s.writePos <= s.sentPos && s.sentPos != s.ackPos
    requires i < |s.log| && i !in s.gone && !Begins(Secured(s), i)
    ensures var t := Exec(s, [Tick, Save, Ack] + [Decide, Truncate]);
      t.path == [] && t.log == s.log && Vanished(t, i)
  {
    var t := s.(path := [], writePos := 0, ckpt := s.sentPos, sentPos := 0, ackPos := 0, job := Resetting);
    TickToTruncate(s);
    assert Secured(t) == Secured(s);
    NothingBegins(i);
    hide Begins, Secured, Exec;
  }

  lemma TickToTruncate(s: State)
    requires s.job == Resting && 0 < s.writePos <= s.sentPos && s.sentPos != s.ackPos
    ensures Exec(s, [Tick, Save, Ack] + [Decide, Truncate])
         == s.(path := [], writePos := 0, ckpt := s.sentPos, sentPos := 0, ackPos := 0, job := Resetting)
  {
    var u := s.(ckpt := s.sentPos, ackPos := s.sentPos, job := Deciding);
    Acknowledges(s);
    Truncates(u);
    hide *;
    ThreeSteps(s, Tick, Save, Ack);
    ExecOfSum(s, [Tick, Save, Ack], [Decide, Truncate]);
    TwoSteps(u, Decide, Truncate);
  }

  lemma Acknowledges(s: State)
    requires s.job == Resting && s.sentPos != s.ackPos
    ensures Step(Step(Step(s, Tick), Save), Ack) == s.(ckpt := s.sentPos, ackPos := s.sentPos, job := Deciding)
  {
  }

  lemma Truncates(s: State)
    requires s.job == Deciding && 0 < s.writePos <= s.ackPos
    ensures Step(Step(s, Decide), Truncate) == s.(path := [], writePos := 0, sentPos := 0, ackPos := 0, job := Resetting)
  {
  }

  lemma TwoSteps(s: State, a: Act, b: Act)
    ensures Exec(s, [a, b]) == Step(Step(s, a), b)
  {
    assert [a, b] == [] + [a] + [b] && Exec(s, []) == s;
    hide *;
    ExecSnoc(s, [], a);
    ExecSnoc(s, [] + [a], b);
  }

  lemma SliceBehind(f: File, a: File, line: File)
    requires a + line <= f
    ensures |a| + |line| <= |f| && From(f, |a|)[..|line|] == line
  {
    assert f[..|a| + |line|] == a + line;
  }

  /** Where line i stands in the file. */
  lemma LineInFile(log: seq<string>, i: nat)
    requires i < |log|
    ensures var at := |FileOf(log, i)|;
      && at + |log[i]| + 1 <= |FileOf(log, |log|)|
      && From(FileOf(log, |log|), at)[..|log[i]| + 1] == LineFrom(log, i, 0)
  {
    assert FileOf(log, i + 1) == FileOf(log, i) + LineFrom(log, i, 0);
    hide *;
    FileIsPrefix(log, i + 1, |log|);
    SliceBehind(FileOf(log, |log|), FileOf(log, i), LineFrom(log, i, 0));
  }

  /** A pass begins and reads one line ahead. */
  lemma OpensAndFills(s: State, n: nat, line: File)
    requires s.reader.Waiting? && 0 < n && s.reader.pos + n <= |s.path| && From(s.path, s.reader.pos)[..n] == line
    requires IsCell(s.log, line[n - 1]) && IsNewline(s.log, line[n - 1])
    ensures var at := s.reader.pos;
      Step(Step(s, Open), Fill(n)) == s.(reader := Passing(None, at + n, line, false, at, Free))
  {
    var unread := From(s.path, s.reader.pos);
    assert unread != [] && unread[n - 1] == line[n - 1];
    hide From, IsCell, IsNewline;
  }

  lemma LastCell(log: seq<string>, i: nat)
    requires i < |log|
    ensures var line := LineFrom(log, i, 0);
      |line| == |log[i]| + 1 && IsCell(log, line[|line| - 1]) && IsNewline(log, line[|line| - 1])
  {
  }

  /** The reader begins a pass and has the line behind the checkpoint in hand. */
  lemma ReaderTakesLine(s: State, i: nat)
    requires i < |s.log| && Decode(s.log[i]).Some?
    requires s.path == FileOf(s.log, |s.log|) && s.reader == Waiting(|FileOf(s.log, i)|)
    ensures var at := |FileOf(s.log, i)|; var n := |s.log[i]| + 1;
      && at + n <= |s.path|
      && Exec(s, [Open, Fill(n), Scan])
           == s.(reader := Passing(None, at + n, [], false, at + n, Sending(LineFrom(s.log, i, 0))))
  {
    hide *;
    var at, n, line := |FileOf(s.log, i)|, |s.log[i]| + 1, LineFrom(s.log, i, 0);
    var t := s.(reader := Passing(None, at + n, line, false, at, Free));
    LineInFile(s.log, i);
    LastCell(s.log, i);
    OpensAndFills(s, n, line);
    ScanTakesLine(t, i);
    ThreeSteps(s, Open, Fill(n), Scan);
    ScanIs(t);
  }

  lemma ScanIs(s: State)
    ensures Step(s, Scan) == DoScan(s)
  {
    hide DoScan;
  }

  lemma AllOf(f: File)
    ensures f[..|f|] == f && f[|f|..] == []
  {
  }

  /** A whole line is its own first token. */
  lemma LineIsToken(log: seq<string>, i: nat)
    requires i < |log|
    ensures var line := LineFrom(log, i, 0); var n := |log[i]| + 1;
      && |line| == n && Cells(log, line) && TokenLength(log, line) == n && TokenText(log, line) == log[i]
      && line[..n] == line && line[n..] == []
  {
    var line := LineFrom(log, i, 0);
    assert line[0] == Cell(i, 0);
    LineIsRegular(log, i, 0);
    hide *;
    TokenIs(log, line);
    TextOfLine(log, i, 0);
    AllOf(line);
  }

  lemma ScanTakesLine(s: State, i: nat)
    requires s.reader.Passing? && s.reader.hand == Free && i < |s.log| && Decode(s.log[i]).Some?
    requires s.reader.buf == LineFrom(s.log, i, 0)
    ensures DoScan(s) == s.(reader := s.reader.(buf := [], pos := s.reader.pos + |s.log[i]| + 1, hand := Sending(LineFrom(s.log, i, 0))))
  {
    hide LineFrom, Decode, TokenText, TokenLength, Cells;
    LineIsToken(s.log, i);
  }

  // ---- from the files on disk to a point lost for good -----------------------------------------

  /** The acknowledged part of the file cut off under an open pass, the checkpoint
      reset, and a point written. */
  function Cut(s: State, p: Point): State
    requires s.reader.Passing? && Encode(p).Some?
  {
    var copy, log := From(s.path, s.ackPos), s.log + [Encode(p).value];
    s.(log := log, path := copy + LineFrom(log, |s.log|, 0), writePos := |copy| + |Encode(p).value| + 1,
       ckpt := 0, sentPos := 0, ackPos := 0, reader := s.reader.(detached := Some(s.path)), job := Resting)
  }

  /** A pass over the live file is under way, and the next tick will cut it. */
  predicate Cuttable(s: State) {
    && s.reader.Passing? && s.reader.detached.None? && s.job == Resting && s.sentPos == s.ackPos
    && Q.WorthCompacting(s.writePos, s.ackPos) && s.ackPos < s.writePos == |s.path| && |s.path| - s.ackPos < s.maxBytes
  }

  lemma CutAndWrite(s: State, p: Point)
    requires Cuttable(s) && Encode(p).Some?
    ensures Exec(s, [Tick, Decide, Copy] + [Swap, Reset, Act.Write(p)]) == Cut(s, p)
  {
    var t := s.(job := Swapping(s.ackPos, From(s.path, s.ackPos)));
    TickToCopy(s);
    SwapResetWrite(t, p);
    assert Step(Step(Step(t, Swap), Reset), Act.Write(p)) == Cut(s, p);
    hide *;
    ThreeSteps(s, Tick, Decide, Copy);
    ThreeSteps(t, Swap, Reset, Act.Write(p));
    ExecOfSum(s, [Tick, Decide, Copy], [Swap, Reset, Act.Write(p)]);
  }

  lemma SwapResetWrite(s: State, p: Point)
    requires s.reader.Passing? && s.reader.detached.None? && s.job.Swapping? && s.sentPos <= s.job.ack
    requires Encode(p).Some? && |s.job.copy| < s.maxBytes
    ensures var copy, log := s.job.copy, s.log + [Encode(p).value];
      Step(Step(Step(s, Swap), Reset), Act.Write(p))
      == s.(log := log, path := copy + LineFrom(log, |s.log|, 0), writePos := |copy| + |Encode(p).value| + 1,
            ckpt := 0, sentPos := 0, ackPos := 0, reader := s.reader.(detached := Some(s.path)), job := Resting)
  {
    hide Encode, LineFrom;
  }

  /** The reader hands its line over and publishes its count. */
  lemma SendAndPublish(s: State, i: nat)
    requires s.reader.Passing? && i < |s.log| && s.reader.hand == Sending(LineFrom(s.log, i, 0))
    requires s.waiting < Q.OUT_CAPACITY && Decode(s.log[i]).Some?
    ensures Exec(s, [Send, Publish])
         == s.(reader := s.reader.(hand := Free), waiting := s.waiting + 1, handed := s.handed + [Decode(s.log[i]).value],
               gone := s.gone + {i}, sentPos := s.reader.pos)
  {
    var line := LineFrom(s.log, i, 0);
    TextOfLine(s.log, i, 0);
    assert line[0] == Cell(i, 0) && Whole(line) == {i};
    hide LineFrom, Decode, TokenText, Exec;
    TwoSteps(s, Send, Publish);
  }

  /** A pass begins; the file is cut under it; a point is written; the pass publishes
      its count; the next tick empties the file. */
  function StaleRun(n: nat, p: Point): seq<Act> {
    [Open, Fill(n), Scan] + ([Tick, Decide, Copy] + [Swap, Reset, Act.Write(p)]) + [Send, Publish]
    + ([Tick, Save, Ack] + [Decide, Truncate])
  }

  lemma CutAndWriteAccepts(s: State, p: Point)
    requires Cuttable(s) && Encode(p).Some?
    ensures Accepted(s, [Tick, Decide, Copy] + [Swap, Reset, Act.Write(p)]) == [p]
  {
    var t := s.(job := Swapping(s.ackPos, From(s.path, s.ackPos)));
    TickToCopy(s);
    SwapResetAccepts(t, p);
    assert NoWrites([Tick, Decide, Copy] + [Swap, Reset]);
    hide *;
    ThreeSteps(s, Tick, Decide, Copy);
    TwoSteps(t, Swap, Reset);
    ExecOfSum(s, [Tick, Decide, Copy], [Swap, Reset]);
    AcceptsOnce(s, [Tick, Decide, Copy] + [Swap, Reset], p);
    assert [Tick, Decide, Copy] + [Swap, Reset] + [Act.Write(p)] == [Tick, Decide, Copy] + [Swap, Reset, Act.Write(p)];
  }

  lemma SwapResetAccepts(s: State, p: Point)
    requires s.job.Swapping? && Encode(p).Some? && |s.job.copy| < s.maxBytes
    ensures Accepts(Step(Step(s, Swap), Reset), p)
  {
    hide Encode;
  }

  lemma StaleRunAccepts(s: State, n: nat, p: Point)
    requires Accepted(Exec(s, [Open, Fill(n), Scan]), [Tick, Decide, Copy] + [Swap, Reset, Act.Write(p)]) == [p]
    ensures Accepted(s, StaleRun(n, p)) == [p]
  {
    NoWritesAround(n);
    AcceptedBetween(s, [Open, Fill(n), Scan], [Tick, Decide, Copy] + [Swap, Reset, Act.Write(p)],
                    [Send, Publish], [Tick, Save, Ack] + [Decide, Truncate]);
    hide Accepted, Exec, NoWrites;
  }

  lemma NoWritesAround(n: nat)
    ensures NoWrites([Open, Fill(n), Scan]) && NoWrites([Send, Publish]) && NoWrites([Tick, Save, Ack] + [Decide, Truncate])
  {
  }

  lemma AcceptedBetween(s: State, a: seq<Act>, b: seq<Act>, c: seq<Act>, d: seq<Act>)
    requires NoWrites(a) && NoWrites(c) && NoWrites(d)
    ensures Accepted(s, a + b + c + d) == Accepted(Exec(s, a), b)
  {
    AcceptsNone(s, a);
    AcceptsNone(Exec(s, a + b), c);
    AcceptsNone(Exec(s, a + b + c), d);
    hide *;
    AcceptedOfSum(s, a, b);
    AcceptedOfSum(s, a + b, c);
    AcceptedOfSum(s, a + b + c, d);
    NothingAround(Accepted(Exec(s, a), b));
  }

  lemma NothingAround(points: seq<Point>)
    ensures [] + points == points && points + [] == points
  {
  }

  /** A reader about to take line i, and a checkpointer about to cut the file. */
  predicate Ripe(s: State, i: nat) {
    && i < |s.log| && Decode(s.log[i]).Some?
    && s.path == FileOf(s.log, |s.log|) && s.reader == Waiting(|FileOf(s.log, i)|)
    && s.job == Resting && s.sentPos == s.ackPos == |FileOf(s.log, i)| && s.waiting == 0
    && Q.WorthCompacting(s.writePos, s.ackPos) && s.ackPos < s.writePos == |s.path| && |s.path| - s.ackPos < s.maxBytes
  }

  /** Line i in the reader's hand. */
  function Taken(s: State, i: nat): State
    requires i < |s.log|
  {
    var next := s.ackPos + |s.log[i]| + 1;
    s.(reader := Passing(None, next, [], false, next, Sending(LineFrom(s.log, i, 0))))
  }

  lemma TakenIsCuttable(s: State, i: nat)
    requires Ripe(s, i)
    ensures Cuttable(Taken(s, i))
  {
    hide FileOf, LineFrom, Decode;
  }

  lemma TakenIs(s: State, i: nat)
    requires Ripe(s, i)
    ensures i < |s.log| && Decode(s.log[i]).Some? && s.path == FileOf(s.log, |s.log|) && s.reader == Waiting(|FileOf(s.log, i)|)
    ensures var next := |FileOf(s.log, i)| + |s.log[i]| + 1;
      Taken(s, i) == s.(reader := Passing(None, next, [], false, next, Sending(LineFrom(s.log, i, 0))))
  {
    hide FileOf, LineFrom, Decode;
  }

  lemma RipeIsCuttable(s: State, i: nat)
    requires Ripe(s, i)
    ensures i < |s.log| && Exec(s, [Open, Fill(|s.log[i]| + 1), Scan]) == Taken(s, i) && Cuttable(Taken(s, i))
  {
    hide *;
    TakenIs(s, i);
    TakenIsCuttable(s, i);
    ReaderTakesLine(s, i);
  }

  lemma CutIsSendable(s: State, i: nat, p: Point)
    requires Ripe(s, i) && Encode(p).Some?
    ensures var t := Cut(Taken(s, i), p);
      && Exec(t, [Send, Publish])
           == t.(reader := t.reader.(hand := Free), waiting := 1, handed := t.handed + [Decode(s.log[i]).value],
                 gone := t.gone + {i}, sentPos := t.reader.pos)
  {
    var t := Cut(Taken(s, i), p);
    LineOfLonger(s.log, Encode(p).value, i, 0);
    assert t.log[i] == s.log[i];
    hide Exec, FileOf, LineFrom, Decode, Encode;
    SendAndPublish(t, i);
  }

  /** Up to the reader's publication of the old file's offset. */
  lemma StaleOffsetIsPublished(s: State, i: nat, p: Point)
    requires Ripe(s, i) && Encode(p).Some?
    ensures var n := |s.log[i]| + 1; var run := [Open, Fill(n), Scan] + ([Tick, Decide, Copy] + [Swap, Reset, Act.Write(p)]);
      Exec(s, run + [Send, Publish]) == Exec(Cut(Taken(s, i), p), [Send, Publish])
      && Accepted(Exec(s, [Open, Fill(n), Scan]), [Tick, Decide, Copy] + [Swap, Reset, Act.Write(p)]) == [p]
  {
    hide *;
    RipeIsCuttable(s, i);
    var n := |s.log[i]| + 1;
    CutAndWrite(Taken(s, i), p);
    CutAndWriteAccepts(Taken(s, i), p);
    ExecOfSum(s, [Open, Fill(n), Scan], [Tick, Decide, Copy] + [Swap, Reset, Act.Write(p)]);
    ExecOfSum(s, [Open, Fill(n), Scan] + ([Tick, Decide, Copy] + [Swap, Reset, Act.Write(p)]), [Send, Publish]);
  }

  lemma CutIs(s: State, i: nat, p: Point)
    requires Ripe(s, i) && Encode(p).Some?
    ensures var t := Cut(Taken(s, i), p); var next := s.ackPos + |s.log[i]| + 1;
      && t.log == s.log + [Encode(p).value] && t.gone == s.gone && t.job == Resting && t.ackPos == 0
      && t.writePos == |s.path| - s.ackPos + |Encode(p).value| + 1
      && t.reader.(hand := Free) == Passing(Some(s.path), next, [], false, next, Free)
  {
    hide FileOf, LineFrom, Decode, Encode;
  }

  lemma PublishedIs(s: State, i: nat, p: Point)
    requires Ripe(s, i) && Encode(p).Some?
    ensures var t := Exec(Cut(Taken(s, i), p), [Send, Publish]); var next := s.ackPos + |s.log[i]| + 1;
      && t.log == s.log + [Encode(p).value] && t.gone == s.gone + {i}
      && t.job == Resting && t.ackPos == 0 && t.sentPos == next
      && t.writePos == |s.path| - s.ackPos + |Encode(p).value| + 1
      && t.reader == Passing(Some(s.path), next, [], false, next, Free)
  {
    assert i < |s.log|;
    hide *;
    CutIs(s, i, p);
    CutIsSendable(s, i, p);
  }

  /** It happens, and for good: a compaction under a reader that has a point in hand
      makes the agent empty the new file, and a point accepted in between is handed to
      nobody, crashes and restarts included. */
  lemma StaleOffsetLosesForGood(maxBytes: nat, lines: seq<string>, first: nat, p: Point, more: seq<Act>)
    requires CleanLines(lines) && first < |lines| && Decode(lines[first]).Some? && Encode(p).Some?
    requires DueForCompaction(StartState(maxBytes, lines, first))
    requires |FileOf(lines, |lines|)| + |Encode(p).value| <= 2 * |FileOf(lines, first)| + |lines[first]|
    ensures var s := StartState(maxBytes, lines, first); var run := StaleRun(|lines[first]| + 1, p);
      && Accepted(s, run) == [p] && Exec(s, run).log == lines + [Encode(p).value]
      && Vanished(Exec(s, run), |lines|)
      && |lines| !in Exec(s, run + more).gone
  {
    var s, n := StartState(maxBytes, lines, first), |lines[first]| + 1;
    var run := [Open, Fill(n), Scan] + ([Tick, Decide, Copy] + [Swap, Reset, Act.Write(p)]) + [Send, Publish];
    assert StaleRun(n, p) == run + ([Tick, Save, Ack] + [Decide, Truncate]);
    StartIsRipe(maxBytes, lines, first);
    hide *;
    StaleOffsetIsPublished(s, first, p);
    PublishedIs(s, first, p);
    StaleRunAccepts(s, n, p);
    var t := Exec(s, run);
    OldFileHoldsNoNewLine(lines, t);
    StaleOffsetEmptiesTheFile(t, |lines|);
    ExecOfSum(s, run, [Tick, Save, Ack] + [Decide, Truncate]);
    StartIsBehind(maxBytes, lines, first);
    RunKeepsInv(s, StaleRun(n, p));
    VanishedStays(Exec(s, StaleRun(n, p)), more, |lines|);
    ExecOfSum(s, StaleRun(n, p), more);
    VanishedIsNotGone(Exec(s, StaleRun(n, p) + more), |lines|);
  }

  lemma VanishedIsNotGone(s: State, i: nat)
    requires Vanished(s, i)
    ensures i !in s.gone
  {
  }

  lemma StartIsRipe(maxBytes: nat, lines: seq<string>, first: nat)
    requires first < |lines| && Decode(lines[first]).Some? && DueForCompaction(StartState(maxBytes, lines, first))
    ensures var s := StartState(maxBytes, lines, first);
      Ripe(s, first) && s.log == lines && s.path == FileOf(lines, |lines|) && s.ackPos == |FileOf(lines, first)|
      && |lines| !in s.gone
  {
    hide FileOf, Decode;
  }

  lemma OldFileHoldsNoNewLine(lines: seq<string>, s: State)
    requires s.reader.Passing? && s.reader.detached == Some(FileOf(lines, |lines|)) && s.reader.buf == [] && s.reader.hand == Free
    ensures !Begins(Secured(s), |lines|)
  {
    var f := FileOf(lines, |lines|);
    FileIsRegular(lines, |lines|);
    RegularFrom(lines, f, s.reader.next);
    var rest := From(f, s.reader.next);
    assert Secured(s) == if s.reader.eof then [] else rest;
    if Begins(rest, |lines|) {
      BeginsInLog(lines, rest, |lines|);
    }
    hide FileOf, Regular, From, Secured;
  }
}
