/** The two models of the disk queue agree (diskqueue.go): as long as nothing is
    compacted, every step of the goroutines as written, with its open file, read-ahead
    and line in hand, is a step of QueueSteps or none at all. */
module QueueAgreement {
  import opened Wrappers
  import opened WalFrame
  import opened WalCodec
  import opened QueueAsWritten
  import opened QueueUncompacted
  import Q = QueueSteps

  // ---- one state in the other's terms ------------------------------------------------

  /** Where the next line to hand over begins: a line in hand is not yet passed. */
  function Place(r: Reader): int {
    match r
    case Waiting(pos) => pos
    case Passing(_, _, _, _, pos, hand) => pos - |InHand(hand)|
  }

  function PhaseOf(job: Job): Q.Phase {
    match job
    case Held(at) => Q.Holding(at)
    case Kept(at) => Q.Saved(at)
    case _ => Q.Idle
  }

  predicate Publishes(r: Reader) {
    r.Passing? && r.hand.Publishing?
  }

  predicate SameFiles(s: State, q: Q.Queue) {
    && Cells(s.log, s.path) && q.wal == Bytes(s.log, s.path)
    && Q.LoadCkpt(q.ckptFile) == s.ckpt
  }

  predicate SameMemory(s: State, q: Q.Queue) {
    && q.up && q.maxBytes == s.maxBytes
    && q.writePos == s.writePos && q.sentPos == s.sentPos && q.ackPos == s.ackPos
    && q.cursor == Place(s.reader) && q.unpublished == Publishes(s.reader) && q.phase == PhaseOf(s.job)
    && |q.chan| == s.waiting && q.handed == s.handed
  }

  /** The line in hand stands in the file right before the reader's count. */
  predicate HandAt(path: File, r: Reader) {
    r.Passing? ==> var token := InHand(r.hand);
      |token| <= r.pos <= |path| && path[r.pos - |token|..r.pos] == token
  }

  predicate Agrees(s: State, q: Q.Queue) {
    SameFiles(s, q) && SameMemory(s, q) && HandAt(s.path, s.reader) && !s.job.Resetting?
  }

  /** What the step is in the other model. */
  function Image(s: State, a: Act): seq<Q.Action> {
    match a
    case Write(p) => [Q.Write(p)]
    case Scan => if DoScan(s) != s && DoScan(s).reader.hand.Free? then [Q.Read] else []
    case Send => if DoSend(s) != s then [Q.Read] else []
    case Publish => [Q.Publish]
    case Take => [Q.Take]
    case Tick => if s.job.Resting? then [Q.CkptHold] else []
    case Save => [Q.CkptSave]
    case Ack => [Q.CkptAck]
    case Close => [Q.Close]
    case Restart => [Q.Crash, Q.Restart]
    case _ => []
  }

  // ---- the steps one by one -----------------------------------------------------------

  lemma BytesOfLonger(log: seq<string>, line: string, f: File)
    requires Cells(log, f)
    ensures Cells(log + [line], f) && Bytes(log + [line], f) == Bytes(log, f)
  {
    hide Bytes;
  }

  lemma WriteAgrees(s: State, q: Q.Queue, p: Point)
    requires Agrees(s, q)
    ensures Agrees(DoWrite(s, p), Q.DoWrite(q, p))
    ensures Accepts(s, p) <==> Q.Accepts(q, p)
  {
    hide *;
    AgreesIs(s, q);
    AcceptsAlike(s, q, p);
    WriteIs(s, p);
    WriteIsThere(q, p);
    if Accepts(s, p) {
      var n, log := |s.log|, s.log + [Encode(p).value];
      BytesOfLonger(s.log, Encode(p).value, s.path);
      LineOfLog(s.log, Encode(p).value);
      BytesOfSum(log, s.path, LineFrom(log, n, 0));
      HandStays(s.path, LineFrom(log, n, 0), s.reader);
      WrittenAgrees(s, DoWrite(s, p), q, Q.DoWrite(q, p));
    }
  }

  lemma AgreesIs(s: State, q: Q.Queue)
    requires Agrees(s, q)
    ensures Cells(s.log, s.path) && q.wal == Bytes(s.log, s.path) && HandAt(s.path, s.reader) && q.writePos == s.writePos
  {
    hide Cells, Bytes, HandAt, Q.LoadCkpt, Place, Publishes;
  }

  lemma AcceptsAlike(s: State, q: Q.Queue, p: Point)
    requires Agrees(s, q)
    ensures Accepts(s, p) <==> Q.Accepts(q, p)
  {
    hide Encode, HandAt, SameFiles, Place, Publishes;
  }

  lemma WriteIs(s: State, p: Point)
    ensures !Accepts(s, p) ==> DoWrite(s, p) == s
    ensures Accepts(s, p) ==>
              && Encode(p).Some?
              && var n, log := |s.log|, s.log + [Encode(p).value];
                 DoWrite(s, p) == s.(log := log, path := s.path + LineFrom(log, n, 0), writePos := s.writePos + |Encode(p).value| + 1)
  {
    hide Encode, LineFrom;
  }

  lemma WriteIsThere(q: Q.Queue, p: Point)
    ensures !Q.Accepts(q, p) ==> Q.DoWrite(q, p) == q
    ensures Q.Accepts(q, p) ==>
              && Encode(p).Some?
              && Q.DoWrite(q, p) == q.(wal := q.wal + (Encode(p).value + "\n"), writePos := q.writePos + |Encode(p).value| + 1)
  {
    hide Encode;
  }

  lemma LineOfLog(log: seq<string>, line: string)
    ensures var more, n := log + [line], |log|;
      Cells(more, LineFrom(more, n, 0)) && Bytes(more, LineFrom(more, n, 0)) == line + "\n"
  {
    var more, n := log + [line], |log|;
    TextOfLine(more, n, 0);
    assert more[n][0..] == line;
    hide Bytes, LineFrom, Cells;
  }

  /** A longer file, in both models, and nothing else. */
  lemma WrittenAgrees(s: State, t: State, q: Q.Queue, q': Q.Queue)
    requires Agrees(s, q) && t == s.(log := t.log, path := t.path, writePos := t.writePos)
    requires q' == q.(wal := q'.wal, writePos := q'.writePos) && q'.writePos == t.writePos
    requires Cells(t.log, t.path) && q'.wal == Bytes(t.log, t.path) && HandAt(t.path, t.reader)
    ensures Agrees(t, q')
  {
    hide Bytes, Cells, HandAt, Q.LoadCkpt, Place, Publishes;
  }

  lemma HandStays(path: File, more: File, r: Reader)
    requires HandAt(path, r)
    ensures HandAt(path + more, r)
  {
    if r.Passing? {
      assert (path + more)[r.pos - |InHand(r.hand)|..r.pos] == path[r.pos - |InHand(r.hand)|..r.pos];
    }
  }

  /** Neither opening, reading ahead nor ending a pass shows in the other model. */
  lemma ReaderMoves(s: State, q: Q.Queue, a: Act)
    requires Tidy(s) && Agrees(s, q) && (a.Open? || a.Fill? || a.EndPass? || a.Decide? || a.Copy?)
    ensures Agrees(Step(s, a), q)
  {
    hide Bytes, Cells, Q.LoadCkpt, From, PassedBut;
    if a.Open? && s.reader.Waiting? {
      PassedInFile(s.path, s.gone, s.reader.pos, []);
      assert s.path[s.reader.pos..s.reader.pos] == [];
    }
  }

  /** The line at a place of the file, as the byte scanner sees it. */
  lemma LineAt(s: State, at: nat, token: File)
    requires Inv(s) && at <= |s.path| && token != [] && token <= s.path[at..]
    requires Cells(s.log, token) && token == LineFrom(s.log, token[0].line, token[0].at)
    ensures Cells(s.log, s.path)
    ensures ScanLine(Bytes(s.log, s.path)[at..]).Some?
    ensures ScanLine(Bytes(s.log, s.path)[at..]).value.0 == TokenText(s.log, token)
    ensures |TokenText(s.log, token)| == |token| - 1
  {
    var f := From(s.path, at);
    RegularFrom(s.log, s.path, at);
    assert f[0] == token[0];
    TokenIs(s.log, f);
    ScanSeesToken(s.log, f);
    BytesFrom(s.log, s.path, at);
    assert f[..TokenLength(s.log, f)] == token;
    hide Regular, ScanLine, LineFrom, TokenLength, Cells, Bytes;
  }

  lemma BytesFrom(log: seq<string>, f: File, at: nat)
    requires Cells(log, f) && at <= |f|
    ensures Cells(log, f[at..]) && Bytes(log, f[at..]) == Bytes(log, f)[at..]
  {
    hide Bytes;
  }

  /** The other model's reader on a line that holds a point, and on one that holds none. */
  lemma ReadsLine(q: Q.Queue, line: string)
    requires q.up && !q.unpublished && q.cursor <= |q.wal|
    requires ScanLine(q.wal[q.cursor..]).Some? && ScanLine(q.wal[q.cursor..]).value.0 == line
    ensures Decode(line).None? ==> Q.DoRead(q) == q.(cursor := q.cursor + |line| + 1)
    ensures Decode(line).Some? && |q.chan| < Q.OUT_CAPACITY ==>
              Q.DoRead(q) == q.(cursor := q.cursor + |line| + 1, unpublished := true,
                                chan := q.chan + [Decode(line).value], handed := q.handed + [Decode(line).value])
  {
    hide ScanLine, Decode;
  }

  lemma SendIs(s: State)
    requires DoSend(s) != s
    ensures s.reader.Passing? && s.reader.hand.Sending? && s.waiting < Q.OUT_CAPACITY && Cells(s.log, s.reader.hand.token)
    ensures Decode(TokenText(s.log, s.reader.hand.token)).Some?
    ensures DoSend(s) == s.(reader := s.reader.(hand := Publishing), waiting := s.waiting + 1,
                            handed := s.handed + [Decode(TokenText(s.log, s.reader.hand.token)).value],
                            gone := s.gone + Whole(s.reader.hand.token))
  {
    hide TokenText, Decode, Cells;
  }

  lemma TokenInHand(s: State)
    requires Inv(s) && s.reader.Passing? && s.reader.hand.Sending?
    ensures var token := s.reader.hand.token;
      && token != [] && Regular(s.log, s.path)
      && Cells(s.log, token) && token == LineFrom(s.log, token[0].line, token[0].at)
  {
  }

  lemma TokenStands(path: File, r: Reader)
    requires HandAt(path, r) && r.Passing?
    ensures var token := InHand(r.hand);
      |token| <= r.pos <= |path| && token <= path[r.pos - |token|..]
  {
    var token := InHand(r.hand);
    var at := r.pos - |token|;
    assert path[at..][..|token|] == path[at..r.pos];
  }

  /** A line handed over is one turn of the other model's reader. */
  lemma SendAgrees(s: State, q: Q.Queue)
    requires Inv(s) && Agrees(s, q) && DoSend(s) != s
    ensures Agrees(DoSend(s), Q.DoRead(q))
  {
    hide DoSend, TokenText, Decode, Bytes, Cells, LineFrom, Q.LoadCkpt, Q.DoRead, Regular, Inv, ScanLine;
    SendIs(s);
    TokenInHand(s);
    TokenStands(s.path, s.reader);
    var token := s.reader.hand.token;
    LineAt(s, s.reader.pos - |token|, token);
    ReadsLine(q, TokenText(s.log, token));
    assert s.path[s.reader.pos..s.reader.pos] == [];
  }

  lemma ScanMoves(s: State)
    requires DoScan(s) != s
    ensures s.reader.Passing? && s.reader.hand == Free && s.reader.buf != [] && Cells(s.log, s.reader.buf)
    ensures var r, n := s.reader, TokenLength(s.log, s.reader.buf);
      var token := r.buf[..n];
      var r' := r.(buf := r.buf[n..], pos := r.pos + n);
      && Cells(s.log, token)
      && DoScan(s) == if Decode(TokenText(s.log, token)).None? then s.(reader := r', gone := s.gone + Whole(token))
                      else s.(reader := r'.(hand := Sending(token)))
  {
    hide TokenText, Decode;
  }

  lemma TokenIsSome(log: seq<string>, f: File)
    requires Cells(log, f) && f != []
    ensures 0 < TokenLength(log, f)
  {
    hide IsNewline, Cells;
  }

  lemma BufferStands(path: File, gone: set<nat>, r: Reader)
    requires r.Passing? && ReaderTidy(path, gone, r)
    ensures r.pos <= r.next <= |path| && r.buf == path[r.pos..r.next]
  {
  }

  lemma TakeOfSlice(path: File, pos: nat, next: nat, n: nat)
    requires pos <= next <= |path| && n <= next - pos
    ensures var token := path[pos..next][..n]; token == path[pos..pos + n] && token <= path[pos..]
  {
    assert path[pos..][..n] == path[pos..pos + n];
  }

  /** What was read ahead stands in the file, and its first line with it. */
  lemma FirstAhead(s: State)
    requires Inv(s) && Tidy(s) && DoScan(s) != s && s.reader.Passing? && s.reader.buf != [] && Cells(s.log, s.reader.buf)
    ensures var r, n := s.reader, TokenLength(s.log, s.reader.buf);
      var token := r.buf[..n];
      && 0 < n && r.pos + n <= |s.path| && token <= s.path[r.pos..] && token == s.path[r.pos..r.pos + n]
      && Cells(s.log, token) && token == LineFrom(s.log, token[0].line, token[0].at)
  {
    var r, n := s.reader, TokenLength(s.log, s.reader.buf);
    hide *;
    ScanIs(s);
    ReaderOfTidy(s);
    FirstToken(s.log, r.buf);
    TokenIsSome(s.log, r.buf);
    BufferStands(s.path, s.gone, r);
    TakeOfSlice(s.path, r.pos, r.next, n);
  }

  /** Taking the next line in hand, or going over one that holds no point. */
  lemma ScanAgrees(s: State, q: Q.Queue)
    requires Inv(s) && Tidy(s) && Agrees(s, q) && DoScan(s) != s
    ensures Agrees(DoScan(s), if DoScan(s).reader.hand.Free? then Q.DoRead(q) else q)
  {
    hide DoScan, TokenText, TokenLength, Decode, Bytes, Cells, LineFrom, Q.LoadCkpt, Q.DoRead, Regular, Inv, Tidy, ScanLine;
    ScanMoves(s);
    FirstAhead(s);
    var r, n := s.reader, TokenLength(s.log, s.reader.buf);
    var token := r.buf[..n];
    LineAt(s, r.pos, token);
    if Decode(TokenText(s.log, token)).None? {
      ReadsLine(q, TokenText(s.log, token));
      assert s.path[r.pos + n..r.pos + n] == [];
    }
  }

  /** One round of the checkpointer. */
  lemma TickAgrees(s: State, q: Q.Queue)
    requires Agrees(s, q)
    ensures Agrees(Step(s, Tick), if s.job.Resting? then Q.DoCkptHold(q) else q)
  {
    hide Bytes, Cells, Q.LoadCkpt, HandAt;
  }

  lemma SaveAgrees(s: State, q: Q.Queue)
    requires Agrees(s, q)
    ensures Agrees(Step(s, Save), Q.DoCkptSave(q))
  {
    hide Bytes, Cells, Q.LoadCkpt, Q.CkptText, HandAt;
    if s.job.Held? {
      Q.CkptRoundTrip(s.job.at);
    }
  }

  lemma AckAgrees(s: State, q: Q.Queue)
    requires Agrees(s, q)
    ensures Agrees(Step(s, Ack), Q.DoCkptAck(q))
  {
    hide Bytes, Cells, Q.LoadCkpt, HandAt;
  }

  lemma CloseAgrees(s: State, q: Q.Queue)
    requires Agrees(s, q)
    ensures Agrees(Step(s, Close), Q.DoClose(q))
  {
    hide Bytes, Cells, Q.LoadCkpt, Q.CkptText, HandAt;
    Q.CkptRoundTrip(s.sentPos);
  }

  lemma TakeAgrees(s: State, q: Q.Queue)
    requires Agrees(s, q)
    ensures Agrees(Step(s, Take), Q.DoTake(q))
  {
    hide SameFiles, HandAt;
    FilesStay(s, q, Take);
  }

  lemma PublishAgrees(s: State, q: Q.Queue)
    requires Agrees(s, q)
    ensures Agrees(Step(s, Publish), Q.DoPublish(q))
  {
    hide SameFiles;
    FilesStay(s, q, Publish);
    if Publishes(s.reader) {
      assert s.path[s.reader.pos..s.reader.pos] == [];
    }
  }

  lemma FilesStay(s: State, q: Q.Queue, a: Act)
    requires SameFiles(s, q) && (a.Take? || a.Publish?)
    ensures SameFiles(Step(s, a), Q.Step(q, if a.Take? then Q.Take else Q.Publish))
  {
    hide Bytes, Cells, Q.LoadCkpt;
  }

  lemma ExecOne(q: Q.Queue, run: seq<Q.Action>)
    requires |run| <= 1
    ensures Q.Exec(q, run) == if run == [] then q else Q.Step(q, run[0])
  {
    if run != [] {
      assert run[1..] == [];
    }
  }

  lemma RestartAgrees(s: State, q: Q.Queue)
    requires Inv(s) && Agrees(s, q)
    ensures Agrees(DoRestart(s), Q.Exec(q, [Q.Crash, Q.Restart]))
  {
    TwoSteps(q);
    PathLength(s);
    hide Q.Exec, Inv;
    OpensAgain(s, q);
  }

  lemma TwoSteps(q: Q.Queue)
    ensures Q.Exec(q, [Q.Crash, Q.Restart]) == Q.DoRestart(Q.DoCrash(q))
  {
    assert [Q.Crash, Q.Restart][1..] == [Q.Restart] && [Q.Restart][1..] == [];
    hide Q.DoCrash, Q.DoRestart;
  }

  lemma OpensAgain(s: State, q: Q.Queue)
    requires Agrees(s, q) && s.writePos == |s.path|
    ensures Agrees(DoRestart(s), Q.DoRestart(Q.DoCrash(q)))
  {
    hide Bytes, Cells, Q.LoadCkpt;
  }

  lemma PathLength(s: State)
    requires Inv(s)
    ensures s.writePos == |s.path|
  {
  }

  lemma StepAgrees(s: State, q: Q.Queue, a: Act)
    requires Inv(s) && Tidy(s) && Agrees(s, q) && !Compacts(a)
    ensures Agrees(Step(s, a), Q.Exec(q, Image(s, a)))
    ensures Q.Accepted(q, Image(s, a)) == AcceptedNow(s, a)
  {
    hide Inv, Tidy, Agrees, DoScan, DoSend, DoWrite, DoRestart, Q.DoRead, Q.DoWrite, Accepts, Q.Accepts;
    hide Q.DoCkptHold, Q.DoCkptSave, Q.DoCkptAck, Q.DoClose, Q.DoTake, Q.DoPublish, Q.Exec;
    ImageAccepts(s, q, a);
    if !a.Restart? {
      ExecOne(q, Image(s, a));
    }
    match a
    case Write(p) => WriteAgrees(s, q, p);
    case Scan =>
      if DoScan(s) != s {
        ScanAgrees(s, q);
      }
    case Send =>
      if DoSend(s) != s {
        SendAgrees(s, q);
      }
    case Restart => RestartAgrees(s, q);
    case Reset => NotResetting(s, q);
    case Take => TakeAgrees(s, q);
    case Publish => PublishAgrees(s, q);
    case Tick => TickAgrees(s, q);
    case Save => SaveAgrees(s, q);
    case Ack => AckAgrees(s, q);
    case Close => CloseAgrees(s, q);
    case _ => ReaderMoves(s, q, a);
  }

  lemma NotResetting(s: State, q: Q.Queue)
    requires Agrees(s, q)
    ensures Step(s, Reset) == s && Q.Exec(q, []) == q
  {
  }

  lemma AcceptsNone(q: Q.Queue, run: seq<Q.Action>)
    requires forall a :: a in run ==> !a.Write?
    ensures Q.Accepted(q, run) == []
    decreases |run|
  {
    hide Q.Accepts, Q.Step;
    if run != [] {
      assert run[0] in run && forall a :: a in run[1..] ==> a in run;
      AcceptsNone(Q.Step(q, run[0]), run[1..]);
    }
  }

  lemma ImageAccepts(s: State, q: Q.Queue, a: Act)
    ensures !a.Write? ==> Q.Accepted(q, Image(s, a)) == [] == AcceptedNow(s, a)
    ensures a.Write? ==> Q.Accepted(q, Image(s, a)) == if Q.Accepts(q, a.p) then [a.p] else []
    ensures a.Write? ==> AcceptedNow(s, a) == if Accepts(s, a.p) then [a.p] else []
  {
    hide Accepts, Q.Accepts, Q.Step, DoScan, DoSend;
    if a.Write? {
      assert Image(s, a)[1..] == [];
    } else {
      AcceptsNone(q, Image(s, a));
    }
  }

  // ---- whole runs ---------------------------------------------------------------------

  function ImageOf(s: State, run: seq<Act>): seq<Q.Action> {
    if run == [] then [] else ImageOf(s, run[..|run| - 1]) + Image(Exec(s, run[..|run| - 1]), run[|run| - 1])
  }

  /** Over any run without a compaction, crashes and restarts included: the goroutines as
      written accept the same points, hand over the same points and leave the same bytes
      and offsets as a run of QueueSteps, so what is proved of its runs holds of them. */
  lemma {:induction false} RunsAgree(s: State, q: Q.Queue, run: seq<Act>)
    requires Inv(s) && Tidy(s) && Safe(s) && Agrees(s, q) && forall a :: a in run ==> !Compacts(a)
    ensures Agrees(Exec(s, run), Q.Exec(q, ImageOf(s, run)))
    ensures Q.Accepted(q, ImageOf(s, run)) == Accepted(s, run)
  {
    if run != [] {
      var n := |run| - 1;
      var before, a := Exec(s, run[..n]), run[n];
      assert a in run && Exec(s, run) == Step(before, a);
      assert ImageOf(s, run) == ImageOf(s, run[..n]) + Image(before, a);
      assert Accepted(s, run) == Accepted(s, run[..n]) + AcceptedNow(before, a);
      hide *;
      RunsAgree(s, q, run[..n]);
      RunKeepsInv(s, run[..n]);
      RunKeepsTidy(s, run[..n]);
      StepAgrees(before, Q.Exec(q, ImageOf(s, run[..n])), a);
      Q.ExecAppend(q, ImageOf(s, run[..n]), Image(before, a));
      Q.AcceptedAppend(q, ImageOf(s, run[..n]), Image(before, a));
    }
  }

  /** The fresh agent of QueueSteps on the same files. */
  function Opened(maxBytes: nat, lines: seq<string>, ckpt: nat): Q.Queue {
    Q.Queue(maxBytes, Frame(lines), Some(Q.CkptText(ckpt)), true, |Frame(lines)|, ckpt, ckpt, ckpt, false, Q.Idle, [], [], [])
  }

  /** From the files on disk. */
  lemma FromTheFiles(maxBytes: nat, lines: seq<string>, first: nat, run: seq<Act>)
    requires CleanLines(lines) && first <= |lines| && forall a :: a in run ==> !Compacts(a)
    ensures var s := StartState(maxBytes, lines, first); var q := Opened(maxBytes, lines, s.ckpt);
      && Agrees(Exec(s, run), Q.Exec(q, ImageOf(s, run)))
      && Q.Accepted(q, ImageOf(s, run)) == Accepted(s, run)
  {
    var s := StartState(maxBytes, lines, first);
    StartFits(maxBytes, lines, first);
    StartIsTidy(maxBytes, lines, first);
    StartAgrees(maxBytes, lines, first);
    hide *;
    RunsAgree(s, Opened(maxBytes, lines, s.ckpt), run);
  }

  lemma StartAgrees(maxBytes: nat, lines: seq<string>, first: nat)
    requires first <= |lines|
    ensures Agrees(StartState(maxBytes, lines, first), Opened(maxBytes, lines, StartState(maxBytes, lines, first).ckpt))
  {
    FileIsFrame(lines, |lines|);
    Q.CkptRoundTrip(|FileOf(lines, first)|);
    assert lines[..|lines|] == lines;
    hide FileOf, Bytes, Cells, Frame, Q.LoadCkpt, Q.CkptText;
  }

  // ---- a whole tick with nothing between its sections -----------------------------------

  const TICK := [Tick] + [Save] + [Ack] + [Decide] + [Truncate] + [Copy] + [Swap] + [Reset]

  function Checkpointed(s: State): State {
    Step(Step(Step(s, Tick), Save), Ack)
  }

  function Compacted(s: State): State {
    Step(Step(Step(Step(Step(s, Decide), Truncate), Copy), Swap), Reset)
  }

  lemma ExecSnoc(s: State, run: seq<Act>, a: Act)
    ensures Exec(s, run + [a]) == Step(Exec(s, run), a) && Exec(s, []) == s
  {
    hide Step;
    assert (run + [a])[..|run|] == run;
  }

  lemma TickRuns(s: State)
    ensures Exec(s, TICK) == Compacted(Checkpointed(s))
  {
    hide Step, Exec;
    var r0 := [Tick];
    var r1 := r0 + [Save];
    var r2 := r1 + [Ack];
    var r3 := r2 + [Decide];
    var r4 := r3 + [Truncate];
    var r5 := r4 + [Copy];
    var r6 := r5 + [Swap];
    assert [] + [Tick] == r0 && TICK == r6 + [Reset];
    ExecSnoc(s, [], Tick);
    ExecSnoc(s, r0, Save);
    ExecSnoc(s, r1, Ack);
    ExecSnoc(s, r2, Decide);
    ExecSnoc(s, r3, Truncate);
    ExecSnoc(s, r4, Copy);
    ExecSnoc(s, r5, Swap);
    ExecSnoc(s, r6, Reset);
  }

  function CheckpointedThere(q: Q.Queue): Q.Queue {
    Q.DoCkptAck(Q.DoCkptSave(Q.DoCkptHold(q)))
  }

  lemma CheckpointAgrees(s: State, q: Q.Queue)
    requires Agrees(s, q) && s.job.Resting?
    ensures Agrees(Checkpointed(s), CheckpointedThere(q)) && Checkpointed(s).job.Deciding?
    ensures var t := Checkpointed(s); t.path == s.path && t.writePos == s.writePos && t.reader == s.reader && t.handed == s.handed
  {
    CheckpointSteps(s);
    hide Agrees, Step, Q.DoCkptHold, Q.DoCkptSave, Q.DoCkptAck;
    TickAgrees(s, q);
    SaveAgrees(Step(s, Tick), Q.DoCkptHold(q));
    AckAgrees(Step(Step(s, Tick), Save), Q.DoCkptSave(Q.DoCkptHold(q)));
  }

  lemma CheckpointSteps(s: State)
    requires s.job.Resting?
    ensures var t := Checkpointed(s);
      t.job.Deciding? && t.path == s.path && t.writePos == s.writePos && t.reader == s.reader && t.handed == s.handed
  {
  }

  /** The sections after the checkpoint, one after another, by what Decide finds. */
  lemma CompactedIs(s: State)
    requires s.job.Deciding?
    ensures var t := Compacted(s);
      && t.job.Resting? && t.log == s.log && t.handed == s.handed && t.maxBytes == s.maxBytes && Place(t.reader) == Place(s.reader)
      && if !Q.WorthCompacting(s.writePos, s.ackPos) then t == s.(job := Resting)
         else if s.ackPos >= s.writePos then
           t.path == [] && t.writePos == 0 && t.sentPos == 0 && t.ackPos == 0 && t.ckpt == 0
         else
           && t.path == From(s.path, s.ackPos) && t.writePos == |t.path| && t.ackPos == 0 && t.ckpt == 0
           && t.sentPos == if s.sentPos < s.ackPos then 0 else s.sentPos - s.ackPos
  {
    hide Q.WorthCompacting, From, InHand;
    if !Q.WorthCompacting(s.writePos, s.ackPos) {
      assert Step(s, Decide) == s.(job := Resting);
    } else if s.ackPos >= s.writePos {
      assert Step(s, Decide) == s.(job := Draining);
    } else {
      assert Step(s, Decide) == s.(job := Copying(s.ackPos));
    }
  }

  /** A tick with nothing between its sections always comes to an end, and changes the
      files and the offsets as the atomic compaction of QueueSteps does; but it leaves
      the reader's place where it was. */
  lemma TickAgreesAlone(s: State, q: Q.Queue)
    requires Inv(s) && Agrees(s, q) && s.job.Resting?
    ensures var t := Exec(s, TICK);
      var q1 := CheckpointedThere(q);
      var q2 := if Q.CanCompact(q1) then Q.CompactFields(q1) else q1;
      && t.job.Resting? && Place(t.reader) == Place(s.reader) && t.handed == s.handed
      && SameFiles(t, q2) && t.writePos == q2.writePos && t.sentPos == q2.sentPos && t.ackPos == q2.ackPos
  {
    hide *;
    TickRuns(s);
    PathLength(s);
    CheckpointAgrees(s, q);
    CompactionAgrees(Checkpointed(s), CheckpointedThere(q));
  }

  lemma CompactionAgrees(s: State, q: Q.Queue)
    requires Agrees(s, q) && s.job.Deciding? && s.writePos == |s.path|
    ensures var t := Compacted(s);
      var q' := if Q.CanCompact(q) then Q.CompactFields(q) else q;
      && t.job.Resting? && Place(t.reader) == Place(s.reader) && t.handed == s.handed
      && SameFiles(t, q') && t.writePos == q'.writePos && t.sentPos == q'.sentPos && t.ackPos == q'.ackPos
  {
    hide *;
    CompactedIs(s);
    GuardAgrees(s, q);
    if !Q.WorthCompacting(s.writePos, s.ackPos) {
      SameFilesStill(s, q);
    } else if s.ackPos >= s.writePos {
      DrainedThere(q);
      FilesDrained(Compacted(s), q);
    } else {
      CopiedThere(q);
      FilesCopied(s, Compacted(s), q);
    }
  }

  lemma GuardAgrees(s: State, q: Q.Queue)
    requires Agrees(s, q) && s.job.Deciding? && s.writePos == |s.path|
    ensures Q.CanCompact(q) <==> Q.WorthCompacting(s.writePos, s.ackPos)
    ensures SameFiles(s, q) && |q.wal| == |s.path|
    ensures q.writePos == s.writePos && q.sentPos == s.sentPos && q.ackPos == s.ackPos
  {
    hide Bytes, Cells, Q.LoadCkpt, HandAt, Q.WorthCompacting, Place, Publishes;
  }

  lemma SameFilesStill(s: State, q: Q.Queue)
    requires SameFiles(s, q)
    ensures SameFiles(s.(job := Resting), q)
  {
    hide Bytes, Cells, Q.LoadCkpt;
  }

  lemma DrainedThere(q: Q.Queue)
    requires q.ackPos >= q.writePos
    ensures var q' := Q.CompactFields(q);
      q'.wal == "" && q'.writePos == 0 && q'.sentPos == 0 && q'.ackPos == 0 && q'.ckptFile == Some(Q.CkptText(0))
  {
    hide Q.CkptText;
  }

  lemma FilesDrained(t: State, q: Q.Queue)
    requires t.path == [] && t.ckpt == 0 && q.ackPos >= q.writePos
    ensures SameFiles(t, Q.CompactFields(q))
  {
    DrainedThere(q);
    NothingToRead(t.log);
    Q.CkptRoundTrip(0);
    hide Q.CompactFields, Q.CkptText, Q.LoadCkpt, Bytes, Cells;
  }

  lemma CopiedThere(q: Q.Queue)
    requires q.ackPos < q.writePos == |q.wal|
    ensures var q' := Q.CompactFields(q);
      && q'.wal == q.wal[q.ackPos..] && q'.writePos == q.writePos - q.ackPos && q'.ackPos == 0
      && q'.sentPos == (if q.sentPos < q.ackPos then 0 else q.sentPos - q.ackPos) && q'.ckptFile == Some(Q.CkptText(0))
  {
    hide Q.CkptText;
  }

  lemma FilesCopied(s: State, t: State, q: Q.Queue)
    requires SameFiles(s, q) && q.ackPos == s.ackPos < q.writePos == |s.path| == |q.wal|
    requires t.path == From(s.path, s.ackPos) && t.log == s.log && t.ckpt == 0
    ensures SameFiles(t, Q.CompactFields(q)) && |t.path| == |s.path| - s.ackPos
  {
    CopiedThere(q);
    BytesFrom(s.log, s.path, s.ackPos);
    Q.CkptRoundTrip(0);
    hide Q.CompactFields, Q.CkptText, Q.LoadCkpt, Bytes, Cells;
  }

  lemma NothingToRead(log: seq<string>)
    ensures Cells(log, []) && Bytes(log, []) == ""
  {
  }
}
