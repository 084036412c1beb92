/** The disk queue while its file is below the size worth compacting (diskqueue.go): no
    step loses a line and every restart finds all it needs. */
module QueueUncompacted {
  import opened WalFrame
  import opened WalCodec
  import opened QueueAsWritten
  import Q = QueueSteps

  type Point = Q.Point

  // ---- what lies before an offset is gone ------------------------------------------------

  /** Every line that begins before the offset has been gone over, but those the reader
      holds. */
  ghost predicate PassedBut(path: File, gone: set<nat>, at: nat, held: File) {
    at <= |path| && forall i :: Begins(path[..at], i) ==> i in gone || Begins(held, i)
  }

  ghost predicate Passed(path: File, gone: set<nat>, at: nat) {
    PassedBut(path, gone, at, [])
  }

  function InHand(hand: Hand): File {
    if hand.Sending? then hand.token else []
  }

  /** The reader is in the live file: what it read ahead lies behind its count. */
  ghost predicate ReaderTidy(path: File, gone: set<nat>, r: Reader) {
    match r
    case Waiting(pos) => Passed(path, gone, pos)
    case Passing(detached, next, buf, _, pos, hand) =>
      && detached.None? && pos <= next <= |path| && buf == path[pos..next]
      && PassedBut(path, gone, pos, InHand(hand))
  }

  ghost predicate JobTidy(path: File, gone: set<nat>, job: Job) {
    job.Held? || job.Kept? ==> Passed(path, gone, job.at)
  }

  /** Every accepted line is in the file, and no offset anybody knows is past a line
      that is not gone over. */
  ghost predicate Tidy(s: State) {
    && (forall i: nat :: i < |s.log| ==> Begins(s.path, i))
    && Passed(s.path, s.gone, s.ckpt) && Passed(s.path, s.gone, s.sentPos)
    && ReaderTidy(s.path, s.gone, s.reader)
    && JobTidy(s.path, s.gone, s.job)
  }

  predicate Compacts(a: Act) {
    a.Truncate? || a.Swap?
  }

  // ---- each step keeps that ---------------------------------------------------------------

  lemma PassedLonger(path: File, more: File, gone: set<nat>, at: nat, held: File)
    requires PassedBut(path, gone, at, held)
    ensures PassedBut(path + more, gone, at, held)
  {
    assert (path + more)[..at] == path[..at];
    hide Begins;
  }

  lemma PassedMore(path: File, gone: set<nat>, more: set<nat>, at: nat, held: File)
    requires PassedBut(path, gone, at, held)
    ensures PassedBut(path, gone + more, at, held)
  {
    hide Begins;
  }

  lemma NothingPassed(path: File, gone: set<nat>)
    ensures Passed(path, gone, 0)
  {
    assert path[..0] == [];
  }

  lemma WriteKeepsTidy(s: State, p: Point)
    requires Tidy(s) && Accepts(s, p)
    ensures Tidy(DoWrite(s, p))
  {
    var n, log := |s.log|, s.log + [Encode(p).value];
    var line := LineFrom(log, n, 0);
    var t := DoWrite(s, p);
    assert t == s.(log := log, path := s.path + line, writePos := t.writePos);
    forall i: nat | i < |log| ensures Begins(t.path, i) {
      LineBegins(log, n, 0, i);
      BeginsInSum(s.path, line, i);
    }
    hide Encode, LineFrom, Begins, DoWrite, Accepts, PassedBut;
    PassedLonger(s.path, line, s.gone, s.ckpt, []);
    PassedLonger(s.path, line, s.gone, s.sentPos, []);
    if s.job.Held? || s.job.Kept? {
      PassedLonger(s.path, line, s.gone, s.job.at, []);
    }
    ReaderTidyLonger(s.path, line, s.gone, s.reader);
  }

  lemma ReaderTidyLonger(path: File, more: File, gone: set<nat>, r: Reader)
    requires ReaderTidy(path, gone, r)
    ensures ReaderTidy(path + more, gone, r)
  {
    match r
    case Waiting(pos) => PassedLonger(path, more, gone, pos, []);
    case Passing(_, next, _, _, pos, hand) =>
      PassedLonger(path, more, gone, pos, InHand(hand));
      assert (path + more)[pos..next] == path[pos..next];
      hide PassedBut;
  }

  lemma FillKeepsTidy(s: State, n: nat)
    requires Tidy(s)
    ensures Tidy(DoFill(s, n))
  {
    var t := DoFill(s, n);
    hide Begins, PassedBut, Regular;
    if t != s && !t.reader.eof {
      assert From(s.path, s.reader.next)[..n] == s.path[s.reader.next..s.reader.next + n];
    }
  }

  /** A line leaves the hand, or is gone over at once. */
  lemma GoneOver(path: File, gone: set<nat>, at: nat, token: File)
    requires PassedBut(path, gone, at, token) && forall i :: Begins(token, i) ==> i in Whole(token)
    ensures Passed(path, gone + Whole(token), at)
  {
    hide Begins, Whole;
  }

  /** The next line comes into the hand. */
  lemma TakenUp(path: File, gone: set<nat>, at: nat, token: File)
    requires Passed(path, gone, at) && at + |token| <= |path| && path[at..at + |token|] == token
    ensures PassedBut(path, gone, at + |token|, token)
  {
    assert path[..at + |token|] == path[..at] + token;
    forall i | Begins(path[..at + |token|], i) ensures i in gone || Begins(token, i) {
      BeginsInSum(path[..at], token, i);
      assert Begins([], i) ==> i in gone;
    }
    hide Begins;
  }

  lemma GoneGrowsTidy(s: State, t: State, more: set<nat>)
    requires Tidy(s) && t.log == s.log && t.path == s.path && t.ckpt == s.ckpt && t.sentPos == s.sentPos && t.job == s.job
    requires t.gone == s.gone + more && ReaderTidy(t.path, t.gone, t.reader)
    ensures Tidy(t)
  {
    hide Begins, ReaderTidy, PassedBut;
    PassedMore(s.path, s.gone, more, s.ckpt, []);
    PassedMore(s.path, s.gone, more, s.sentPos, []);
    if s.job.Held? || s.job.Kept? {
      PassedMore(s.path, s.gone, more, s.job.at, []);
    }
  }

  lemma SliceOfSlice(path: File, pos: nat, next: nat, n: nat)
    requires pos + n <= next <= |path|
    ensures path[pos..next][..n] == path[pos..pos + n] && path[pos..next][n..] == path[pos + n..next]
  {
  }

  /** The reader with the next line in hand, and with that line gone over. */
  lemma ScannedIsTidy(path: File, gone: set<nat>, r: Reader, n: nat)
    requires r.Passing? && r.hand == Free && ReaderTidy(path, gone, r) && n <= |r.buf|
    requires forall i :: Begins(r.buf[..n], i) ==> i in Whole(r.buf[..n])
    ensures var r' := r.(buf := r.buf[n..], pos := r.pos + n);
      && ReaderTidy(path, gone + Whole(r.buf[..n]), r')
      && ReaderTidy(path, gone, r'.(hand := Sending(r.buf[..n])))
  {
    var token := r.buf[..n];
    assert r.pos + n <= r.next <= |path|;
    SliceOfSlice(path, r.pos, r.next, n);
    hide Begins, Whole, PassedBut;
    TakenUp(path, gone, r.pos, token);
    GoneOver(path, gone, r.pos + n, token);
  }

  lemma TokenIsWhole(log: seq<string>, f: File)
    requires Regular(log, f) && f != []
    ensures var token := f[..TokenLength(log, f)]; forall i :: Begins(token, i) ==> i in Whole(token)
  {
    var token := f[..TokenLength(log, f)];
    TokenIs(log, f);
    assert token[0] == f[0] && Cells(log, token);
    hide Regular, Begins, Whole, TokenLength, LineFrom;
    forall i | Begins(token, i) ensures i in Whole(token) {
      WholeIsBegun(log, token, i);
    }
  }

  lemma ScanIs(s: State)
    requires Inv(s) && DoScan(s) != s
    ensures var r := s.reader;
      && r.Passing? && r.hand == Free && r.buf != [] && Regular(s.log, r.buf)
      && var n := TokenLength(s.log, r.buf); var r' := r.(buf := r.buf[n..], pos := r.pos + n);
         || DoScan(s) == s.(reader := r', gone := s.gone + Whole(r.buf[..n]))
         || DoScan(s) == s.(reader := r'.(hand := Sending(r.buf[..n])))
  {
    hide Regular, TokenLength, Decode, TokenText, Whole;
  }

  lemma ReaderOfTidy(s: State)
    requires Tidy(s)
    ensures ReaderTidy(s.path, s.gone, s.reader)
  {
  }

  lemma ScanKeepsTidy(s: State)
    requires Inv(s) && Tidy(s)
    ensures Tidy(DoScan(s))
  {
    hide *;
    if DoScan(s) != s {
      ScanIs(s);
      ReaderOfTidy(s);
      ScannedKeepsTidy(s, DoScan(s));
    }
  }

  lemma ScannedKeepsTidy(s: State, t: State)
    requires Tidy(s) && s.reader.Passing? && s.reader.hand == Free && s.reader.buf != [] && Regular(s.log, s.reader.buf)
    requires var n := TokenLength(s.log, s.reader.buf);
      var r', over := s.reader.(buf := s.reader.buf[n..], pos := s.reader.pos + n), Whole(s.reader.buf[..n]);
      t == s.(reader := r', gone := s.gone + over) || t == s.(reader := r'.(hand := Sending(s.reader.buf[..n])))
    ensures Tidy(t)
  {
    var n := TokenLength(s.log, s.reader.buf);
    hide *;
    TokenIsWhole(s.log, s.reader.buf);
    ReaderOfTidy(s);
    ScannedIsTidy(s.path, s.gone, s.reader, n);
    assert s.gone + {} == s.gone;
    GoneGrowsTidy(s, t, if t.reader.hand.Free? then Whole(s.reader.buf[..n]) else {});
  }

  lemma SendKeepsTidy(s: State)
    requires Inv(s) && Tidy(s)
    ensures Tidy(DoSend(s))
  {
    var t := DoSend(s);
    if t != s {
      var token := s.reader.hand.token;
      forall i ensures Begins(token, i) <==> i in Whole(token) {
        WholeIsBegun(s.log, token, i);
      }
      GoneOver(s.path, s.gone, s.reader.pos, token);
      assert t.gone == s.gone + Whole(token) && ReaderTidy(t.path, t.gone, t.reader);
      hide *;
      GoneGrowsTidy(s, t, Whole(token));
    }
  }

  lemma StepKeepsTidy(s: State, a: Act)
    requires Inv(s) && Tidy(s) && !Compacts(a)
    ensures Tidy(Step(s, a))
  {
    hide Inv, Begins, PassedBut, DoFill, DoScan, DoSend, Accepts;
    match a
    case Write(p) =>
      if Accepts(s, p) {
        WriteKeepsTidy(s, p);
      }
    case Fill(n) => FillKeepsTidy(s, n);
    case Scan => ScanKeepsTidy(s);
    case Send => SendKeepsTidy(s);
    case Open => assert s.reader.Waiting? ==> s.path[s.reader.pos..s.reader.pos] == [] by {
      if s.reader.Waiting? {
        PassedInFile(s.path, s.gone, s.reader.pos, []);
      }
    }
    case Reset => NothingPassed(s.path, s.gone);
    case _ =>
  }

  lemma PassedInFile(path: File, gone: set<nat>, at: nat, held: File)
    requires PassedBut(path, gone, at, held)
    ensures at <= |path|
  {
  }

  // ---- so nothing is lost -------------------------------------------------------------------

  /** What begins in the file begins before an offset or behind it. */
  lemma BeginsAround(path: File, at: nat, i: nat)
    requires at <= |path| && Begins(path, i)
    ensures Begins(path[..at], i) || Begins(From(path, at), i)
  {
    assert path == path[..at] + path[at..];
    BeginsInSum(path[..at], path[at..], i);
  }

  /** Every restart finds what is left behind the checkpoint. */
  lemma TidyIsRecoverable(s: State)
    requires Tidy(s)
    ensures Recoverable(s)
  {
    forall i: nat | i < |s.log| && i !in s.gone ensures Begins(From(s.path, s.ckpt), i) {
      BeginsAround(s.path, s.ckpt, i);
      assert !Begins([], i);
      hide From;
    }
  }

  /** No write lands below the reader's place. */
  lemma TidyLosesNothing(s: State, a: Act)
    requires Inv(s) && Tidy(s) && !Compacts(a)
    ensures !Loses(s, a)
  {
    hide Begins, Regular, Accepts, JobFits, ReaderFits, CleanLines;
  }

  lemma {:induction false} RunKeepsTidy(s: State, run: seq<Act>)
    requires Inv(s) && Tidy(s) && Safe(s)
    requires forall a :: a in run ==> !Compacts(a)
    ensures Tidy(Exec(s, run)) && KeepsAll(s, run)
  {
    if run != [] {
      var n := |run| - 1;
      assert run[n] in run;
      RunKeepsTidy(s, run[..n]);
      RunKeepsInv(s, run[..n]);
      hide Inv, Tidy, Safe, Loses, Recoverable, Step;
      var before := Exec(s, run[..n]);
      StepKeepsTidy(before, run[n]);
      TidyIsRecoverable(before);
      TidyLosesNothing(before, run[n]);
    }
  }

  // ---- from the files on disk -----------------------------------------------------------------

  lemma {:induction false} FileBeginsBelow(log: seq<string>, n: nat, i: nat)
    requires n <= |log|
    ensures Begins(FileOf(log, n), i) <==> i < n
  {
    if n > 0 {
      FileBeginsBelow(log, n - 1, i);
      LineBegins(log, n - 1, 0, i);
      BeginsInSum(FileOf(log, n - 1), LineFrom(log, n - 1, 0), i);
      hide Begins, LineFrom;
    }
  }

  lemma StartIsTidy(maxBytes: nat, lines: seq<string>, first: nat)
    requires first <= |lines|
    ensures Tidy(StartState(maxBytes, lines, first))
  {
    var s := StartState(maxBytes, lines, first);
    FileIsPrefix(lines, first, |lines|);
    assert s.path[..s.ckpt] == FileOf(lines, first);
    forall i: nat ensures (Begins(s.path, i) <==> i < |lines|) && (Begins(s.path[..s.ckpt], i) <==> i < first) {
      FileBeginsBelow(lines, |lines|, i);
      FileBeginsBelow(lines, first, i);
    }
    hide FileOf, Begins;
  }

  /** From the files on disk, without a compaction and with crashes anywhere: once the
      reader is quiet every point whose Write returned nil has been handed over, and so
      has every line of the files. */
  lemma NoLossWithoutCompaction(maxBytes: nat, lines: seq<string>, first: nat, run: seq<Act>)
    requires CleanLines(lines) && first <= |lines| && forall a :: a in run ==> !Compacts(a)
    ensures KeepsAll(StartState(maxBytes, lines, first), run)
    ensures var s := StartState(maxBytes, lines, first); var t := Exec(s, run);
      Quiet(t) ==>
        && (forall i: nat :: i < |t.log| ==> i in t.gone)
        && (forall k :: 0 <= k < |Accepted(s, run)| ==> Reread(Accepted(s, run)[k]) in t.handed)
  {
    hide *;
    var s := StartState(maxBytes, lines, first);
    StartFits(maxBytes, lines, first);
    StartIsTidy(maxBytes, lines, first);
    RunKeepsTidy(s, run);
    if Quiet(Exec(s, run)) {
      AllHandedIff(s, run);
      forall k: nat | k < |Accepted(s, run)| ensures Reread(Accepted(s, run)[k]) in Exec(s, run).handed {
        AcceptedIsHanded(maxBytes, lines, first, run, k);
      }
    }
  }
}
