/** The disk queue as its goroutines really interleave (diskqueue.go): the reader
    keeps one file open for a whole pass, tryCompact decides, copies, swaps and
    resets in separate sections, and the reader's position is never moved back.
    Every byte is known by the line it came from, so what is skipped shows. */
module QueueAsWritten {
  import opened Wrappers
  import opened WalFrame
  import opened WalCodec
  import opened QueueSteps
  import C = CrashSafety

  /** Byte `at` of a line; the last one is its newline. */
  datatype Cell = Cell(line: nat, at: nat)

  type File = seq<Cell>

  /** The reader between two lines, blocked on the channel, or about to publish. */
  datatype Hand = Free | Sending(token: File) | Publishing

  /** Between passes, or in one: over the live file, or over the old one once it
      was renamed away. `next` is the file offset, `buf` what was read ahead. */
  datatype Reader =
    | Waiting(pos: nat)
    | Passing(detached: Option<File>, next: nat, buf: File, eof: bool, pos: nat, hand: Hand)

  /** Where the checkpointer goroutine stands. */
  datatype Job =
    | Resting
    | Held(at: nat)
    | Kept(at: nat)
    | Deciding
    | Draining
    | Copying(ack: nat)
    | Swapping(ack: nat, copy: File)
    | Resetting

  /** `log` holds every line ever accepted; `gone` the lines the reader has handed
      over, or gone over when they hold no point. */
  datatype State = State(
    maxBytes: nat,
    log: seq<string>,
    path: File,
    ckpt: nat,
    writePos: nat,
    sentPos: nat,
    ackPos: nat,
    reader: Reader,
    job: Job,
    waiting: nat,
    handed: seq<DataPoint>,
    gone: set<nat>)

  datatype Act =
    | Write(p: Point)
    | Open
    | Fill(n: nat)
    | Scan
    | Send
    | Publish
    | EndPass
    | Take
    | Tick
    | Save
    | Ack
    | Decide
    | Truncate
    | Copy
    | Swap
    | Reset
    | Close
    | Restart

  // ---- lines and bytes ---------------------------------------------------------

  predicate IsCell(log: seq<string>, c: Cell) {
    c.line < |log| && c.at <= |log[c.line]|
  }

  predicate IsNewline(log: seq<string>, c: Cell)
    requires IsCell(log, c)
  {
    c.at == |log[c.line]|
  }

  function Byte(log: seq<string>, c: Cell): char
    requires IsCell(log, c)
  {
    if c.at < |log[c.line]| then log[c.line][c.at] else '\n'
  }

  predicate Cells(log: seq<string>, f: File) {
    forall k :: 0 <= k < |f| ==> IsCell(log, f[k])
  }

  function Bytes(log: seq<string>, f: File): (s: string)
    requires Cells(log, f)
    ensures |s| == |f| && forall k :: 0 <= k < |f| ==> s[k] == Byte(log, f[k])
  {
    if f == [] then "" else [Byte(log, f[0])] + Bytes(log, f[1..])
  }

  /** The cells of a line, newline last. */
  function LineFrom(log: seq<string>, i: nat, at: nat): (f: File)
    requires i < |log| && at <= |log[i]|
    ensures |f| == |log[i]| + 1 - at && forall k :: 0 <= k < |f| ==> f[k] == Cell(i, at + k)
    decreases |log[i]| - at
  {
    if at == |log[i]| then [Cell(i, at)] else [Cell(i, at)] + LineFrom(log, i, at + 1)
  }

  /** The file from an offset on; nothing behind its end. */
  function From(f: File, at: nat): File {
    if at <= |f| then f[at..] else []
  }

  /** The length of the first line, newline included. */
  function TokenLength(log: seq<string>, f: File): (n: nat)
    requires Cells(log, f)
    ensures n <= |f|
  {
    if f == [] then 0 else if IsNewline(log, f[0]) then 1 else 1 + TokenLength(log, f[1..])
  }

  function TokenText(log: seq<string>, token: File): string
    requires Cells(log, token)
  {
    if token == [] then "" else Bytes(log, token[..|token| - 1])
  }

  /** Line i begins in the file. */
  predicate Begins(f: File, i: nat) {
    Cell(i, 0) in f
  }

  // ---- steps ---------------------------------------------------------------------

  predicate Accepts(s: State, p: Point) {
    Encode(p).Some? && s.writePos < s.maxBytes
  }

  function DoWrite(s: State, p: Point): State {
    if !Accepts(s, p) then s
    else
      var n, log := |s.log|, s.log + [Encode(p).value];
      s.(log := log, path := s.path + LineFrom(log, n, 0), writePos := s.writePos + |Encode(p).value| + 1)
  }

  /** What the open handle reads. */
  function Inode(s: State): File
    requires s.reader.Passing?
  {
    if s.reader.detached.Some? then s.reader.detached.value else s.path
  }

  /** A read of n bytes, up to the end of a line; none are left at the end of the
      file. The scanner reads only when it holds no whole line. */
  function DoFill(s: State, n: nat): State {
    if !s.reader.Passing? || s.reader.eof || s.reader.buf != [] || s.reader.hand != Free then s
    else
      var r, unread := s.reader, From(Inode(s), s.reader.next);
      if unread == [] then s.(reader := r.(eof := true))
      else if 0 < n <= |unread| && IsCell(s.log, unread[n - 1]) && IsNewline(s.log, unread[n - 1])
      then s.(reader := r.(buf := unread[..n], next := r.next + n))
      else s
  }

  /** The lines that begin in a token: one, or none if the token is torn. */
  function Whole(token: File): set<nat> {
    if token != [] && token[0].at == 0 then {token[0].line} else {}
  }

  function DoScan(s: State): State {
    if !s.reader.Passing? || s.reader.hand != Free || s.reader.buf == [] || !Cells(s.log, s.reader.buf) then s
    else
      var r, n := s.reader, TokenLength(s.log, s.reader.buf);
      var token, r' := r.buf[..n], r.(buf := r.buf[n..], pos := r.pos + n);
      match Decode(TokenText(s.log, token))
      case None => s.(reader := r', gone := s.gone + Whole(token))
      case Some(_) => s.(reader := r'.(hand := Sending(token)))
  }

  function DoSend(s: State): State {
    if !s.reader.Passing? || !s.reader.hand.Sending? || s.waiting >= OUT_CAPACITY || !Cells(s.log, s.reader.hand.token) then s
    else
      var token := s.reader.hand.token;
      match Decode(TokenText(s.log, token))
      case None => s
      case Some(dp) =>
        s.(reader := s.reader.(hand := Publishing), waiting := s.waiting + 1, handed := s.handed + [dp],
           gone := s.gone + Whole(token))
  }

  function DoDecide(s: State): State {
    if !s.job.Deciding? then s
    else if !WorthCompacting(s.writePos, s.ackPos) then s.(job := Resting)
    else if s.ackPos >= s.writePos then s.(job := Draining)
    else s.(job := Copying(s.ackPos))
  }

  /** The same file, cut to nothing: an open handle sees it too. */
  function DoTruncate(s: State): State {
    if !s.job.Draining? then s
    else s.(path := [], writePos := 0, sentPos := 0, ackPos := 0, job := Resetting)
  }

  /** The rename: an open handle stays with the old file. */
  function DoSwap(s: State): State {
    if !s.job.Swapping? then s
    else
      var r := if s.reader.Passing? && s.reader.detached.None? then s.reader.(detached := Some(s.path)) else s.reader;
      s.(path := s.job.copy, writePos := |s.job.copy|, ackPos := 0, reader := r, job := Resetting,
         sentPos := if s.sentPos < s.job.ack then 0 else s.sentPos - s.job.ack)
  }

  /** A crash at any moment, then NewDiskQueue and Start on the two files. */
  function DoRestart(s: State): State {
    s.(writePos := |s.path|, sentPos := s.ckpt, ackPos := s.ckpt, reader := Waiting(s.ckpt), job := Resting, waiting := 0)
  }

  function Step(s: State, a: Act): State {
    match a
    case Write(p) => DoWrite(s, p)
    case Open => if s.reader.Waiting? then s.(reader := Passing(None, s.reader.pos, [], false, s.reader.pos, Free)) else s
    case Fill(n) => DoFill(s, n)
    case Scan => DoScan(s)
    case Send => DoSend(s)
    case Publish =>
      if s.reader.Passing? && s.reader.hand.Publishing? then s.(sentPos := s.reader.pos, reader := s.reader.(hand := Free)) else s
    case EndPass =>
      if s.reader.Passing? && s.reader.eof && s.reader.buf == [] && s.reader.hand.Free? then s.(reader := Waiting(s.reader.pos)) else s
    case Take => if s.waiting > 0 then s.(waiting := s.waiting - 1) else s
    case Tick => if s.job.Resting? then s.(job := if s.sentPos != s.ackPos then Held(s.sentPos) else Deciding) else s
    case Save => if s.job.Held? then s.(ckpt := s.job.at, job := Kept(s.job.at)) else s
    case Ack => if s.job.Kept? then s.(ackPos := s.job.at, job := Deciding) else s
    case Decide => DoDecide(s)
    case Truncate => DoTruncate(s)
    case Copy => if s.job.Copying? then s.(job := Swapping(s.job.ack, From(s.path, s.job.ack))) else s
    case Swap => DoSwap(s)
    case Reset => if s.job.Resetting? then s.(ckpt := 0, job := Resting) else s
    case Close => s.(ckpt := s.sentPos)
    case Restart => DoRestart(s)
  }

  function Exec(s: State, run: seq<Act>): State {
    if run == [] then s else Step(Exec(s, run[..|run| - 1]), run[|run| - 1])
  }

  // ---- what is still to come -----------------------------------------------------

  /** What the reader holds, whatever becomes of the file: the line in its hand, its
      buffer, and the rest of a file renamed away. */
  function Secured(s: State): File {
    match s.reader
    case Waiting(_) => []
    case Passing(detached, next, buf, eof, _, hand) =>
      (if hand.Sending? then hand.token else [])
      + buf
      + (if detached.Some? && !eof then From(detached.value, next) else [])
  }

  /** The offset of the live file from which the reader will go on. */
  function Frontier(s: State): nat {
    match s.reader
    case Waiting(pos) => pos
    case Passing(detached, next, _, eof, _, _) =>
      if detached.Some? && !eof && next < |detached.value| then |detached.value| else next
  }

  /** The reader will still go over line i. */
  predicate Ahead(s: State, i: nat) {
    Begins(Secured(s), i) || Begins(From(s.path, Frontier(s)), i)
  }

  /** Accepted, not handed over, and not ahead of the reader. */
  predicate Doomed(s: State, i: nat) {
    i < |s.log| && i !in s.gone && !Ahead(s, i)
  }

  ghost predicate Safe(s: State) {
    forall i :: !Doomed(s, i)
  }

  // ---- which step loses a line ------------------------------------------------------

  /** Reading the live file to its end is still under way: a rename cannot take it
      away. */
  predicate ReadsLiveFile(r: Reader) {
    r.Passing? && r.detached.None? && !r.eof
  }

  /** A line not handed over that only the live file holds for the reader. */
  predicate Unreached(s: State, i: nat) {
    Begins(From(s.path, Frontier(s)), i) && i !in s.gone && !Begins(Secured(s), i)
  }

  /** A write below the place the reader goes on from; a truncation of a line it has
      yet to reach; a swap without such a line while the file is not being read. */
  ghost predicate Loses(s: State, a: Act) {
    match a
    case Write(p) => Accepts(s, p) && s.writePos < Frontier(s)
    case Truncate => s.job.Draining? && exists i :: Unreached(s, i)
    case Swap =>
      && s.job.Swapping? && !ReadsLiveFile(s.reader)
      && exists i :: Unreached(s, i) && !Begins(From(s.job.copy, Frontier(s)), i)
    case _ => false
  }

  // ---- files of lines ------------------------------------------------------------

  /** Behind a newline a line begins; behind any other byte comes the line's next. */
  predicate FollowsAt(log: seq<string>, f: File, k: nat)
    requires Cells(log, f)
  {
    k + 1 < |f| ==> if IsNewline(log, f[k]) then f[k + 1].at == 0 else f[k + 1] == Cell(f[k].line, f[k].at + 1)
  }

  /** Whole lines behind, at most, the rest of a torn one. */
  predicate Regular(log: seq<string>, f: File) {
    && Cells(log, f)
    && (forall k: nat :: k < |f| ==> FollowsAt(log, f, k))
    && (f != [] ==> IsNewline(log, f[|f| - 1]))
  }

  lemma RegularFrom(log: seq<string>, f: File, at: nat)
    requires Regular(log, f)
    ensures Regular(log, From(f, at))
  {
    var g := From(f, at);
    if at < |f| {
      assert g[|g| - 1] == f[|f| - 1];
      forall k: nat | k < |g| ensures FollowsAt(log, g, k) {
        assert FollowsAt(log, f, at + k);
      }
    }
  }

  lemma RegularPrefix(log: seq<string>, f: File, n: nat)
    requires Regular(log, f) && 0 < n <= |f| && IsNewline(log, f[n - 1])
    ensures Regular(log, f[..n])
  {
    forall k: nat | k < n ensures FollowsAt(log, f[..n], k) {
      assert FollowsAt(log, f, k);
    }
  }

  lemma RegularSum(log: seq<string>, f: File, g: File)
    requires Regular(log, f) && Regular(log, g) && (g != [] ==> g[0].at == 0)
    ensures Regular(log, f + g)
  {
    forall k: nat | k < |f + g| ensures FollowsAt(log, f + g, k) {
      if k < |f| {
        assert FollowsAt(log, f, k);
      } else {
        assert FollowsAt(log, g, k - |f|);
      }
    }
    assert g == [] ==> f + g == f;
  }

  lemma LineIsRegular(log: seq<string>, i: nat, at: nat)
    requires i < |log| && at <= |log[i]|
    ensures Regular(log, LineFrom(log, i, at))
  {
    hide LineFrom;
  }

  lemma RegularLonger(log: seq<string>, more: seq<string>, f: File)
    requires Regular(log, f)
    ensures Regular(log + more, f)
  {
    forall k: nat | k < |f| ensures FollowsAt(log + more, f, k) {
      assert FollowsAt(log, f, k);
    }
  }

  lemma Restored(f: File, n: nat)
    requires 0 < n <= |f|
    ensures f[..n] == [f[0]] + f[1..][..n - 1] && f[1..][n - 1..] == f[n..]
  {
  }

  lemma TokenUnfolds(log: seq<string>, f: File)
    requires Cells(log, f) && f != []
    ensures TokenLength(log, f) == if IsNewline(log, f[0]) then 1 else 1 + TokenLength(log, f[1..])
  {
  }

  lemma NextOfLine(log: seq<string>, f: File)
    requires Regular(log, f) && f != [] && !IsNewline(log, f[0])
    ensures f[1..] != [] && Regular(log, f[1..]) && f[1] == Cell(f[0].line, f[0].at + 1)
    ensures LineFrom(log, f[0].line, f[0].at) == [f[0]] + LineFrom(log, f[0].line, f[0].at + 1)
  {
    assert FollowsAt(log, f, 0);
    RegularFrom(log, f, 1);
  }

  /** The first line of a file is what its first byte's line holds from there on. */
  lemma {:induction false} TokenIs(log: seq<string>, f: File)
    requires Regular(log, f) && f != []
    ensures 0 < TokenLength(log, f)
    ensures f[..TokenLength(log, f)] == LineFrom(log, f[0].line, f[0].at)
    ensures Regular(log, f[TokenLength(log, f)..])
  {
    TokenUnfolds(log, f);
    if IsNewline(log, f[0]) {
      RegularFrom(log, f, 1);
      assert f[..1] == [f[0]];
    } else {
      NextOfLine(log, f);
      hide Regular, TokenLength, LineFrom, FollowsAt;
      TokenIs(log, f[1..]);
      Restored(f, TokenLength(log, f));
    }
  }

  lemma TextOfLine(log: seq<string>, i: nat, at: nat)
    requires i < |log| && at <= |log[i]|
    ensures Cells(log, LineFrom(log, i, at))
    ensures TokenText(log, LineFrom(log, i, at)) == log[i][at..]
    ensures Bytes(log, LineFrom(log, i, at)) == log[i][at..] + "\n"
  {
    hide LineFrom, Bytes;
  }

  lemma BytesOfSum(log: seq<string>, f: File, g: File)
    requires Cells(log, f) && Cells(log, g)
    ensures Cells(log, f + g) && Bytes(log, f + g) == Bytes(log, f) + Bytes(log, g)
  {
    hide Bytes;
  }

  lemma ScanText(line: string, at: nat, rest: string)
    requires CleanLine(line) && at <= |line|
    ensures ScanLine(line[at..] + "\n" + rest) == Some((line[at..], rest))
  {
    var text := line[at..];
    BeforeNewline(text, rest);
    assert (text + "\n" + rest)[|text| + 1..] == rest;
    assert text != "" ==> text[|text| - 1] == line[|line| - 1];
  }

  /** What the scanner sees in the bytes is this line. */
  lemma ScanSeesToken(log: seq<string>, f: File)
    requires Regular(log, f) && f != [] && CleanLines(log)
    ensures var n := TokenLength(log, f);
      ScanLine(Bytes(log, f)) == Some((TokenText(log, f[..n]), Bytes(log, f[n..])))
  {
    var n, i, at := TokenLength(log, f), f[0].line, f[0].at;
    TokenIs(log, f);
    assert Cells(log, f[..n]) && Cells(log, f[n..]) && f == f[..n] + f[n..];
    assert i < |log| && at <= |log[i]| && CleanLine(log[i]);
    hide *;
    TextOfLine(log, i, at);
    BytesOfSum(log, f[..n], f[n..]);
    ScanText(log[i], at, Bytes(log, f[n..]));
  }

  lemma LineBegins(log: seq<string>, i: nat, at: nat, j: nat)
    requires i < |log| && at <= |log[i]|
    ensures Begins(LineFrom(log, i, at), j) <==> at == 0 && j == i
  {
    hide LineFrom;
    if at == 0 {
      assert LineFrom(log, i, 0)[0] == Cell(i, 0);
    }
  }

  lemma BeginsInSum(f: File, g: File, i: nat)
    ensures Begins(f + g, i) <==> Begins(f, i) || Begins(g, i)
  {
  }

  // ---- what every step keeps ---------------------------------------------------------

  predicate HandFits(log: seq<string>, hand: Hand) {
    hand.Sending? ==>
      && hand.token != [] && Cells(log, hand.token) && hand.token == LineFrom(log, hand.token[0].line, hand.token[0].at)
      && Decode(TokenText(log, hand.token)).Some?
  }

  predicate ReaderFits(log: seq<string>, r: Reader) {
    r.Passing? ==>
      && Regular(log, r.buf) && r.pos + |r.buf| == r.next
      && (r.detached.Some? ==> Regular(log, r.detached.value))
      && HandFits(log, r.hand)
  }

  predicate JobFits(log: seq<string>, path: File, job: Job) {
    && (job.Copying? ==> job.ack <= |path|)
    && (job.Swapping? ==> job.ack <= |path| && job.copy <= path[job.ack..] && Regular(log, job.copy))
  }

  ghost predicate Inv(s: State) {
    && CleanLines(s.log)
    && Regular(s.log, s.path) && s.writePos == |s.path|
    && ReaderFits(s.log, s.reader)
    && JobFits(s.log, s.path, s.job)
    && (forall i :: i in s.gone ==> i < |s.log|)
  }

  lemma WriteKeepsInv(s: State, p: Point)
    requires Inv(s)
    ensures Inv(DoWrite(s, p))
  {
    if Accepts(s, p) {
      LineIsClean(p);
      var line := Encode(p).value;
      var n, log := |s.log|, s.log + [line];
      assert CleanLine(line);
      hide Encode, LineFrom;
      var cells := LineFrom(log, n, 0);
      RegularLonger(s.log, [line], s.path);
      LineIsRegular(log, n, 0);
      RegularSum(log, s.path, cells);
      ReaderFitsLonger(s.log, line, s.reader);
      JobFitsLonger(s.log, line, s.path, cells, s.job);
      hide Regular;
    }
  }

  lemma LineOfLonger(log: seq<string>, line: string, i: nat, at: nat)
    requires i < |log| && at <= |log[i]|
    ensures LineFrom(log + [line], i, at) == LineFrom(log, i, at)
  {
    hide LineFrom;
  }

  lemma TextOfLonger(log: seq<string>, line: string, token: File)
    requires Cells(log, token)
    ensures Cells(log + [line], token) && TokenText(log + [line], token) == TokenText(log, token)
  {
    hide Bytes;
    if token != [] {
      var f := token[..|token| - 1];
      assert Bytes(log + [line], f) == Bytes(log, f);
    }
  }

  lemma ReaderFitsLonger(log: seq<string>, line: string, r: Reader)
    requires ReaderFits(log, r)
    ensures ReaderFits(log + [line], r)
  {
    if r.Passing? {
      RegularLonger(log, [line], r.buf);
      if r.detached.Some? {
        RegularLonger(log, [line], r.detached.value);
      }
      if r.hand.Sending? {
        LineOfLonger(log, line, r.hand.token[0].line, r.hand.token[0].at);
        TextOfLonger(log, line, r.hand.token);
      }
      hide Regular, Decode, TokenText, LineFrom;
    }
  }

  lemma JobFitsLonger(log: seq<string>, line: string, path: File, cells: File, job: Job)
    requires JobFits(log, path, job)
    ensures JobFits(log + [line], path + cells, job)
  {
    if job.Swapping? {
      RegularLonger(log, [line], job.copy);
      assert (path + cells)[job.ack..] == path[job.ack..] + cells;
    }
    hide Regular;
  }

  lemma FillKeepsInv(s: State, n: nat)
    requires Inv(s)
    ensures Inv(DoFill(s, n))
  {
    if s.reader.Passing? {
      var unread := From(Inode(s), s.reader.next);
      RegularFrom(s.log, Inode(s), s.reader.next);
      if 0 < n <= |unread| && IsNewline(s.log, unread[n - 1]) {
        RegularPrefix(s.log, unread, n);
      }
      hide Regular, From, HandFits;
    }
  }

  lemma ScanKeepsInv(s: State)
    requires Inv(s)
    ensures Inv(DoScan(s))
  {
    if s.reader.Passing? && s.reader.buf != [] {
      var r, n := s.reader, TokenLength(s.log, s.reader.buf);
      TokenIs(s.log, r.buf);
      hide Regular, TokenLength, LineFrom, Decode, TokenText, JobFits;
      assert Cells(s.log, r.buf[..n]);
      assert r.buf[..n][0] == r.buf[0];
      assert IsCell(s.log, r.buf[0]);
    }
  }

  lemma SendKeepsInv(s: State)
    requires Inv(s)
    ensures Inv(DoSend(s))
  {
    hide Regular, LineFrom, Decode, TokenText, JobFits;
  }

  lemma CompactKeepsInv(s: State, a: Act)
    requires Inv(s) && (a.Decide? || a.Truncate? || a.Copy? || a.Swap?)
    ensures Inv(Step(s, a))
  {
    if a.Copy? && s.job.Copying? {
      RegularFrom(s.log, s.path, s.job.ack);
    }
    hide Regular, HandFits;
  }

  lemma StepKeepsInv(s: State, a: Act)
    requires Inv(s)
    ensures Inv(Step(s, a))
  {
    match a
    case Write(p) => WriteKeepsInv(s, p);
    case Fill(n) => FillKeepsInv(s, n);
    case Scan => ScanKeepsInv(s);
    case Send => SendKeepsInv(s);
    case Decide => CompactKeepsInv(s, a);
    case Truncate => CompactKeepsInv(s, a);
    case Copy => CompactKeepsInv(s, a);
    case Swap => CompactKeepsInv(s, a);
    case _ =>
      hide Regular, LineFrom, Decode, TokenText, CleanLines;
  }

  // ---- what becomes of each line -------------------------------------------------------

  /** Same log, same lines handed over, same lines ahead. */
  lemma SameDoom(s: State, t: State, i: nat)
    requires t.log == s.log && t.gone == s.gone && (Ahead(t, i) <==> Ahead(s, i))
    ensures Doomed(t, i) <==> Doomed(s, i)
  {
    hide Ahead;
  }

  lemma BeginsInLog(log: seq<string>, f: File, i: nat)
    requires Cells(log, f) && Begins(f, i)
    ensures i < |log|
  {
  }

  lemma FromOfSum(f: File, g: File, at: nat)
    ensures From(f + g, at) == if at <= |f| then From(f, at) + g else From(g, at - |f|)
  {
  }

  lemma TailBegins(log: seq<string>, i: nat, at: nat, j: nat)
    requires i < |log| && at > 0
    ensures !Begins(From(LineFrom(log, i, 0), at), j)
  {
    hide LineFrom;
  }

  /** The part of the path behind the frontier, after a line was appended. */
  lemma AppendedBegins(log: seq<string>, path: File, n: nat, at: nat, i: nat)
    requires n < |log|
    ensures Begins(From(path + LineFrom(log, n, 0), at), i) <==> Begins(From(path, at), i) || (i == n && at <= |path|)
  {
    hide LineFrom;
    FromOfSum(path, LineFrom(log, n, 0), at);
    LineBegins(log, n, 0, i);
    if at <= |path| {
      BeginsInSum(From(path, at), LineFrom(log, n, 0), i);
    } else {
      TailBegins(log, n, at - |path|, i);
    }
  }

  lemma AheadInLog(s: State, i: nat)
    requires Inv(s) && Ahead(s, i)
    ensures i < |s.log|
  {
    if Begins(Secured(s), i) {
      SecuredInLog(s, i);
    } else {
      RegularFrom(s.log, s.path, Frontier(s));
      BeginsInLog(s.log, From(s.path, Frontier(s)), i);
    }
  }

  /** A new line is doomed from the start iff it lands below the place the reader
      goes on from; no other line is touched. */
  lemma WriteDooms(s: State, p: Point, i: nat)
    requires Inv(s) && Accepts(s, p)
    ensures Doomed(DoWrite(s, p), i) <==> Doomed(s, i) || (i == |s.log| && Loses(s, Act.Write(p)))
  {
    var t, n := DoWrite(s, p), |s.log|;
    SameReader(s, t);
    AppendedBegins(t.log, s.path, n, Frontier(s), i);
    assert i in s.gone ==> i < n;
    assert s.writePos == |s.path|;
    if Ahead(s, i) {
      AheadInLog(s, i);
    }
    hide LineFrom, Encode, From, Frontier, Secured, Begins, Inv;
  }

  lemma SameReader(s: State, t: State)
    requires s.reader == t.reader
    ensures Secured(t) == Secured(s) && Frontier(t) == Frontier(s)
  {
  }

  lemma SecuredInLog(s: State, i: nat)
    requires Inv(s) && Begins(Secured(s), i)
    ensures i < |s.log|
  {
  }

  lemma FromFrom(f: File, at: nat, n: nat)
    requires at + n <= |f|
    ensures From(f, at) == From(f, at)[..n] + From(f, at + n)
    ensures |From(f, at)| == |f| - at
  {
  }

  function Unread(r: Reader): File {
    if r.Passing? && r.detached.Some? && !r.eof then From(r.detached.value, r.next) else []
  }

  lemma SecuredIs(s: State)
    requires s.reader.Passing?
    ensures !s.reader.hand.Sending? ==> Secured(s) == s.reader.buf + Unread(s.reader)
    ensures s.reader.hand.Sending? ==> Secured(s) == s.reader.hand.token + (s.reader.buf + Unread(s.reader))
  {
    assert [] + s.reader.buf == s.reader.buf;
  }

  lemma FillOld(s: State, n: nat)
    requires s.reader.Passing? && s.reader.detached.Some? && !s.reader.eof && s.reader.buf == [] && s.reader.hand == Free
    requires s.reader.next + n <= |s.reader.detached.value|
    ensures var f, r := s.reader.detached.value, s.reader;
      var t := s.(reader := r.(buf := From(f, r.next)[..n], next := r.next + n));
      |From(f, r.next)| >= n && Secured(t) == Secured(s) && Frontier(t) == Frontier(s)
  {
    hide *;
    var f, r := s.reader.detached.value, s.reader;
    FromFrom(f, r.next, n);
    var ahead, rest := From(f, r.next), From(f, r.next + n);
    var t := s.(reader := r.(buf := ahead[..n], next := r.next + n));
    SecuredIs(s);
    SecuredIs(t);
    UnreadIs(r);
    UnreadIs(t.reader);
    FrontierOfOld(s);
    FrontierOfOld(t);
    assert [] + ahead == ahead;
  }

  lemma UnreadIs(r: Reader)
    requires r.Passing? && r.detached.Some? && !r.eof
    ensures Unread(r) == From(r.detached.value, r.next)
  {
  }

  /** As long as the old file is not read to its end the live one begins behind it. */
  lemma FrontierOfOld(s: State)
    requires s.reader.Passing? && s.reader.detached.Some? && !s.reader.eof && s.reader.next <= |s.reader.detached.value|
    ensures Frontier(s) == |s.reader.detached.value|
  {
  }

  lemma FillLive(s: State, n: nat, i: nat)
    requires ReadsLiveFile(s.reader) && s.reader.buf == [] && s.reader.hand == Free && s.reader.next + n <= |s.path|
    ensures var r := s.reader;
      var t := s.(reader := r.(buf := From(s.path, r.next)[..n], next := r.next + n));
      |From(s.path, r.next)| >= n && (Ahead(t, i) <==> Ahead(s, i))
  {
    var r := s.reader;
    FromFrom(s.path, r.next, n);
    BeginsInSum(From(s.path, r.next)[..n], From(s.path, r.next + n), i);
    var t := s.(reader := r.(buf := From(s.path, r.next)[..n], next := r.next + n));
    assert Secured(s) == [] && Secured(t) == From(s.path, r.next)[..n];
    assert Frontier(s) == r.next && Frontier(t) == r.next + n;
    hide Begins, From;
  }

  lemma EofMovesNothing(s: State)
    requires s.reader.Passing? && !s.reader.eof && From(Inode(s), s.reader.next) == []
    ensures var t := s.(reader := s.reader.(eof := true));
      Secured(t) == Secured(s) && Frontier(t) == Frontier(s)
  {
  }

  /** Reading ahead moves bytes from the file into the buffer. */
  lemma FillDoomsNothing(s: State, n: nat, i: nat)
    requires Inv(s)
    ensures Doomed(DoFill(s, n), i) <==> Doomed(s, i)
  {
    var t := DoFill(s, n);
    if t != s {
      hide Inv;
      if t.reader.eof {
        EofMovesNothing(s);
        hide Secured, Frontier, From;
      } else if s.reader.detached.Some? {
        FillOld(s, n);
        hide Secured, Frontier, From;
      } else {
        FillLive(s, n, i);
        hide Secured, Frontier, From;
      }
      SameDoom(s, t, i);
    }
  }

  lemma WholeIsBegun(log: seq<string>, token: File, i: nat)
    requires token != [] && Cells(log, token) && token == LineFrom(log, token[0].line, token[0].at)
    ensures Begins(token, i) <==> i in Whole(token)
  {
    LineBegins(log, token[0].line, token[0].at, i);
  }

  /** A line leaves the reader's hold for the lines handed over. */
  lemma TokenLeaves(s: State, t: State, token: File, rest: File, i: nat)
    requires Secured(s) == token + rest && Secured(t) == rest && Frontier(t) == Frontier(s)
    requires t.log == s.log && t.path == s.path && t.gone == s.gone + Whole(token)
    requires Begins(token, i) <==> i in Whole(token)
    ensures Doomed(t, i) <==> Doomed(s, i)
  {
    BeginsInSum(token, rest, i);
    hide Begins, From, Whole, Secured, Frontier;
  }

  lemma BufferIsRegular(s: State)
    requires Inv(s) && s.reader.Passing?
    ensures Regular(s.log, s.reader.buf)
  {
    hide Regular;
  }

  lemma FirstToken(log: seq<string>, f: File)
    requires Regular(log, f) && f != []
    ensures var token := f[..TokenLength(log, f)];
      token != [] && Cells(log, token) && token == LineFrom(log, token[0].line, token[0].at)
  {
    TokenIs(log, f);
    assert f[..TokenLength(log, f)][0] == f[0];
    hide TokenLength, LineFrom;
  }

  lemma SplitBehind(s: File, n: nat, rest: File)
    requires n <= |s|
    ensures s + rest == s[..n] + (s[n..] + rest)
  {
  }

  lemma ScanSplits(s: State, i: nat)
    requires Inv(s) && s.reader.Passing? && s.reader.hand == Free && s.reader.buf != []
    ensures Cells(s.log, s.reader.buf)
    ensures var r, n := s.reader, TokenLength(s.log, s.reader.buf);
      var token, behind := r.buf[..n], r.buf[n..] + Unread(r);
      && Secured(s) == token + behind
      && token != [] && Cells(s.log, token)
      && (Begins(token, i) <==> i in Whole(token))
  {
    BufferIsRegular(s);
    FirstToken(s.log, s.reader.buf);
    SecuredIs(s);
    var n := TokenLength(s.log, s.reader.buf);
    hide *;
    WholeIsBegun(s.log, s.reader.buf[..n], i);
    SplitBehind(s.reader.buf, n, Unread(s.reader));
  }

  /** The line scanned is then in the hand, or gone over. */
  lemma ScanDoomsNothing(s: State, i: nat)
    requires Inv(s)
    ensures Doomed(DoScan(s), i) <==> Doomed(s, i)
  {
    var t := DoScan(s);
    if t != s {
      var r, n := s.reader, TokenLength(s.log, s.reader.buf);
      ScanSplits(s, i);
      SecuredIs(t);
      assert Frontier(t) == Frontier(s) && Unread(t.reader) == Unread(r);
      hide Inv, Frontier, Unread, Secured, Begins, Whole, Cells, TokenLength, Decode, TokenText;
      if t.reader.hand.Sending? {
        SameDoom(s, t, i);
      } else {
        TokenLeaves(s, t, r.buf[..n], r.buf[n..] + Unread(r), i);
      }
    }
  }

  /** The line in the hand is handed over. */
  lemma SendDoomsNothing(s: State, i: nat)
    requires Inv(s)
    ensures Doomed(DoSend(s), i) <==> Doomed(s, i)
  {
    var t := DoSend(s);
    if t != s {
      var token := s.reader.hand.token;
      WholeIsBegun(s.log, token, i);
      SecuredIs(s);
      SecuredIs(t);
      assert Frontier(t) == Frontier(s) && Unread(t.reader) == Unread(s.reader);
      hide Inv, Frontier, Unread, Secured, Begins, Whole, LineFrom, Decode, TokenText;
      TokenLeaves(s, t, token, s.reader.buf + Unread(s.reader), i);
    }
  }

  /** Opening the file, ending a pass and publishing move nothing. */
  lemma TurnDoomsNothing(s: State, a: Act, i: nat)
    requires Inv(s) && (a.Open? || a.EndPass? || a.Publish?)
    ensures Doomed(Step(s, a), i) <==> Doomed(s, i)
  {
    var t := Step(s, a);
    assert Secured(t) == Secured(s) && Frontier(t) == Frontier(s);
    SameDoom(s, t, i);
  }

  lemma TruncateDooms(s: State, i: nat)
    requires Inv(s) && s.job.Draining?
    ensures Doomed(DoTruncate(s), i) <==> Doomed(s, i) || Unreached(s, i)
  {
    var t := DoTruncate(s);
    SameReader(s, t);
    assert From(t.path, Frontier(t)) == [];
    if Unreached(s, i) {
      AheadInLog(s, i);
    }
    hide Secured, Frontier, Inv, From;
  }

  /** What the copy holds behind the frontier, the file holds there too: cutting
      the front only moves lines down. */
  lemma CopyBeginsLower(path: File, ack: nat, copy: File, at: nat, i: nat)
    requires ack <= |path| && copy <= path[ack..] && Begins(From(copy, at), i)
    ensures Begins(From(path, at), i)
  {
    var c := Cell(i, 0);
    var k :| 0 <= k < |From(copy, at)| && From(copy, at)[k] == c;
    assert copy[at + k] == path[ack + at + k];
    assert From(path, at)[ack + k] == c;
  }

  lemma SwapDooms(s: State, i: nat)
    requires Inv(s) && s.job.Swapping? && !ReadsLiveFile(s.reader)
    ensures Doomed(DoSwap(s), i) <==> Doomed(s, i) || (Unreached(s, i) && !Begins(From(s.job.copy, Frontier(s)), i))
  {
    var t, at := DoSwap(s), Frontier(s);
    assert Secured(t) == Secured(s) && Frontier(t) == at;
    if Begins(From(s.job.copy, at), i) {
      CopyBeginsLower(s.path, s.job.ack, s.job.copy, at, i);
    }
    if Unreached(s, i) {
      AheadInLog(s, i);
    }
    hide Secured, Frontier, Inv, From, Begins;
  }

  /** A rename under a reader in the middle of the live file loses nothing. */
  lemma SwapUnderReader(s: State, i: nat)
    requires Inv(s) && s.job.Swapping? && ReadsLiveFile(s.reader)
    ensures Doomed(DoSwap(s), i) <==> Doomed(s, i)
  {
    var t, next := DoSwap(s), s.reader.next;
    var held := (if s.reader.hand.Sending? then s.reader.hand.token else []) + s.reader.buf;
    assert Secured(s) == held + [] == held;
    assert Secured(t) == held + From(s.path, next);
    BeginsInSum(held, From(s.path, next), i);
    assert |s.job.copy| <= |s.path| && Frontier(t) >= |s.path|;
    assert From(t.path, Frontier(t)) == [];
    assert Frontier(s) == next;
    hide Secured, Frontier, From, Inv;
  }

  lemma OtherDoomsNothing(s: State, a: Act, i: nat)
    requires a.Take? || a.Tick? || a.Save? || a.Ack? || a.Decide? || a.Copy? || a.Reset? || a.Close?
    ensures Doomed(Step(s, a), i) <==> Doomed(s, i)
  {
    var t := Step(s, a);
    SameReader(s, t);
    hide Secured, Frontier;
  }

  /** Which lines a step dooms: none that it does not lose, and none is ever saved
      again but by a restart. */
  predicate LostBy(s: State, a: Act, i: nat)
    requires !a.Restart?
  {
    match a
    case Write(p) => Accepts(s, p) && i == |s.log| && s.writePos < Frontier(s)
    case Truncate => s.job.Draining? && Unreached(s, i)
    case Swap =>
      s.job.Swapping? && !ReadsLiveFile(s.reader) && Unreached(s, i) && !Begins(From(s.job.copy, Frontier(s)), i)
    case _ => false
  }

  lemma StepDooms(s: State, a: Act, i: nat)
    requires Inv(s) && !a.Restart?
    ensures Doomed(Step(s, a), i) <==> Doomed(s, i) || LostBy(s, a, i)
  {
    hide Doomed, Inv, Unreached, Begins, From, Frontier, Accepts, DoFill, DoScan, DoSend;
    match a
    case Write(p) =>
      if Accepts(s, p) {
        WriteDooms(s, p, i);
      } else {
        assert DoWrite(s, p) == s;
      }
    case Fill(n) => FillDoomsNothing(s, n, i);
    case Scan => ScanDoomsNothing(s, i);
    case Send => SendDoomsNothing(s, i);
    case Truncate =>
      if s.job.Draining? {
        TruncateDooms(s, i);
      }
    case Swap =>
      if s.job.Swapping? {
        if ReadsLiveFile(s.reader) {
          SwapUnderReader(s, i);
        } else {
          SwapDooms(s, i);
        }
      }
    case Open => TurnDoomsNothing(s, a, i);
    case EndPass => TurnDoomsNothing(s, a, i);
    case Publish => TurnDoomsNothing(s, a, i);
    case _ => OtherDoomsNothing(s, a, i);
  }

  lemma LosesIff(s: State, a: Act)
    requires !a.Restart?
    ensures Loses(s, a) <==> exists i :: LostBy(s, a, i)
  {
    hide Unreached, Begins, From, Frontier, Accepts;
    if Loses(s, a) {
      match a
      case Write(p) => assert LostBy(s, a, |s.log|);
      case Truncate =>
        var i :| Unreached(s, i);
        assert LostBy(s, a, i);
      case Swap =>
        var i :| Unreached(s, i) && !Begins(From(s.job.copy, Frontier(s)), i);
        assert LostBy(s, a, i);
      case _ =>
    }
  }

  lemma StepSafeIff(s: State, a: Act)
    requires Inv(s) && !a.Restart?
    ensures Safe(Step(s, a)) <==> Safe(s) && !Loses(s, a)
  {
    forall i ensures Doomed(Step(s, a), i) <==> Doomed(s, i) || LostBy(s, a, i) {
      StepDooms(s, a, i);
    }
    LosesIff(s, a);
    hide Doomed, LostBy, Loses, Step;
    if Safe(Step(s, a)) {
      forall i ensures !Doomed(s, i) && !LostBy(s, a, i) {
        assert !Doomed(Step(s, a), i);
      }
    }
  }

  // ---- whole runs --------------------------------------------------------------------

  /** Every line not handed over begins at or behind the saved checkpoint: a restart
      reads it. */
  ghost predicate Recoverable(s: State) {
    forall i: nat :: i < |s.log| && i !in s.gone ==> Begins(From(s.path, s.ckpt), i)
  }

  lemma RestartSafeIff(s: State)
    ensures Safe(DoRestart(s)) <==> Recoverable(s)
  {
    var t := DoRestart(s);
    assert Secured(t) == [] && Frontier(t) == s.ckpt;
    forall i: nat ensures Doomed(t, i) <==> i < |s.log| && i !in s.gone && !Begins(From(s.path, s.ckpt), i) {
    }
    hide Doomed, Begins, From;
    if Safe(t) {
      forall i: nat | i < |s.log| && i !in s.gone ensures Begins(From(s.path, s.ckpt), i) {
        assert !Doomed(t, i);
      }
    }
  }

  /** The last restart, if any, found every line in reach of the checkpoint, and no
      step since has lost one. */
  ghost predicate KeepsAll(s: State, run: seq<Act>) {
    if run == [] then Safe(s)
    else
      var before, a := Exec(s, run[..|run| - 1]), run[|run| - 1];
      if a.Restart? then Recoverable(before) else KeepsAll(s, run[..|run| - 1]) && !Loses(before, a)
  }

  lemma {:induction false} RunKeepsInv(s: State, run: seq<Act>)
    requires Inv(s)
    ensures Inv(Exec(s, run))
  {
    if run != [] {
      hide Inv, Step;
      RunKeepsInv(s, run[..|run| - 1]);
      StepKeepsInv(Exec(s, run[..|run| - 1]), run[|run| - 1]);
    }
  }

  lemma {:induction false} RunSafeIff(s: State, run: seq<Act>)
    requires Inv(s)
    ensures Safe(Exec(s, run)) <==> KeepsAll(s, run)
  {
    hide *;
    if run == [] {
      NothingRun(s);
    } else {
      var n := |run| - 1;
      var before := Exec(s, run[..n]);
      RunSafeIff(s, run[..n]);
      RunKeepsInv(s, run[..n]);
      KeepsUnfolds(s, run);
      if run[n].Restart? {
        RestartSafeIff(before);
        RestartIs(before);
      } else {
        StepSafeIff(before, run[n]);
      }
    }
  }

  lemma NothingRun(s: State)
    ensures Exec(s, []) == s && (KeepsAll(s, []) <==> Safe(s))
  {
    hide Step, Safe;
  }

  lemma KeepsUnfolds(s: State, run: seq<Act>)
    requires run != []
    ensures var n := |run| - 1; var before := Exec(s, run[..n]);
      && Exec(s, run) == Step(before, run[n])
      && (KeepsAll(s, run) <==> if run[n].Restart? then Recoverable(before) else KeepsAll(s, run[..n]) && !Loses(before, run[n]))
  {
    hide Step, Safe, Loses, Recoverable;
  }

  lemma RestartIs(s: State)
    ensures Step(s, Act.Restart) == DoRestart(s)
  {
    hide DoRestart;
  }

  /** The reader has nothing in hand and stands at or past the end of the file. */
  predicate Quiet(s: State) {
    Secured(s) == [] && |s.path| <= Frontier(s)
  }

  lemma QuietSafeIff(s: State)
    requires Quiet(s)
    ensures Safe(s) <==> forall i: nat :: i < |s.log| ==> i in s.gone
  {
    assert From(s.path, Frontier(s)) == [];
    hide Secured, Frontier, From;
    if Safe(s) {
      forall i: nat | i < |s.log| ensures i in s.gone {
        assert !Doomed(s, i);
      }
    }
  }

  /** Over any run of the goroutines and any crashes: once the reader is quiet it
      has handed over every line ever accepted iff the last restart found every
      line not yet handed over behind the checkpoint and no step since was a write
      below the reader's place, a truncation of an unreached line, or a swap
      without one. */
  lemma AllHandedIff(s: State, run: seq<Act>)
    requires Inv(s) && Quiet(Exec(s, run))
    ensures (forall i: nat :: i < |Exec(s, run).log| ==> i in Exec(s, run).gone) <==> KeepsAll(s, run)
  {
    RunSafeIff(s, run);
    QuietSafeIff(Exec(s, run));
    hide Exec, Safe, KeepsAll, Quiet;
  }

  // ---- from the files on disk ----------------------------------------------------------

  /** The file of the first n lines. */
  function FileOf(log: seq<string>, n: nat): File
    requires n <= |log|
  {
    if n == 0 then [] else FileOf(log, n - 1) + LineFrom(log, n - 1, 0)
  }

  lemma {:induction false} FileIsPrefix(log: seq<string>, m: nat, n: nat)
    requires m <= n <= |log|
    ensures FileOf(log, m) <= FileOf(log, n)
    decreases n
  {
    if m < n {
      FileIsPrefix(log, m, n - 1);
      hide LineFrom;
    }
  }

  lemma {:induction false} FileIsRegular(log: seq<string>, n: nat)
    requires n <= |log|
    ensures Regular(log, FileOf(log, n))
  {
    if n > 0 {
      FileIsRegular(log, n - 1);
      LineIsRegular(log, n - 1, 0);
      hide Regular, LineFrom;
      assert LineFrom(log, n - 1, 0)[0].at == 0;
      RegularSum(log, FileOf(log, n - 1), LineFrom(log, n - 1, 0));
    }
  }

  /** Its bytes are the write-ahead log of these lines. */
  lemma {:induction false} FileIsFrame(log: seq<string>, n: nat)
    requires n <= |log|
    ensures Cells(log, FileOf(log, n)) && Bytes(log, FileOf(log, n)) == Frame(log[..n])
  {
    hide *;
    FileUnfolds(log, n);
    if n > 0 {
      FileIsFrame(log, n - 1);
      TextOfLine(log, n - 1, 0);
      BytesOfSum(log, FileOf(log, n - 1), LineFrom(log, n - 1, 0));
      FrameAppend(log[..n - 1], [log[n - 1]]);
      assert log[..n] == log[..n - 1] + [log[n - 1]];
      FrameOfOne(log[n - 1]);
      assert log[n - 1][0..] == log[n - 1];
    } else {
      assert log[..0] == [];
    }
  }

  lemma FrameOfOne(line: string)
    ensures Frame([line]) == line + "\n"
  {
    assert [line][1..] == [] && Frame([]) == "" && line + "\n" + "" == line + "\n";
  }

  lemma FileUnfolds(log: seq<string>, n: nat)
    requires n <= |log|
    ensures n == 0 ==> FileOf(log, n) == [] && Cells(log, []) && Bytes(log, []) == "" && Frame([]) == ""
    ensures n > 0 ==> FileOf(log, n) == FileOf(log, n - 1) + LineFrom(log, n - 1, 0)
  {
    hide LineFrom;
  }

  function Upto(n: nat): (r: set<nat>)
    ensures forall i: nat :: i in r <==> i < n
  {
    if n == 0 then {} else Upto(n - 1) + {n - 1}
  }

  /** A fresh agent on a file of these lines, checkpointed before line `first`. */
  function StartState(maxBytes: nat, lines: seq<string>, first: nat): State
    requires first <= |lines|
  {
    var path, ckpt := FileOf(lines, |lines|), |FileOf(lines, first)|;
    State(maxBytes, lines, path, ckpt, |path|, ckpt, ckpt, Waiting(ckpt), Resting, 0, [], Upto(first))
  }

  /** The lines from `first` on begin behind its offset. */
  lemma {:induction false} FileBegins(log: seq<string>, first: nat, n: nat, i: nat)
    requires first <= n <= |log|
    ensures |FileOf(log, first)| <= |FileOf(log, n)|
    ensures first <= i < n ==> Begins(From(FileOf(log, n), |FileOf(log, first)|), i)
    decreases n
  {
    if first < n {
      FileBegins(log, first, n - 1, i);
      AppendedBegins(log, FileOf(log, n - 1), n - 1, |FileOf(log, first)|, i);
      hide From, Begins, LineFrom;
    }
  }

  lemma StartFits(maxBytes: nat, lines: seq<string>, first: nat)
    requires CleanLines(lines) && first <= |lines|
    ensures Inv(StartState(maxBytes, lines, first)) && Safe(StartState(maxBytes, lines, first))
  {
    var s := StartState(maxBytes, lines, first);
    FileIsRegular(lines, |lines|);
    assert Frontier(s) == s.ckpt;
    forall i: nat ensures !Doomed(s, i) {
      FileBegins(lines, first, |lines|, i);
      hide FileOf, From, Begins, Regular;
    }
    hide FileOf, Regular, Doomed;
  }

  // ---- a line handed over is a point handed over -----------------------------------------

  ghost predicate GoneIsHanded(s: State, first: nat) {
    forall i :: i in s.gone && first <= i < |s.log| && Decode(s.log[i]).Some? ==> Decode(s.log[i]).value in s.handed
  }

  lemma WholeText(log: seq<string>, token: File, i: nat)
    requires token != [] && Cells(log, token) && token == LineFrom(log, token[0].line, token[0].at) && i in Whole(token)
    ensures i < |log| && TokenText(log, token) == log[i]
  {
    assert IsCell(log, token[0]);
    TextOfLine(log, i, 0);
    hide LineFrom, Bytes;
  }

  /** Going over a line: its point, if it holds one, is among those handed over. */
  lemma TokenKeepsHanded(s: State, t: State, token: File, first: nat)
    requires GoneIsHanded(s, first) && t.log == s.log && t.gone == s.gone + Whole(token)
    requires token != [] && Cells(s.log, token) && token == LineFrom(s.log, token[0].line, token[0].at)
    requires match Decode(TokenText(s.log, token))
             case None => t.handed == s.handed
             case Some(dp) => t.handed == s.handed + [dp]
    ensures GoneIsHanded(t, first)
  {
    forall i | i in t.gone && first <= i < |t.log| && Decode(t.log[i]).Some? ensures Decode(t.log[i]).value in t.handed {
      if i in Whole(token) {
        WholeText(s.log, token, i);
      }
      hide Decode, TokenText, LineFrom, Cells;
    }
  }

  lemma ScanKeepsHanded(s: State, first: nat)
    requires Inv(s) && GoneIsHanded(s, first)
    ensures GoneIsHanded(DoScan(s), first)
  {
    var t := DoScan(s);
    if t != s {
      var n := TokenLength(s.log, s.reader.buf);
      var token := s.reader.buf[..n];
      TokenIs(s.log, s.reader.buf);
      assert token[0] == s.reader.buf[0] && Cells(s.log, token);
      hide Inv, TokenLength, LineFrom, Cells, Decode, TokenText, Whole, Regular;
      if !t.reader.hand.Sending? {
        TokenKeepsHanded(s, t, token, first);
      }
    }
  }

  lemma SendKeepsHanded(s: State, first: nat)
    requires Inv(s) && GoneIsHanded(s, first)
    ensures GoneIsHanded(DoSend(s), first)
  {
    var t := DoSend(s);
    if t != s {
      hide LineFrom, Cells, Decode, TokenText, Whole, Regular, JobFits;
      TokenKeepsHanded(s, t, s.reader.hand.token, first);
    }
  }

  lemma StepKeepsHanded(s: State, a: Act, first: nat)
    requires Inv(s) && GoneIsHanded(s, first)
    ensures GoneIsHanded(Step(s, a), first)
  {
    hide Inv, DoScan, DoSend, Decode, Encode;
    if a.Scan? {
      ScanKeepsHanded(s, first);
    } else if a.Send? {
      SendKeepsHanded(s, first);
    } else {
      var t := Step(s, a);
      GoneInLog(s);
      assert t.gone == s.gone && t.handed == s.handed && s.log <= t.log;
    }
  }

  lemma GoneInLog(s: State)
    requires Inv(s)
    ensures forall i :: i in s.gone ==> i < |s.log|
  {
  }

  lemma {:induction false} RunKeepsHanded(s: State, run: seq<Act>, first: nat)
    requires Inv(s) && GoneIsHanded(s, first)
    ensures GoneIsHanded(Exec(s, run), first)
  {
    if run != [] {
      var n := |run| - 1;
      RunKeepsHanded(s, run[..n], first);
      RunKeepsInv(s, run[..n]);
      hide Inv, GoneIsHanded, Step;
      StepKeepsHanded(Exec(s, run[..n]), run[n], first);
    }
  }

  /** The points whose Write returned nil, in order. */
  function Accepted(s: State, run: seq<Act>): seq<Point> {
    if run == [] then []
    else
      var before, a := Exec(s, run[..|run| - 1]), run[|run| - 1];
      Accepted(s, run[..|run| - 1]) + AcceptedNow(before, a)
  }

  lemma StepLog(s: State, a: Act)
    ensures Step(s, a).log == s.log + C.Encoded(AcceptedNow(s, a))
  {
    hide Encode, Decode, TokenText, TokenLength;
    if a.Write? && Accepts(s, a.p) {
      assert C.Encoded([a.p][1..]) == [];
    } else {
      assert Step(s, a).log == s.log == s.log + [];
    }
  }

  function AcceptedNow(s: State, a: Act): seq<Point> {
    if a.Write? && Accepts(s, a.p) then [a.p] else []
  }

  lemma {:induction false} LogIs(s: State, run: seq<Act>)
    ensures Exec(s, run).log == s.log + C.Encoded(Accepted(s, run))
  {
    hide *;
    if run == [] {
      NothingLogged(s);
    } else {
      var n := |run| - 1;
      var before, a := Exec(s, run[..n]), run[n];
      OneMoreStep(s, run);
      LogIs(s, run[..n]);
      StepLog(before, a);
      C.EncodedAppend(Accepted(s, run[..n]), AcceptedNow(before, a));
    }
  }

  lemma NothingLogged(s: State)
    ensures Exec(s, []) == s && s.log + C.Encoded(Accepted(s, [])) == s.log
  {
    assert Accepted(s, []) == [] && C.Encoded([]) == [];
    hide Step;
  }

  lemma OneMoreStep(s: State, run: seq<Act>)
    requires run != []
    ensures var n := |run| - 1; var before := Exec(s, run[..n]);
      Exec(s, run) == Step(before, run[n]) && Accepted(s, run) == Accepted(s, run[..n]) + AcceptedNow(before, run[n])
  {
    hide Step, AcceptedNow;
  }

  lemma {:induction false} AcceptedEncode(s: State, run: seq<Act>)
    ensures forall k :: 0 <= k < |Accepted(s, run)| ==> Encode(Accepted(s, run)[k]).Some?
  {
    hide Encode, Step;
    if run != [] {
      AcceptedEncode(s, run[..|run| - 1]);
    }
  }

  /** From the files on disk: if the run keeps all, every point whose Write returned
      nil has been handed over once the reader is quiet. */
  lemma AcceptedIsHanded(maxBytes: nat, lines: seq<string>, first: nat, run: seq<Act>, k: nat)
    requires CleanLines(lines) && first <= |lines|
    requires var s := StartState(maxBytes, lines, first);
      Quiet(Exec(s, run)) && KeepsAll(s, run) && k < |Accepted(s, run)|
    ensures var s := StartState(maxBytes, lines, first); Reread(Accepted(s, run)[k]) in Exec(s, run).handed
  {
    var s := StartState(maxBytes, lines, first);
    StartFits(maxBytes, lines, first);
    assert s.log == lines && GoneIsHanded(s, first);
    hide *;
    AllHandedIff(s, run);
    RunKeepsHanded(s, run, first);
    LogIs(s, run);
    AcceptedEncode(s, run);
    PointIsHanded(s, Exec(s, run), Accepted(s, run), first, k);
  }

  lemma PointIsHanded(s: State, t: State, points: seq<Point>, first: nat, k: nat)
    requires first <= |s.log| && k < |points| && Encode(points[k]).Some?
    requires t.log == s.log + C.Encoded(points) && GoneIsHanded(t, first)
    requires forall i: nat :: i < |t.log| ==> i in t.gone
    ensures Reread(points[k]) in t.handed
  {
    hide Encode, Decode, Reread, C.EncodedLine;
    C.EncodedAt(points, k);
    LineRoundTrip(points[k]);
    hide C.Encoded;
    var i := |s.log| + k;
    assert t.log[i] == Encode(points[k]).value;
    assert i in t.gone;
  }
}
