/** The disk queue as a step system over bytes: the two files on disk, the
    offsets held in memory, the reader's cursor and the bounded output channel.
    Each critical section of diskqueue.go is one step. */
module QueueSteps {
  import opened Wrappers
  import opened Decimal
  import opened Text
  import opened WalFrame
  import opened WalCodec

  type Point = p: DataPoint | ValidPoint(p) witness DataPoint(0, "", [], [])

  const OUT_CAPACITY: nat := 2048

  /** Where the checkpointer goroutine stands: idle, holding a sentPos it read,
      or past writing it to the file. */
  datatype Phase = Idle | Holding(pos: nat) | Saved(pos: nat)

  datatype Queue = Queue(
    maxBytes: nat,
    wal: string,
    ckptFile: Option<string>,
    up: bool,
    writePos: nat,
    sentPos: nat,
    ackPos: nat,
    cursor: nat,              // the reader's pos
    unpublished: bool,        // a point is on outCh and sentPos does not say so yet
    phase: Phase,
    chan: seq<DataPoint>,     // outCh
    handed: seq<DataPoint>,   // all points ever put on outCh
    taken: seq<DataPoint>)    // all points ever received from it

  datatype Action =
    | Write(p: Point)
    | Read
    | Publish
    | Take
    | CkptHold
    | CkptSave
    | CkptAck
    | Compact
    | Close
    | Crash
    | Restart

  // ---- the checkpoint file --------------------------------------------------

  function CkptText(pos: nat): string {
    NatText(pos) + "\n"
  }

  /** A missing or unreadable file counts as offset 0. */
  function LoadCkpt(file: Option<string>): nat {
    match file
    case None => 0
    case Some(text) =>
      var digits := LeadingDigits(StripLeft(text));
      if digits == "" then 0 else NatValue(digits)
  }

  /** What saveCheckpoint writes is what loadCheckpoint reads; no file, or an empty one,
      is the beginning. */
  lemma CkptRoundTrip(pos: nat)
    ensures LoadCkpt(Some(CkptText(pos))) == pos
    ensures LoadCkpt(None) == 0 == LoadCkpt(Some(""))
  {
    NatRoundTrip(pos);
    LeadingDigitsOf(NatText(pos), "\n");
    assert StripLeft("") == "" && LeadingDigits("") == "";
  }

  // ---- steps ----------------------------------------------------------------

  predicate Accepts(q: Queue, p: Point) {
    q.up && Encode(p).Some? && q.writePos < q.maxBytes
  }

  function DoWrite(q: Queue, p: Point): Queue {
    if !Accepts(q, p) then q
    else
      var line := Encode(p).value + "\n";
      q.(wal := q.wal + line, writePos := q.writePos + |line|)
  }

  /** One turn of the reader's scan loop. An undecodable line moves the cursor
      only; a full channel blocks. */
  function DoRead(q: Queue): Queue {
    if !q.up || q.unpublished || q.cursor > |q.wal| then q
    else
      match ScanLine(q.wal[q.cursor..])
      case None => q
      case Some((line, _)) =>
        var pos := q.cursor + |line| + 1;
        match Decode(line)
        case None => q.(cursor := pos)
        case Some(dp) =>
          if |q.chan| >= OUT_CAPACITY then q
          else q.(cursor := pos, unpublished := true, chan := q.chan + [dp], handed := q.handed + [dp])
  }

  function DoPublish(q: Queue): Queue {
    if q.up && q.unpublished then q.(sentPos := q.cursor, unpublished := false) else q
  }

  function DoTake(q: Queue): Queue {
    if q.up && q.chan != [] then q.(chan := q.chan[1..], taken := q.taken + [q.chan[0]]) else q
  }

  function DoCkptHold(q: Queue): Queue {
    if q.up && q.phase.Idle? && q.sentPos != q.ackPos then q.(phase := Holding(q.sentPos)) else q
  }

  function DoCkptSave(q: Queue): Queue {
    if q.up && q.phase.Holding? then q.(ckptFile := Some(CkptText(q.phase.pos)), phase := Saved(q.phase.pos)) else q
  }

  function DoCkptAck(q: Queue): Queue {
    if q.up && q.phase.Saved? then q.(ackPos := q.phase.pos, phase := Idle) else q
  }

  /** tryCompact's guard: something acknowledged, and at least 80% of the file. */
  predicate WorthCompacting(writePos: nat, ackPos: nat) {
    writePos != 0 && ackPos != 0 && 10 * ackPos >= 8 * writePos
  }

  /** What tryCompact does to the files and to the queue's own offsets. The
      reader's cursor is not among them: the source leaves it where it was. */
  function CompactFields(q: Queue): Queue {
    if q.ackPos >= q.writePos then
      q.(wal := "", writePos := 0, sentPos := 0, ackPos := 0, ckptFile := Some(CkptText(0)))
    else
      q.(wal := if q.ackPos <= |q.wal| then q.wal[q.ackPos..] else "",
         writePos := q.writePos - q.ackPos,
         sentPos := if q.sentPos < q.ackPos then 0 else q.sentPos - q.ackPos,
         ackPos := 0,
         ckptFile := Some(CkptText(0)))
  }

  predicate CanCompact(q: Queue) {
    q.up && q.phase.Idle? && WorthCompacting(q.writePos, q.ackPos)
  }

  /** Compaction as intended: one atomic step that also moves the reader's
      cursor by the number of bytes cut from the front of the file. */
  function DoCompact(q: Queue): Queue {
    if CanCompact(q) then
      CompactFields(q).(cursor := if q.cursor < q.ackPos then 0 else q.cursor - q.ackPos)
    else q
  }

  function DoClose(q: Queue): Queue {
    if q.up then q.(ckptFile := Some(CkptText(q.sentPos))) else q
  }

  /** Everything in memory is gone, undelivered channel contents included. */
  function DoCrash(q: Queue): Queue {
    if q.up then
      q.(up := false, writePos := 0, sentPos := 0, ackPos := 0, cursor := 0,
         unpublished := false, phase := Idle, chan := [])
    else q
  }

  /** NewDiskQueue on the files that are there, then Start. */
  function DoRestart(q: Queue): Queue {
    if q.up then q
    else
      var ack := LoadCkpt(q.ckptFile);
      q.(up := true, writePos := |q.wal|, ackPos := ack, sentPos := ack, cursor := ack,
         unpublished := false, phase := Idle, chan := [])
  }

  function Step(q: Queue, a: Action): Queue {
    match a
    case Write(p) => DoWrite(q, p)
    case Read => DoRead(q)
    case Publish => DoPublish(q)
    case Take => DoTake(q)
    case CkptHold => DoCkptHold(q)
    case CkptSave => DoCkptSave(q)
    case CkptAck => DoCkptAck(q)
    case Compact => DoCompact(q)
    case Close => DoClose(q)
    case Crash => DoCrash(q)
    case Restart => DoRestart(q)
  }

  /** A whole run; an action that is not enabled does nothing. */
  function Exec(q: Queue, run: seq<Action>): Queue
    decreases |run|
  {
    if run == [] then q else Exec(Step(q, run[0]), run[1..])
  }

  function AcceptedNow(q: Queue, a: Action): seq<Point> {
    if a.Write? && Accepts(q, a.p) then [a.p] else []
  }

  /** The points whose Write returned nil during a run, in order. */
  function Accepted(q: Queue, run: seq<Action>): seq<Point>
    decreases |run|
  {
    if run == [] then []
    else AcceptedNow(q, run[0]) + Accepted(Step(q, run[0]), run[1..])
  }

  lemma {:induction false} ExecAppend(q: Queue, a: seq<Action>, b: seq<Action>)
    ensures Exec(q, a + b) == Exec(Exec(q, a), b)
    decreases |a|
  {
    if a == [] {
      assert a + b == b;
    } else {
      ExecAppend(Step(q, a[0]), a[1..], b);
      assert (a + b)[1..] == a[1..] + b;
    }
  }

  lemma {:induction false} AcceptedAppend(q: Queue, a: seq<Action>, b: seq<Action>)
    ensures Accepted(q, a + b) == Accepted(q, a) + Accepted(Exec(q, a), b)
    decreases |a|
  {
    hide *;
    if a == [] {
      assert a + b == b;
      RunsNothing(q, b);
    } else {
      assert (a + b)[1..] == a[1..] + b && (a + b)[0] == a[0];
      RunUnfolds(q, a);
      RunUnfolds(q, a + b);
      AcceptedAppend(Step(q, a[0]), a[1..], b);
      Regrouped(AcceptedNow(q, a[0]), Accepted(Step(q, a[0]), a[1..]), Accepted(Exec(q, a), b));
    }
  }

  lemma RunUnfolds(q: Queue, run: seq<Action>)
    requires run != []
    ensures Exec(q, run) == Exec(Step(q, run[0]), run[1..])
    ensures Accepted(q, run) == AcceptedNow(q, run[0]) + Accepted(Step(q, run[0]), run[1..])
  {
    hide Step, Accepts;
  }

  lemma RunsNothing(q: Queue, b: seq<Action>)
    ensures Exec(q, []) == q && Accepted(q, []) + Accepted(q, b) == Accepted(q, b)
  {
    assert [] + Accepted(q, b) == Accepted(q, b);
    hide Step, Accepts;
  }

  lemma Regrouped(a: seq<Point>, b: seq<Point>, c: seq<Point>)
    ensures a + (b + c) == a + b + c
  {
  }

  lemma StepKeepsChannel(q: Queue, a: Action)
    requires |q.chan| <= 2048
    ensures |Step(q, a).chan| <= 2048
  {
    hide Encode, Decode, ScanLine, CkptText, LoadCkpt;
  }

  /** outCh never holds more than 2048 points. */
  lemma {:induction false} RunKeepsChannel(q: Queue, run: seq<Action>)
    requires |q.chan| <= 2048
    ensures |Exec(q, run).chan| <= 2048
    decreases |run|
  {
    if run != [] {
      hide Step;
      StepKeepsChannel(q, run[0]);
      RunKeepsChannel(Step(q, run[0]), run[1..]);
    }
  }
}
