/** The queue a user of the log has in mind: a list of lines that is only ever
    appended to, with the reader, the checkpoint and the stream consumer as
    indices into it. No bytes, no files. */
module RecordLog {
  import opened WalFrame
  import opened WalCodec
  import opened QueueSteps

  /** One incarnation of the agent: the reader went over log[start..stop] and
      the consumer had received everything before `taken`. */
  datatype Span = Span(start: nat, taken: nat, stop: nat)

  datatype Log = Log(
    maxBytes: nat,
    lines: seq<string>,    // every line ever appended
    base: nat,             // lines before it are no longer on disk
    ckpt: nat,             // the line a restart begins with
    up: bool,
    start: nat,
    taken: nat,
    cursor: nat,
    sent: nat,
    ack: nat,
    unpublished: bool,
    phase: Phase,
    past: seq<Span>)

  /** The decodable lines, decoded. */
  function Points(lines: seq<string>): seq<DataPoint> {
    if lines == [] then []
    else (match Decode(lines[0]) case None => [] case Some(dp) => [dp]) + Points(lines[1..])
  }

  lemma {:induction false} PointsAppend(a: seq<string>, b: seq<string>)
    ensures Points(a + b) == Points(a) + Points(b)
  {
    hide Decode;
    if a == [] {
      assert a + b == b;
    } else {
      PointsAppend(a[1..], b);
      assert (a + b)[1..] == a[1..] + b;
    }
  }

  /** The points in lines i up to j. */
  function PointsIn(lines: seq<string>, i: nat, j: nat): seq<DataPoint>
    requires i <= j <= |lines|
  {
    Points(lines[i..j])
  }

  /** The index just behind the first decodable line at or after i. */
  function BehindNext(lines: seq<string>, i: nat): (j: nat)
    requires i <= |lines|
    ensures i <= j <= |lines|
    decreases |lines| - i
  {
    if i == |lines| then i
    else if Decode(lines[i]).Some? then i + 1
    else BehindNext(lines, i + 1)
  }

  predicate Inv(g: Log) {
    && g.base <= g.ckpt <= g.sent <= g.cursor <= |g.lines|
    && g.base <= g.ack <= g.sent
    && g.start <= g.taken <= g.cursor
    && (g.phase != Idle ==> g.base <= g.phase.pos <= g.sent)
    && CleanLines(g.lines)
    && (!g.up ==> g.start == g.cursor == g.sent == g.ack == g.ckpt && g.phase == Idle && !g.unpublished)
  }

  /** Bytes on disk before line i. */
  function Offset(g: Log, i: nat): nat
    requires g.base <= i <= |g.lines|
  {
    |FrameIn(g.lines, g.base, i)|
  }

  function Step(g: Log, a: Action): (r: Log)
    requires Inv(g)
  {
    match a
    case Write(p) =>
      if g.up && Encode(p).Some? && Offset(g, |g.lines|) < g.maxBytes
      then g.(lines := g.lines + [Encode(p).value]) else g
    case Read =>
      if !g.up || g.unpublished || g.cursor == |g.lines| then g
      else if Decode(g.lines[g.cursor]).None? then g.(cursor := g.cursor + 1)
      else if |PointsIn(g.lines, g.taken, g.cursor)| >= OUT_CAPACITY then g
      else g.(cursor := g.cursor + 1, unpublished := true)
    case Publish =>
      if g.up && g.unpublished then g.(sent := g.cursor, unpublished := false) else g
    case Take =>
      if g.up && PointsIn(g.lines, g.taken, g.cursor) != [] then g.(taken := BehindNext(g.lines[..g.cursor], g.taken)) else g
    case CkptHold =>
      if g.up && g.phase.Idle? && g.sent != g.ack then g.(phase := Holding(g.sent)) else g
    case CkptSave =>
      if g.up && g.phase.Holding? then g.(ckpt := g.phase.pos, phase := Saved(g.phase.pos)) else g
    case CkptAck =>
      if g.up && g.phase.Saved? then g.(ack := g.phase.pos, phase := Idle) else g
    case Compact =>
      if g.up && g.phase.Idle? && WorthCompacting(Offset(g, |g.lines|), Offset(g, g.ack))
      then g.(base := g.ack, ckpt := g.ack) else g
    case Close =>
      if g.up then g.(ckpt := g.sent) else g
    case Crash =>
      if g.up then
        g.(up := false, past := g.past + [Span(g.start, g.taken, g.cursor)], unpublished := false, phase := Idle,
           start := g.ckpt, taken := g.ckpt, cursor := g.ckpt, sent := g.ckpt, ack := g.ckpt)
      else g
    case Restart => g.(up := true)
  }

  lemma StepKeepsInv(g: Log, a: Action)
    requires Inv(g)
    ensures Inv(Step(g, a))
  {
    if a.Write? && Encode(a.p).Some? {
      LineIsClean(a.p);
    }
    hide Encode, Decode, PointsIn, FrameIn, Offset, BehindNext;
  }

  function Exec(g: Log, run: seq<Action>): (r: Log)
    requires Inv(g)
    ensures Inv(r)
    decreases |run|
  {
    if run == [] then g
    else
      StepKeepsInv(g, run[0]);
      Exec(Step(g, run[0]), run[1..])
  }

  // ---- what has been handed over --------------------------------------------

  predicate SpansIn(spans: seq<Span>, n: nat) {
    forall i :: 0 <= i < |spans| ==> spans[i].start <= spans[i].taken <= spans[i].stop <= n
  }

  /** All points handed over in these incarnations, in order. */
  function Handed(lines: seq<string>, spans: seq<Span>): seq<DataPoint>
    requires SpansIn(spans, |lines|)
  {
    if spans == [] then []
    else
      var last := spans[|spans| - 1];
      Handed(lines, spans[..|spans| - 1]) + PointsIn(lines, last.start, last.stop)
  }

  /** All points the consumer received in these incarnations, in order. */
  function Taken(lines: seq<string>, spans: seq<Span>): seq<DataPoint>
    requires SpansIn(spans, |lines|)
  {
    if spans == [] then []
    else
      var last := spans[|spans| - 1];
      Taken(lines, spans[..|spans| - 1]) + PointsIn(lines, last.start, last.taken)
  }

  /** The finished incarnations and the one in progress. */
  function Spans(g: Log): seq<Span> {
    g.past + [Span(g.start, g.taken, g.cursor)]
  }
}
