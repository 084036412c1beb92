/** What the stream's batches hold, in terms of the write-ahead log: the pipeline's
    queue is a queue of QueueSteps under one of its runs, and what each RunStream
    received is a stretch of the log. */
module PipelineLog {
  import opened Wrappers
  import opened WalFrame
  import opened WalCodec
  import Q = QueueSteps
  import R = RecordLog
  import V = QueueRefinement
  import C = CrashSafety
  import opened Delivery
  import opened Pipeline

  // ---- the queue's own run ---------------------------------------------------------

  /** The queue steps one pipeline step makes. */
  function Moves(s: System, a: Act): seq<Q.Action> {
    match a
    case Collect(c, p) => if Busy(s, c) then [] else [Q.Write(p)]
    case Fallback(_) => []
    case Disk(b) => if Internal(b) then [b] else []
    case Receive => if Streams(s) then [Q.Take] else []
    case Stream(_) => []
    case Reboot => [Q.Crash, Q.Restart]
  }

  function Project(s: System, acts: seq<Act>): seq<Q.Action> {
    if acts == [] then []
    else Project(s, acts[..|acts| - 1]) + Moves(Run(s, acts[..|acts| - 1]), acts[|acts| - 1])
  }

  lemma ExecOne(q: Q.Queue, a: Q.Action)
    ensures Q.Exec(q, [a]) == Q.Step(q, a)
    ensures Q.Accepted(q, [a]) == if a.Write? && Q.Accepts(q, a.p) then [a.p] else []
  {
    hide Q.Step, Q.Accepts;
    assert [a][1..] == [];
    assert Q.Exec(Q.Step(q, a), []) == Q.Step(q, a) && Q.Accepted(Q.Step(q, a), []) == [];
  }

  lemma ExecReboot(q: Q.Queue)
    ensures Q.Exec(q, [Q.Crash, Q.Restart]) == Q.DoRestart(Q.DoCrash(q))
    ensures Q.Accepted(q, [Q.Crash, Q.Restart]) == []
  {
    hide Q.DoRestart, Q.DoCrash;
    ExecOne(Q.DoCrash(q), Q.Restart);
    assert [Q.Crash, Q.Restart][1..] == [Q.Restart];
  }

  lemma CollectMoves(s: System, m: Mark)
    requires s.queue.Some? && !Busy(s, m.collector)
    ensures var q, t := s.queue.value, DoCollect(s, m);
      && t.queue == Some(Q.DoWrite(q, m.p))
      && t.walled == if Q.Accepts(q, m.p) then s.walled + [m] else s.walled
  {
    hide Encode, Busy;
  }

  /** The queue has made these steps, and the log gained what they accepted. */
  predicate Moved(s: System, t: System, moves: seq<Q.Action>)
    requires s.queue.Some?
  {
    && t.queue == Some(Q.Exec(s.queue.value, moves))
    && PointsOf(t.walled) == PointsOf(s.walled) + Q.Accepted(s.queue.value, moves)
  }

  lemma Still(s: System, t: System)
    requires s.queue.Some? && t.queue == s.queue && t.walled == s.walled
    ensures Moved(s, t, [])
  {
    hide PointsOf;
  }

  lemma Stepped(s: System, t: System, a: Q.Action)
    requires s.queue.Some? && !a.Write? && t.queue == Some(Q.Step(s.queue.value, a)) && t.walled == s.walled
    ensures Moved(s, t, [a])
  {
    ExecOne(s.queue.value, a);
    hide PointsOf, Q.Step, Q.Exec, Q.Accepted;
  }

  lemma Written(s: System, m: Mark)
    requires s.queue.Some? && !Busy(s, m.collector)
    ensures Moved(s, DoCollect(s, m), [Q.Write(m.p)])
  {
    var q := s.queue.value;
    CollectMoves(s, m);
    ExecOne(q, Q.Write(m.p));
    PointsOfSum(s.walled, [m]);
    assert PointsOf([m]) == [m.p];
    hide PointsOf, Busy, Q.Exec, Q.Accepts, Q.DoWrite, Q.Accepted, DoCollect;
  }

  lemma Rebooted(s: System)
    requires s.queue.Some?
    ensures Moved(s, DoReboot(s), [Q.Crash, Q.Restart])
  {
    ExecReboot(s.queue.value);
    hide PointsOf, Q.Exec, Q.Accepted, Q.DoRestart, Q.DoCrash;
  }

  lemma ReceiveMoves(s: System)
    requires s.queue.Some?
    ensures Moved(s, DoReceive(s), if Streams(s) then [Q.Take] else [])
  {
    var t := DoReceive(s);
    if Streams(s) {
      assert t.queue == Some(Q.Step(s.queue.value, Q.Take)) && t.walled == s.walled;
      hide Q.Step, DoReceive, Moved;
      Stepped(s, t, Q.Take);
    } else {
      hide Moved;
      Still(s, t);
    }
  }

  lemma FallbackMoves(s: System, c: nat)
    ensures DoFallback(s, c).queue == s.queue && DoFallback(s, c).walled == s.walled
  {
    hide Held, Without;
  }

  /** One pipeline step moves the queue by these steps, and puts into the log what
      they accept. */
  lemma NextMoves(s: System, a: Act)
    requires s.queue.Some?
    ensures Moved(s, Next(s, a), Moves(s, a))
  {
    hide Moved, DoCollect, DoReboot, DoReceive, DoFallback, Busy, Streams, Q.Step;
    match a
    case Collect(c, p) =>
      if Busy(s, c) {
        BusyCollectsNothing(s, Mark(c, p));
        Still(s, s);
      } else {
        Written(s, Mark(c, p));
      }
    case Disk(b) =>
      if Internal(b) {
        Stepped(s, Next(s, a), b);
      } else {
        Still(s, s);
      }
    case Receive => ReceiveMoves(s);
    case Reboot => Rebooted(s);
    case Fallback(c) =>
      FallbackMoves(s, c);
      Still(s, DoFallback(s, c));
    case Stream(_) => Still(s, Next(s, a));
  }

  lemma BusyCollectsNothing(s: System, m: Mark)
    requires Busy(s, m.collector)
    ensures DoCollect(s, m) == s
  {
  }

  /** The pipeline's queue has run the projected steps, and the points it put into
      the log are those whose Write they accept. */
  lemma {:induction false} QueueRuns(q: Q.Queue, capacity: nat, acts: seq<Act>)
    ensures var s0 := Start(Some(q), capacity); var s := Run(s0, acts);
      && s.queue == Some(Q.Exec(q, Project(s0, acts)))
      && PointsOf(s.walled) == Q.Accepted(q, Project(s0, acts))
  {
    var s0 := Start(Some(q), capacity);
    if acts == [] {
      assert PointsOf([]) == [];
    } else {
      var before, a := acts[..|acts| - 1], acts[|acts| - 1];
      QueueRuns(q, capacity, before);
      var s := Run(s0, before);
      assert Run(s0, acts) == Next(s, a) && Project(s0, acts) == Project(s0, before) + Moves(s, a);
      hide Run, Project, Next, Moves, PointsOf, Q.Exec, Q.Accepted;
      NextMoves(s, a);
      Q.ExecAppend(q, Project(s0, before), Moves(s, a));
      Q.AcceptedAppend(q, Project(s0, before), Moves(s, a));
    }
  }

  // ---- each RunStream's share of the log --------------------------------------------

  /** What every RunStream so far received is what its incarnation's consumer took:
      a stretch of the log, from the checkpoint it started at. */
  ghost predicate Matches(s: System, g: R.Log) {
    && R.SpansIn(g.past, |g.lines|) && |s.past| == |g.past| && g.up
    && (forall k :: 0 <= k < |g.past| ==> Consumed(s.past[k]) == R.PointsIn(g.lines, g.past[k].start, g.past[k].taken))
    && g.start <= g.taken <= |g.lines| && Consumed(s.events) == R.PointsIn(g.lines, g.start, g.taken)
  }

  lemma ConsumedSnoc(events: seq<Event>, e: Event)
    ensures Consumed(events + [e])
         == if PhaseOf(events).Streaming? && e.Received? then Consumed(events) + [e.p] else Consumed(events)
  {
    assert Init(events + [e]) == events && Last(events + [e]) == e;
  }

  /** A step of the log that is neither a receive nor a crash. */
  lemma OtherSteps(g: R.Log, a: Q.Action)
    requires R.Inv(g) && !a.Take? && !a.Crash?
    ensures var h := R.Step(g, a);
      h.past == g.past && h.start == g.start && h.taken == g.taken && h.up == (g.up || a.Restart?)
      && |g.lines| <= |h.lines| && h.lines[..|g.lines|] == g.lines
  {
    hide Encode, Decode, R.PointsIn, R.Offset, CleanLines;
  }

  lemma MatchesLonger(s: System, g: R.Log, h: R.Log)
    requires Matches(s, g) && h.past == g.past && h.start == g.start && h.taken == g.taken && h.up
    requires |g.lines| <= |h.lines| && h.lines[..|g.lines|] == g.lines
    ensures Matches(s, h)
  {
    var more := h.lines[|g.lines|..];
    assert h.lines == g.lines + more;
    V.SamePoints(g.lines, more, g.start, g.taken);
    forall k | 0 <= k < |g.past| ensures Consumed(s.past[k]) == R.PointsIn(h.lines, g.past[k].start, g.past[k].taken) {
      V.SamePoints(g.lines, more, g.past[k].start, g.past[k].taken);
    }
    hide R.PointsIn, Consumed;
  }

  /** The consumer receives the point at the head of the channel. */
  lemma TakeMatches(s: System, g: R.Log, q: Q.Queue)
    requires Matches(s, g) && V.Refines(q, g) && q.chan != [] && Streams(s)
    ensures Matches(s.(events := s.events + [Received(q.chan[0])]), R.Step(g, Q.Take))
  {
    ConsumedSnoc(s.events, Received(q.chan[0]));
    var h := R.Step(g, Q.Take);
    TakeAdvances(q, g);
    hide R.PointsIn, Consumed, V.Refines, R.Step;
  }

  lemma TakeAdvances(q: Q.Queue, g: R.Log)
    requires V.Refines(q, g) && q.chan != [] && g.up
    ensures var h := R.Step(g, Q.Take);
      && h == g.(taken := h.taken) && g.start <= h.taken <= |g.lines|
      && R.PointsIn(g.lines, g.start, h.taken) == R.PointsIn(g.lines, g.start, g.taken) + [q.chan[0]]
  {
    hide R.PointsIn, R.BehindNext, V.Disk, V.Memory, R.Handed, R.Taken, R.SpansIn, CleanLines, R.Offset;
    assert q.chan == R.PointsIn(g.lines, g.taken, g.cursor) && g.start <= g.taken <= g.cursor <= |g.lines|;
    assert R.Step(g, Q.Take) == g.(taken := R.BehindNext(g.lines[..g.cursor], g.taken));
    hide V.Refines, R.Step;
    V.BehindNextPoint(g.lines, g.taken, g.cursor);
    V.PointsSplit(g.lines, g.start, g.taken, R.BehindNext(g.lines[..g.cursor], g.taken));
    assert q.chan[..1] == [q.chan[0]];
  }

  /** A crash ends the incarnation and its RunStream. */
  lemma CrashMatches(s: System, g: R.Log)
    requires Matches(s, g) && R.Inv(g)
    ensures var t := s.(events := [], past := s.past + [s.events]);
      Matches(t, R.Step(R.Step(g, Q.Crash), Q.Restart))
  {
    V.NoPoints(g.lines, g.ckpt);
    var h := R.Step(R.Step(g, Q.Crash), Q.Restart);
    assert h.past == g.past + [R.Span(g.start, g.taken, g.cursor)] && h.start == h.taken == g.ckpt && h.lines == g.lines;
    hide R.PointsIn, R.Step, CleanLines;
    assert Consumed([]) == [];
    hide Consumed;
  }

  lemma LogExecOne(g: R.Log, a: Q.Action)
    requires R.Inv(g)
    ensures R.Exec(g, [a]) == R.Step(g, a)
  {
    R.StepKeepsInv(g, a);
    hide R.Step, R.Inv;
    assert [a][1..] == [];
  }

  lemma {:induction false} LogExecAppend(g: R.Log, a: seq<Q.Action>, b: seq<Q.Action>)
    requires R.Inv(g)
    ensures R.Exec(g, a + b) == R.Exec(R.Exec(g, a), b)
    decreases |a|
  {
    hide R.Step, R.Inv;
    if a == [] {
      assert a + b == b;
    } else {
      R.StepKeepsInv(g, a[0]);
      LogExecAppend(R.Step(g, a[0]), a[1..], b);
      assert (a + b)[1..] == a[1..] + b;
    }
  }

  lemma LogReboot(g: R.Log)
    requires R.Inv(g)
    ensures R.Inv(R.Step(g, Q.Crash))
    ensures R.Exec(g, [Q.Crash, Q.Restart]) == R.Step(R.Step(g, Q.Crash), Q.Restart)
  {
    R.StepKeepsInv(g, Q.Crash);
    hide R.Step, R.Inv;
    LogExecOne(R.Step(g, Q.Crash), Q.Restart);
    assert [Q.Crash, Q.Restart][1..] == [Q.Restart];
  }

  /** A step that leaves the stream's events alone, but for ones that carry no
      point. */
  lemma QuietMatches(s: System, t: System, g: R.Log, a: Q.Action)
    requires Matches(s, g) && R.Inv(g) && !a.Take? && !a.Crash? && t.past == s.past && t.events == s.events
    ensures Matches(t, R.Exec(g, [a]))
  {
    LogExecOne(g, a);
    OtherSteps(g, a);
    MatchesLonger(s, g, R.Step(g, a));
    MatchesEvents(s, t, R.Step(g, a));
    hide Matches, R.Step, R.Exec, R.Inv;
  }

  lemma MatchesEvents(s: System, t: System, g: R.Log)
    requires Matches(s, g) && t.past == s.past && Consumed(t.events) == Consumed(s.events)
    ensures Matches(t, g)
  {
    hide R.PointsIn, Consumed;
  }

  lemma ReceiveMatches(s: System, g: R.Log)
    requires s.queue.Some? && V.Refines(s.queue.value, g) && Matches(s, g)
    ensures Matches(DoReceive(s), R.Exec(g, Moves(s, Receive)))
  {
    var q, t := s.queue.value, DoReceive(s);
    V.RefinesInv(q, g);
    LogExecOne(g, Q.Take);
    RunsWhileUp(q, g);
    if Streams(s) {
      if q.chan != [] {
        TakeMatches(s, g, q);
        MatchesEvents(s.(events := s.events + [Received(q.chan[0])]), t, R.Step(g, Q.Take));
      } else {
        EmptyTake(q, g);
      }
    }
    hide V.Refines, R.Step, Consumed, R.PointsIn, Streams;
  }

  lemma RunsWhileUp(q: Q.Queue, g: R.Log)
    requires V.Refines(q, g)
    ensures q.up == g.up
  {
  }

  lemma EmptyTake(q: Q.Queue, g: R.Log)
    requires V.Refines(q, g) && q.chan == []
    ensures R.Step(g, Q.Take) == g
  {
    hide R.PointsIn;
  }

  lemma RebootMatches(s: System, g: R.Log)
    requires Matches(s, g) && R.Inv(g)
    ensures Matches(DoReboot(s), R.Exec(g, [Q.Crash, Q.Restart]))
  {
    CrashMatches(s, g);
    LogReboot(g);
    var t := s.(events := [], past := s.past + [s.events]);
    hide R.Exec, R.Step, R.Inv, Q.DoRestart, Q.DoCrash;
    MatchesEvents(t, DoReboot(s), R.Exec(g, [Q.Crash, Q.Restart]));
  }

  lemma NextMatches(s: System, g: R.Log, a: Act)
    requires s.queue.Some? && V.Refines(s.queue.value, g) && Matches(s, g)
    ensures R.Inv(g) && Matches(Next(s, a), R.Exec(g, Moves(s, a)))
  {
    V.RefinesInv(s.queue.value, g);
    var t := Next(s, a);
    assert R.Exec(g, []) == g;
    match a
    case Collect(c, p) =>
      CollectLeavesEvents(s, Mark(c, p));
      hide Matches, V.Refines, R.Exec, R.Inv, DoCollect, Busy;
      if Busy(s, c) {
        BusyCollectsNothing(s, Mark(c, p));
      } else {
        QuietMatches(s, t, g, Q.Write(p));
      }
    case Disk(b) =>
      hide Matches, V.Refines, R.Exec, R.Inv, Q.Step;
      if Internal(b) {
        QuietMatches(s, t, g, b);
      }
    case Receive =>
      hide Matches, V.Refines, R.Exec, R.Inv;
      ReceiveMatches(s, g);
    case Reboot =>
      hide Matches, V.Refines, R.Exec, R.Inv;
      RebootMatches(s, g);
    case Fallback(c) =>
      FallbackLeavesEvents(s, c);
      hide Matches, V.Refines, R.Exec, R.Inv, DoFallback;
      MatchesEvents(s, t, g);
    case Stream(e) =>
      ConsumedSnoc(s.events, e);
      hide Matches, V.Refines, R.Exec, R.Inv, Consumed;
      MatchesEvents(s, t, g);
  }

  lemma CollectLeavesEvents(s: System, m: Mark)
    ensures DoCollect(s, m).events == s.events && DoCollect(s, m).past == s.past
  {
    hide Q.Accepts, Q.DoWrite, Busy;
  }

  lemma FallbackLeavesEvents(s: System, c: nat)
    ensures DoFallback(s, c).events == s.events && DoFallback(s, c).past == s.past
  {
    hide Held, Without;
  }

  lemma {:induction false} RunMatches(s0: System, g0: R.Log, acts: seq<Act>)
    requires s0.queue.Some? && V.Refines(s0.queue.value, g0) && Matches(s0, g0)
    ensures R.Inv(g0)
    ensures var s, g := Run(s0, acts), R.Exec(g0, Project(s0, acts));
      s.queue.Some? && V.Refines(s.queue.value, g) && Matches(s, g)
  {
    V.RefinesInv(s0.queue.value, g0);
    if acts == [] {
      assert R.Exec(g0, []) == g0;
    } else {
      var before, a := acts[..|acts| - 1], acts[|acts| - 1];
      RunMatches(s0, g0, before);
      var s, g := Run(s0, before), R.Exec(g0, Project(s0, before));
      assert Run(s0, acts) == Next(s, a) && Project(s0, acts) == Project(s0, before) + Moves(s, a);
      hide Run, Project, Next, Moves, V.Refines, Matches, R.Inv, R.Exec, Q.Exec, PointsOf;
      NextMatches(s, g, a);
      NextMoves(s, a);
      V.RefineRun(s.queue.value, g, Moves(s, a));
      LogExecAppend(g0, Project(s0, before), Moves(s, a));
    }
  }

  // ---- without a disk queue -----------------------------------------------------------

  /** What the RunStreams received, one after another. */
  function TakenOver(runs: seq<seq<Event>>): seq<DataPoint> {
    if runs == [] then [] else TakenOver(runs[..|runs| - 1]) + Consumed(runs[|runs| - 1])
  }

  lemma TakenOverSnoc(runs: seq<seq<Event>>, events: seq<Event>)
    ensures TakenOver(runs + [events]) == TakenOver(runs) + Consumed(events)
  {
    assert (runs + [events])[..|runs|] == runs;
  }

  ghost predicate RamMatches(s: System) {
    s.queue.None? && TakenOver(s.past) + Consumed(s.events) == PointsOf(s.ramSent)
  }

  lemma ReceiveTakesRam(s: System)
    requires RamMatches(s)
    ensures RamMatches(DoReceive(s))
  {
    if Streams(s) && s.ram != [] {
      var m := s.ram[0];
      ConsumedSnoc(s.events, Received(m.p));
      PointsOfSum(s.ramSent, [m]);
      assert PointsOf([m]) == [m.p];
      hide Consumed, PointsOf, TakenOver;
      Chain(TakenOver(s.past), Consumed(s.events), [m.p]);
    }
  }

  lemma Chain(a: seq<DataPoint>, b: seq<DataPoint>, c: seq<DataPoint>)
    ensures a + (b + c) == a + b + c && a + [] == a
  {
  }

  lemma NextTakesRam(s: System, a: Act)
    requires RamMatches(s)
    ensures RamMatches(Next(s, a))
  {
    match a
    case Receive =>
      ReceiveTakesRam(s);
      hide DoReceive, RamMatches;
    case Reboot =>
      TakenOverSnoc(s.past, s.events);
      assert Consumed([]) == [];
      Chain(TakenOver(s.past) + Consumed(s.events), [], []);
      hide Consumed, PointsOf, TakenOver;
    case Stream(e) =>
      ConsumedSnoc(s.events, e);
      hide Consumed, PointsOf, TakenOver;
    case _ =>
      hide Consumed, PointsOf, TakenOver, Held, Without, Busy, Q.Step;
  }

  /** Without a disk queue, over any run: what the RunStreams received, one incarnation
      after another, is what left the RAM channel, in that order. */
  lemma {:induction false} StreamsShareTheRam(capacity: nat, acts: seq<Act>)
    ensures var s := Run(Start(None, capacity), acts); TakenOver(s.past) + Consumed(s.events) == PointsOf(s.ramSent)
    ensures RamMatches(Run(Start(None, capacity), acts))
  {
    if acts == [] {
      assert TakenOver([]) == [] && Consumed([]) == [] && PointsOf([]) == [];
    } else {
      hide Next, Start;
      StreamsShareTheRam(capacity, acts[..|acts| - 1]);
      NextTakesRam(Run(Start(None, capacity), acts[..|acts| - 1]), acts[|acts| - 1]);
    }
  }

  // ---- from the files on disk ----------------------------------------------------------

  /** The queue's run: the start, then what the pipeline made it do. */
  function QueueRun(q: Q.Queue, capacity: nat, acts: seq<Act>): seq<Q.Action> {
    [Q.Restart] + Project(Start(Some(Q.DoRestart(q)), capacity), acts)
  }

  lemma StartRuns(q: Q.Queue, run: seq<Q.Action>)
    ensures Q.Exec(q, [Q.Restart] + run) == Q.Exec(Q.DoRestart(q), run)
    ensures Q.Accepted(q, [Q.Restart] + run) == Q.Accepted(Q.DoRestart(q), run)
  {
    assert ([Q.Restart] + run)[1..] == run;
    hide Q.DoRestart;
  }

  lemma StartMatches(q: Q.Queue, lines: seq<string>, first: nat, capacity: nat)
    requires C.Stopped(q, lines, first)
    ensures var g0, q1 := C.StoppedLog(q.maxBytes, lines, first), Q.DoRestart(q);
      && V.Refines(q, g0) && R.Inv(g0) && V.Refines(q1, R.Step(g0, Q.Restart))
      && Matches(Start(Some(q1), capacity), R.Step(g0, Q.Restart))
  {
    var g0 := C.StoppedLog(q.maxBytes, lines, first);
    C.StoppedRefines(q, lines, first);
    V.RefinesInv(q, g0);
    V.RefineStep(q, g0, Q.Restart);
    V.NoPoints(lines, first);
    hide V.Refines, R.PointsIn, R.Inv, C.Stopped, Q.DoRestart;
    assert Consumed([]) == [];
  }

  /** From the files on disk, whatever runs beside it: what each RunStream received,
      and so its batches and the batch it was filling, is a stretch of the one log of
      all points ever put into the queue, from the checkpoint it started at, in the
      log's order; and the incarnations' stretches leave no gap in what was handed
      over. */
  lemma StreamsShareTheLog(q: Q.Queue, lines: seq<string>, first: nat, capacity: nat, acts: seq<Act>)
    returns (spans: seq<R.Span>)
    requires C.Stopped(q, lines, first)
    ensures var s := Run(Start(Some(Q.DoRestart(q)), capacity), acts); var log := lines + C.Encoded(PointsOf(s.walled));
      && R.SpansIn(spans, |log|) && C.Chained(spans, first) && |spans| == |s.past| + 1
      && (forall k :: 0 <= k < |s.past| ==> Consumed(s.past[k]) == R.PointsIn(log, spans[k].start, spans[k].taken))
      && Consumed(s.events) == R.PointsIn(log, spans[|s.past|].start, spans[|s.past|].taken)
  {
    var g0, q1 := C.StoppedLog(q.maxBytes, lines, first), Q.DoRestart(q);
    var s0, run := Start(Some(q1), capacity), QueueRun(q, capacity, acts);
    StartMatches(q, lines, first, capacity);
    C.StoppedRefines(q, lines, first);
    assert g0.lines == lines;
    var g1 := R.Step(g0, Q.Restart);
    var s, g := Run(s0, acts), R.Exec(g1, Project(s0, acts));
    hide C.StoppedLog, C.Stopped, V.Refines, Run, Project, R.Inv, R.Step, Matches, C.Chained, PointsOf, C.Encoded, Q.DoRestart;
    RunMatches(s0, g1, acts);
    QueueRuns(q1, capacity, acts);
    LogStart(g0, Project(s0, acts));
    StartRuns(q, Project(s0, acts));
    C.RunAppends(q, g0, run);
    C.RunKeepsChain(g0, run, first);
    hide R.Exec, Q.Exec, Q.Accepted;
    spans := R.Spans(g);
    SpansOf(s, g);
  }

  lemma LogStart(g: R.Log, run: seq<Q.Action>)
    requires R.Inv(g)
    ensures R.Inv(R.Step(g, Q.Restart)) && R.Exec(g, [Q.Restart] + run) == R.Exec(R.Step(g, Q.Restart), run)
  {
    R.StepKeepsInv(g, Q.Restart);
    hide R.Step, R.Inv;
    assert ([Q.Restart] + run)[1..] == run;
  }

  lemma SpansOf(s: System, g: R.Log)
    requires Matches(s, g) && g.cursor <= |g.lines| && g.taken <= g.cursor
    ensures var spans := R.Spans(g);
      && R.SpansIn(spans, |g.lines|) && |spans| == |s.past| + 1
      && (forall k :: 0 <= k < |s.past| ==> Consumed(s.past[k]) == R.PointsIn(g.lines, spans[k].start, spans[k].taken))
      && Consumed(s.events) == R.PointsIn(g.lines, spans[|s.past|].start, spans[|s.past|].taken)
  {
    hide R.PointsIn, Consumed;
  }

  /** The RunStreams of the run, the present one last. */
  function StreamEvents(s: System, j: nat): seq<Event>
    requires j <= |s.past|
  {
    if j < |s.past| then s.past[j] else s.events
  }

  /** If no crash strands a point, every point put into the queue that lies before
      the place of the last RunStream has been received by one of them. */
  lemma WalledReachesAStream(q: Q.Queue, lines: seq<string>, first: nat, capacity: nat, acts: seq<Act>, k: nat)
    returns (j: nat)
    requires C.Stopped(q, lines, first)
    requires C.NeverStrands(C.StoppedLog(q.maxBytes, lines, first), QueueRun(q, capacity, acts))
    requires k < |Run(Start(Some(Q.DoRestart(q)), capacity), acts).walled|
    requires |lines| + k < R.Exec(C.StoppedLog(q.maxBytes, lines, first), QueueRun(q, capacity, acts)).taken
    ensures var s := Run(Start(Some(Q.DoRestart(q)), capacity), acts);
      j <= |s.past| && Reread(s.walled[k].p) in Consumed(StreamEvents(s, j))
  {
    var g0, q1 := C.StoppedLog(q.maxBytes, lines, first), Q.DoRestart(q);
    var s0, run := Start(Some(q1), capacity), QueueRun(q, capacity, acts);
    StartMatches(q, lines, first, capacity);
    C.StoppedRefines(q, lines, first);
    C.TakenWithoutGapIff(q.maxBytes, lines, first, run);
    assert g0.lines == lines && CleanLines(lines);
    var g1 := R.Step(g0, Q.Restart);
    var s, g := Run(s0, acts), R.Exec(g1, Project(s0, acts));
    hide C.StoppedLog, C.Stopped, V.Refines, Run, Project, R.Inv, R.Step, Matches, C.NeverStrands, PointsOf, C.Encoded, Q.DoRestart;
    RunMatches(s0, g1, acts);
    QueueRuns(q1, capacity, acts);
    LogStart(g0, Project(s0, acts));
    StartRuns(q, Project(s0, acts));
    C.RunAppends(q, g0, run);
    C.AcceptedEncode(q, run);
    hide R.Exec, Q.Exec, Q.Accepted;
    j := SpanHolds(s, g, lines, first, k);
  }

  lemma SpanHolds(s: System, g: R.Log, lines: seq<string>, first: nat, k: nat) returns (j: nat)
    requires Matches(s, g) && g.taken <= g.cursor <= |g.lines| && first <= |lines|
    requires g.lines == lines + C.Encoded(PointsOf(s.walled)) && C.WithoutGap(g, first)
    requires k < |s.walled| && |lines| + k < g.taken && Encode(s.walled[k].p).Some?
    ensures j <= |s.past| && Reread(s.walled[k].p) in Consumed(StreamEvents(s, j))
  {
    hide Encode, Decode, Reread, R.PointsIn, Consumed;
    var i, p := |lines| + k, s.walled[k].p;
    C.EncodedAt(PointsOf(s.walled), k);
    LineRoundTrip(p);
    assert g.lines[i] == Encode(p).value;
    assert C.Decodable(g.lines, i);
    var spans := R.Spans(g);
    assert C.Covered(spans, i);
    j :| 0 <= j < |spans| && spans[j].start <= i < spans[j].taken;
    C.PointsHold(g.lines, spans[j].start, spans[j].taken, i);
  }
}
