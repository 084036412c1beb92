/** RunStream cutting what it receives into batches across reconnects, and the
    waits between attempts (client.go, agent.go). */
module Delivery {
  import opened WalCodec

  // ---- batching -------------------------------------------------------------

  /** What RunStream's calls and its select can report. The first four belong to
      opening a stream, the rest to the stream loop. */
  datatype Event =
    | NoClient
    | ConnectFailed
    | ConnectCancelled
    | Connected
    | Received(p: DataPoint)
    | FlushTick
    | StreamDone
    | InputClosed
    | Cancelled

  function Flatten(batches: seq<seq<DataPoint>>): seq<DataPoint> {
    if batches == [] then []
    else Flatten(batches[..|batches| - 1]) + batches[|batches| - 1]
  }

  /** Whether the loop is opening a stream, running one, or has returned. */
  datatype Phase = Connecting | Streaming | Stopped

  function PhaseAfter(phase: Phase, e: Event): Phase {
    match phase
    case Connecting =>
      if e.NoClient? || e.ConnectCancelled? then Stopped else if e.Connected? then Streaming else Connecting
    case Streaming =>
      if e.InputClosed? || e.Cancelled? then Stopped else if e.StreamDone? then Connecting else Streaming
    case Stopped => Stopped
  }

  function PhaseOf(events: seq<Event>): Phase {
    if events == [] then Connecting else PhaseAfter(PhaseOf(Init(events)), Last(events))
  }

  function Init(events: seq<Event>): seq<Event>
    requires events != []
  {
    events[..|events| - 1]
  }

  function Last(events: seq<Event>): Event
    requires events != []
  {
    events[|events| - 1]
  }

  /** The points read from the input channel: those offered while streaming. */
  function Consumed(events: seq<Event>): seq<DataPoint> {
    if events == [] then []
    else if PhaseOf(Init(events)).Streaming? && Last(events).Received? then
      Consumed(Init(events)) + [Last(events).p]
    else Consumed(Init(events))
  }

  /** Points received since the last flush tick or stream start; 0 when no
      stream is up. */
  function SinceFlush(events: seq<Event>): nat {
    if events == [] || !PhaseOf(events).Streaming? || !PhaseOf(Init(events)).Streaming? then 0
    else if Last(events).Received? then SinceFlush(Init(events)) + 1
    else if Last(events).FlushTick? then 0
    else SinceFlush(Init(events))
  }

  // ---- backoff --------------------------------------------------------------

  function Pow2(k: nat): nat {
    if k == 0 then 1 else 2 * Pow2(k - 1)
  }

  /** The wait after k consecutive failures. */
  function Backoff(initial: nat, max: nat, k: nat): nat {
    if initial >= max then initial
    else if initial * Pow2(k) < max then initial * Pow2(k) else max
  }

  /** The loop's update, doubling below the cap, computes the closed form. */
  lemma BackoffDoubles(initial: nat, max: nat, k: nat)
    ensures var b := Backoff(initial, max, k);
            Backoff(initial, max, k + 1) == if b < max then (if 2 * b > max then max else 2 * b) else b
  {
    assert initial * Pow2(k + 1) == 2 * (initial * Pow2(k));
  }

  /** Failed connects since the last stream. */
  function Failures(events: seq<Event>): nat {
    if events == [] || !PhaseOf(Init(events)).Connecting? || Last(events).Connected? then 0
    else if Last(events).ConnectFailed? then Failures(Init(events)) + 1
    else Failures(Init(events))
  }

  /** The sleeps of a run: each stretch of failed connects starts over. */
  function Sleeps(events: seq<Event>, initial: nat, max: nat): seq<nat> {
    if events == [] then []
    else if PhaseOf(Init(events)).Connecting? && Last(events).ConnectFailed? then
      Sleeps(Init(events), initial, max) + [Backoff(initial, max, Failures(Init(events)))]
    else Sleeps(Init(events), initial, max)
  }

  lemma {:induction false} StoppedStays(events: seq<Event>, k: nat, initial: nat, max: nat)
    requires k <= |events| && PhaseOf(events[..k]) == Stopped
    ensures PhaseOf(events) == Stopped && Consumed(events) == Consumed(events[..k])
    ensures Sleeps(events, initial, max) == Sleeps(events[..k], initial, max)
  {
    if k == |events| {
      assert events[..k] == events;
    } else {
      assert Init(events)[..k] == events[..k];
      StoppedStays(Init(events), k, initial, max);
    }
  }

  // ---- the loop's course, from the events alone --------------------------------

  /** A stream is up: no StreamDone since some Connected. */
  predicate StreamUp(events: seq<Event>) {
    exists i :: 0 <= i < |events| && UpSince(events, i)
  }

  predicate UpSince(events: seq<Event>, i: nat)
    requires i < |events|
  {
    events[i].Connected? && forall j :: i < j < |events| ==> !events[j].StreamDone?
  }

  /** What makes RunStream return: with a stream up a closed input or a cancelled
      context, with none a missing client or a context cancelled while connecting. */
  predicate ReturnsAt(events: seq<Event>, i: nat)
    requires i < |events|
  {
    if StreamUp(events[..i]) then events[i].InputClosed? || events[i].Cancelled?
    else events[i].NoClient? || events[i].ConnectCancelled?
  }

  predicate Returned(events: seq<Event>) {
    exists i :: 0 <= i < |events| && ReturnsAt(events, i)
  }

  lemma StreamUpSnoc(events: seq<Event>, e: Event)
    ensures StreamUp(events + [e]) <==> e.Connected? || (StreamUp(events) && !e.StreamDone?)
  {
    var more, n := events + [e], |events|;
    forall i | 0 <= i < n ensures UpSince(more, i) <==> UpSince(events, i) && !e.StreamDone? {
      if UpSince(more, i) {
        assert !more[n].StreamDone?;
        forall j | i < j < n ensures !events[j].StreamDone? {
          assert more[j] == events[j];
        }
      }
    }
    if e.Connected? {
      assert UpSince(more, n);
    }
  }

  lemma ReturnedSnoc(events: seq<Event>, e: Event)
    ensures Returned(events + [e])
       <==> || Returned(events)
            || (if StreamUp(events) then e.InputClosed? || e.Cancelled? else e.NoClient? || e.ConnectCancelled?)
  {
    var more, n := events + [e], |events|;
    hide StreamUp;
    assert more[..n] == events;
    forall i | 0 <= i < n ensures ReturnsAt(more, i) <==> ReturnsAt(events, i) {
      assert more[..i] == events[..i];
    }
    assert ReturnsAt(more, n) <==> if StreamUp(events) then e.InputClosed? || e.Cancelled? else e.NoClient? || e.ConnectCancelled?;
    hide ReturnsAt;
  }

  /** Over any events: the loop has returned iff one of them makes it, and till then it
      has a stream iff the last of Connected and StreamDone is Connected: it opens the
      next stream after each that ends. */
  lemma {:induction false} PhaseIs(events: seq<Event>)
    ensures PhaseOf(events) == if Returned(events) then Stopped else if StreamUp(events) then Streaming else Connecting
  {
    if events != [] {
      var before, e := Init(events), Last(events);
      assert events == before + [e];
      PhaseIs(before);
      StreamUpSnoc(before, e);
      ReturnedSnoc(before, e);
      hide StreamUp, Returned;
    }
  }

  /** A point is consumed iff a stream is up when it comes and the loop has not
      returned; nothing else adds to what was consumed. */
  lemma ConsumedIff(events: seq<Event>, e: Event)
    ensures Consumed([]) == []
    ensures Consumed(events + [e])
         == Consumed(events) + if e.Received? && StreamUp(events) && !Returned(events) then [e.p] else []
  {
    PhaseIs(events);
    assert Init(events + [e]) == events && Last(events + [e]) == e;
    assert Consumed(events) + [] == Consumed(events);
    hide StreamUp, Returned, PhaseOf;
  }

  /** After a stream ends the loop opens the next one and goes on receiving. */
  lemma ReceivesAfterReconnect(events: seq<Event>, p: DataPoint)
    requires StreamUp(events) && !Returned(events)
    ensures Consumed(events + [StreamDone] + [Connected] + [Received(p)]) == Consumed(events) + [p]
  {
    var a, b := events + [StreamDone], events + [StreamDone] + [Connected];
    hide *;
    StreamUpSnoc(events, StreamDone);
    ReturnedSnoc(events, StreamDone);
    StreamUpSnoc(a, Connected);
    ReturnedSnoc(a, Connected);
    ConsumedIff(events, StreamDone);
    ConsumedIff(a, Connected);
    ConsumedIff(b, Received(p));
    NothingMore(Consumed(events));
  }

  lemma NothingMore(ps: seq<DataPoint>)
    ensures ps + [] == ps
  {
  }

  /** The batch begins anew here: a flush, or the start of a stream. */
  predicate BeginsBatch(events: seq<Event>, i: nat)
    requires i < |events|
  {
    events[i].FlushTick? || (events[i].Connected? && !StreamUp(events[..i]))
  }

  function PointsIn(events: seq<Event>): nat {
    if events == [] then 0 else PointsIn(Init(events)) + if Last(events).Received? then 1 else 0
  }

  /** With a stream up the points since the last flush are those that came since the last
      tick or the start of the stream, and with none there are none. */
  lemma {:induction false} SinceFlushIs(events: seq<Event>, i: nat)
    requires i < |events| && BeginsBatch(events, i) && forall j: nat :: i < j < |events| ==> !BeginsBatch(events, j)
    ensures SinceFlush(events) == if StreamUp(events) && !Returned(events) then PointsIn(events[i + 1..]) else 0
  {
    var n := |events| - 1;
    var before, e := Init(events), Last(events);
    assert events == before + [e];
    PhaseIs(events);
    PhaseIs(before);
    StreamUpSnoc(before, e);
    ReturnedSnoc(before, e);
    if i == n {
      assert events[i + 1..] == [];
      hide StreamUp, Returned, PhaseOf;
    } else {
      forall j: nat | i <= j < n ensures BeginsBatch(before, j) <==> BeginsBatch(events, j) {
        assert before[..j] == events[..j];
      }
      SinceFlushIs(before, i);
      assert !BeginsBatch(events, n);
      assert events[..n] == before && Init(events[i + 1..]) == before[i + 1..] && Last(events[i + 1..]) == e;
      hide StreamUp, Returned, PhaseOf, BeginsBatch;
    }
  }

  function Refusals(n: nat): (r: seq<Event>)
    ensures |r| == n
  {
    if n == 0 then [] else Refusals(n - 1) + [ConnectFailed]
  }

  function Waits(initial: nat, max: nat, n: nat): (r: seq<nat>)
    ensures |r| == n && forall k :: 0 <= k < n ==> r[k] == Backoff(initial, max, k)
  {
    if n == 0 then [] else Waits(initial, max, n - 1) + [Backoff(initial, max, n - 1)]
  }

  /** When a stream has ended, the waits begin anew: n failed connects wait the first
      n capped powers of two. */
  lemma {:induction false} WaitsBeginAnew(events: seq<Event>, n: nat, initial: nat, max: nat)
    requires StreamUp(events) && !Returned(events)
    ensures var run := events + [StreamDone] + Refusals(n);
      && Sleeps(run, initial, max) == Sleeps(events, initial, max) + Waits(initial, max, n)
      && PhaseOf(run) == Connecting && Failures(run) == n
  {
    hide StreamUp, Returned, Backoff;
    var ended := events + [StreamDone];
    if n == 0 {
      PhaseIs(events);
      assert Init(ended) == events && Last(ended) == StreamDone && ended + [] == ended;
    } else {
      WaitsBeginAnew(events, n - 1, initial, max);
      var run, before := ended + Refusals(n), ended + Refusals(n - 1);
      assert Init(run) == before && Last(run) == ConnectFailed;
    }
  }

  // ---- the loop -------------------------------------------------------------

  /** What is left of n points after cutting off full batches. */
  function Leftover(n: nat, size: nat): (r: nat)
    requires size > 0
    ensures r < size
  {
    if n < size then n else Leftover(n - size, size)
  }

  lemma {:induction false} LeftoverNext(n: nat, size: nat)
    requires size > 0
    ensures Leftover(n + 1, size) == if Leftover(n, size) + 1 == size then 0 else Leftover(n, size) + 1
  {
    if n >= size {
      LeftoverNext(n - size, size);
    }
  }

  predicate BatchesWithin(batches: seq<seq<DataPoint>>, size: nat) {
    forall i :: 0 <= i < |batches| ==> 1 <= |batches[i]| <= size
  }

  /** sendBatch: an empty batch is not sent; a failed Send is ignored. */
  function SendBatch(batches: seq<seq<DataPoint>>, batch: seq<DataPoint>): (r: seq<seq<DataPoint>>)
    ensures Flatten(r) == Flatten(batches) + batch
    ensures forall size :: BatchesWithin(batches, size) && |batch| <= size ==> BatchesWithin(r, size)
  {
    if batch == [] then batches
    else
      var r := batches + [batch];
      assert r[..|r| - 1] == batches;
      r
  }

  /** One select of the stream loop. */
  method OnStreamEvent(e: Event, size: nat, batches: seq<seq<DataPoint>>, batch: seq<DataPoint>)
    returns (batches': seq<seq<DataPoint>>, batch': seq<DataPoint>)
    requires size > 0 && |batch| < size && BatchesWithin(batches, size)
    ensures Flatten(batches') + batch' == Flatten(batches) + batch + (if e.Received? then [e.p] else [])
    ensures BatchesWithin(batches', size)
    ensures |batch'| == if e.Received? then (if |batch| + 1 == size then 0 else |batch| + 1)
                        else if e.FlushTick? || !PhaseAfter(Streaming, e).Streaming? then 0 else |batch|
  {
    batches', batch' := batches, batch;
    match e {
      case Received(p) =>
        batch' := batch' + [p];
        if |batch'| >= size {
          batches' := SendBatch(batches', batch');
          batch' := [];
        }
      case FlushTick => batches', batch' := SendBatch(batches', batch'), [];
      case StreamDone => batches', batch' := SendBatch(batches', batch'), [];
      case InputClosed => batches', batch' := SendBatch(batches', batch'), [];
      case Cancelled => batches', batch' := SendBatch(batches', batch'), [];
      case _ =>
    }
  }

  /** The capped doubling after a failed connect. */
  method NextBackoff(backoff: nat, max: nat, ghost initial: nat, ghost k: nat) returns (next: nat)
    requires backoff == Backoff(initial, max, k)
    ensures next == Backoff(initial, max, k + 1)
  {
    BackoffDoubles(initial, max, k);
    next := backoff;
    if next < max {
      next := next * 2;
      if next > max {
        next := max;
      }
    }
  }

  /** One registration attempt; a rejected one is followed by a wait, unless the
      agent shuts down first. */
  datatype Attempt = Accepted | Rejected | RejectedAtShutdown

  /** registerWithRetry: it goes on exactly as long as it is rejected, and the k-th
      wait is the capped power of two. */
  method RegisterWithRetry(attempts: seq<Attempt>, initial: nat, max: nat) returns (registered: bool, waits: seq<nat>)
    ensures |waits| <= |attempts|
    ensures forall k :: 0 <= k < |waits| ==> attempts[k].Rejected? && waits[k] == Backoff(initial, max, k)
    ensures |waits| < |attempts| ==> !attempts[|waits|].Rejected?
    ensures registered <==> |waits| < |attempts| && attempts[|waits|].Accepted?
  {
    hide Backoff;
    BackoffStart(initial, max);
    waits := [];
    var backoff := initial;
    while |waits| < |attempts| && attempts[|waits|].Rejected?
      invariant |waits| <= |attempts|
      invariant forall k :: 0 <= k < |waits| ==> attempts[k].Rejected? && waits[k] == Backoff(initial, max, k)
      invariant backoff == Backoff(initial, max, |waits|)
      decreases |attempts| - |waits|
    {
      waits := waits + [backoff];
      backoff := NextBackoff(backoff, max, initial, |waits| - 1);
    }
    registered := |waits| < |attempts| && attempts[|waits|].Accepted?;
  }

  /** RunStream over any sequence of events. Nothing received is lost, repeated
      or reordered between the attempted batches and the batch still being
      filled, across reconnects; no batch is empty or too large; the batch being
      filled is what arrived since the last flush, modulo full batches; the
      waits are the capped powers of two, starting over after each stream. */
  method RunStream(events: seq<Event>, configuredSize: int, initial: nat, max: nat)
    returns (batches: seq<seq<DataPoint>>, pending: seq<DataPoint>, sleeps: seq<nat>)
    ensures var size := if configuredSize <= 0 then 1000 else configuredSize;
            && Flatten(batches) + pending == Consumed(events)
            && BatchesWithin(batches, size)
            && |pending| == Leftover(SinceFlush(events), size)
    ensures sleeps == Sleeps(events, initial, max)
  {
    var size: nat := if configuredSize <= 0 then 1000 else configuredSize;
    batches, pending, sleeps := [], [], [];
    var phase := Connecting;
    var backoff := initial;
    var i := 0;
    while i < |events| && !phase.Stopped?
      invariant 0 <= i <= |events|
      invariant phase == PhaseOf(events[..i])
      invariant Flatten(batches) + pending == Consumed(events[..i])
      invariant BatchesWithin(batches, size)
      invariant |pending| == Leftover(SinceFlush(events[..i]), size)
      invariant phase.Streaming? ==> backoff == initial
      invariant phase.Connecting? ==> backoff == Backoff(initial, max, Failures(events[..i]))
      invariant sleeps == Sleeps(events[..i], initial, max)
    {
      var e := events[i];
      ghost var before := events[..i];
      i := i + 1;
      assert Init(events[..i]) == before && Last(events[..i]) == e;
      hide Flatten, Pow2, BatchesWithin;
      if phase.Streaming? {
        batches, pending := OnStreamEvent(e, size, batches, pending);
        LeftoverNext(SinceFlush(before), size);
        BackoffStart(initial, max);
      } else if e.ConnectFailed? {
        sleeps := sleeps + [backoff];
        backoff := NextBackoff(backoff, max, initial, Failures(before));
      } else if e.Connected? {
        backoff := initial;
      }
      phase := PhaseAfter(phase, e);
    }
    StoppedOrDone(events, i, initial, max);
  }

  lemma BackoffStart(initial: nat, max: nat)
    ensures Backoff(initial, max, 0) == initial
  {
    assert Pow2(0) == 1;
  }

  lemma StoppedOrDone(events: seq<Event>, i: nat, initial: nat, max: nat)
    requires i <= |events| && (i == |events| || PhaseOf(events[..i]) == Stopped)
    ensures Consumed(events) == Consumed(events[..i])
    ensures SinceFlush(events) == SinceFlush(events[..i])
    ensures Sleeps(events, initial, max) == Sleeps(events[..i], initial, max)
  {
    if i == |events| {
      assert events[..i] == events;
    } else {
      StoppedStays(events, i, initial, max);
    }
  }
}
