/** The agent's path from collectors to stream (agent.go): one fanIn goroutine per
    collector, the disk queue with all its goroutines, the RAM channel, RunStream
    and crashes, in any interleaving. */
module Pipeline {
  import opened Wrappers
  import opened WalCodec
  import opened WalFrame
  import Q = QueueSteps
  import opened Delivery
  import opened DiskQueues

  type Point = Q.Point

  /** A point with the collector it came from. */
  datatype Mark = Mark(collector: nat, p: Point)

  /** `refused` are the points Write has just refused, one per goroutine at most;
      `received`, `walled`, `everRam`, `dropped` and `abandoned` (in a goroutine's
      hands at a crash) keep account of all points; `ram` is dataCh, `ramSent` and
      `ramLost` what left it for the stream and what a crash took. `events` are those
      of the present RunStream, `past` those of earlier ones. */
  datatype System = System(
    queue: Option<Q.Queue>,
    capacity: nat,
    ram: seq<Mark>,
    refused: seq<Mark>,
    received: seq<Mark>,
    walled: seq<Mark>,
    everRam: seq<Mark>,
    dropped: seq<Mark>,
    abandoned: seq<Mark>,
    ramSent: seq<Mark>,
    ramLost: seq<Mark>,
    events: seq<Event>,
    past: seq<seq<Event>>)

  /** `Collect` is a goroutine's receive and its Write, `Fallback` its send to the
      RAM channel, `Disk` any step of the queue's own goroutines, `Receive` a
      receive of RunStream's select, `Stream` its other events, `Reboot` a crash and
      the next start. */
  datatype Act =
    | Collect(collector: nat, p: Point)
    | Fallback(collector: nat)
    | Disk(a: Q.Action)
    | Receive
    | Stream(e: Event)
    | Reboot

  /** The steps the queue takes by itself. */
  predicate Internal(a: Q.Action) {
    !a.Write? && !a.Take? && !a.Crash? && !a.Restart?
  }

  /** Index of the collector's refused point; their number if it has none. */
  function Held(ms: seq<Mark>, c: nat): (i: nat)
    ensures i <= |ms|
    ensures i < |ms| ==> ms[i].collector == c
    ensures i == |ms| ==> forall k :: 0 <= k < |ms| ==> ms[k].collector != c
  {
    if ms == [] || ms[0].collector == c then 0 else 1 + Held(ms[1..], c)
  }

  function Without(ms: seq<Mark>, i: nat): seq<Mark>
    requires i < |ms|
  {
    ms[..i] + ms[i + 1..]
  }

  /** The non-blocking send: dropped if the channel is full. */
  function Send(s: System, m: Mark): System {
    if |s.ram| < s.capacity then s.(ram := s.ram + [m], everRam := s.everRam + [m])
    else s.(dropped := s.dropped + [m])
  }

  predicate Busy(s: System, c: nat) {
    Held(s.refused, c) < |s.refused|
  }

  function DoCollect(s: System, m: Mark): System {
    if Busy(s, m.collector) then s
    else
      var s' := s.(received := s.received + [m]);
      match s.queue
      case None => Send(s', m)
      case Some(q) =>
        if Q.Accepts(q, m.p) then s'.(queue := Some(Q.DoWrite(q, m.p)), walled := s.walled + [m])
        else s'.(refused := s.refused + [m])
  }

  function DoFallback(s: System, c: nat): System {
    var i := Held(s.refused, c);
    if i == |s.refused| then s else Send(s.(refused := Without(s.refused, i)), s.refused[i])
  }

  predicate Streams(s: System) {
    PhaseOf(s.events).Streaming?
  }

  /** With a disk queue RunStream reads that queue's output, and nothing else. */
  function DoReceive(s: System): System {
    if !Streams(s) then s
    else
      match s.queue
      case Some(q) =>
        if !q.up || q.chan == [] then s
        else s.(queue := Some(Q.DoTake(q)), events := s.events + [Received(q.chan[0])])
      case None =>
        if s.ram == [] then s
        else s.(ram := s.ram[1..], ramSent := s.ramSent + [s.ram[0]], events := s.events + [Received(s.ram[0].p)])
  }

  function DoReboot(s: System): System {
    s.(queue := match s.queue case Some(q) => Some(Q.DoRestart(Q.DoCrash(q))) case None => None,
       ram := [], ramLost := s.ramLost + s.ram, refused := [], abandoned := s.abandoned + s.refused,
       events := [], past := s.past + [s.events])
  }

  function Next(s: System, a: Act): System {
    match a
    case Collect(c, p) => DoCollect(s, Mark(c, p))
    case Fallback(c) => DoFallback(s, c)
    case Disk(a) => if s.queue.Some? && Internal(a) then s.(queue := Some(Q.Step(s.queue.value, a))) else s
    case Receive => DoReceive(s)
    case Stream(e) => if e.Received? then s else s.(events := s.events + [e])
    case Reboot => DoReboot(s)
  }

  function Run(s: System, acts: seq<Act>): System {
    if acts == [] then s else Next(Run(s, acts[..|acts| - 1]), acts[|acts| - 1])
  }

  function Start(queue: Option<Q.Queue>, capacity: nat): System {
    System(queue, capacity, [], [], [], [], [], [], [], [], [], [], [])
  }

  // ---- every point in one place --------------------------------------------------

  function Bag(ms: seq<Mark>): multiset<Mark> {
    multiset(ms)
  }

  lemma BagOfSum(a: seq<Mark>, b: seq<Mark>)
    ensures Bag(a + b) == Bag(a) + Bag(b)
  {
  }

  lemma BagWithout(ms: seq<Mark>, i: nat)
    requires i < |ms|
    ensures Bag(ms) == Bag(Without(ms, i)) + Bag([ms[i]])
  {
    var l, x, r := ms[..i], [ms[i]], ms[i + 1..];
    assert ms == l + (x + r);
    hide Bag;
    BagOfSum(l, x + r);
    BagOfSum(x, r);
    BagOfSum(l, r);
    Swap(Bag(l), Bag(x), Bag(r));
  }

  lemma Swap(l: multiset<Mark>, x: multiset<Mark>, r: multiset<Mark>)
    ensures l + (x + r) == l + r + x
  {
  }

  /** Where the points are: in the log, in or through the RAM channel, dropped, with
      a goroutine, or lost with one. */
  function Places(s: System): multiset<Mark> {
    Bag(s.walled) + Bag(s.everRam) + Bag(s.dropped) + (Bag(s.refused) + Bag(s.abandoned))
  }

  function RamPlaces(s: System): multiset<Mark> {
    Bag(s.ramSent) + Bag(s.ramLost) + Bag(s.ram)
  }

  ghost predicate Conserved(s: System) {
    Bag(s.received) == Places(s) && Bag(s.everRam) == RamPlaces(s) && |s.ram| <= s.capacity
  }

  lemma OneMore(a: multiset<Mark>, b: multiset<Mark>, c: multiset<Mark>, d: multiset<Mark>, e: multiset<Mark>, x: multiset<Mark>)
    ensures a + x + b + c + (d + e) == a + b + c + (d + e) + x
    ensures a + (b + x) + c + (d + e) == a + b + c + (d + e) + x
    ensures a + b + (c + x) + (d + e) == a + b + c + (d + e) + x
    ensures a + b + c + ((d + x) + e) == a + b + c + (d + e) + x
  {
  }

  lemma OneMoreInRam(a: multiset<Mark>, b: multiset<Mark>, c: multiset<Mark>, x: multiset<Mark>)
    ensures a + b + (c + x) == a + b + c + x
    ensures (a + x) + b + c == a + b + (x + c)
    ensures a + (b + c) + multiset{} == a + b + c
  {
  }

  lemma SendConserves(s: System, m: Mark)
    requires Bag(s.received) == Places(s) + Bag([m]) && Bag(s.everRam) == RamPlaces(s) && |s.ram| <= s.capacity
    ensures Conserved(Send(s, m))
  {
    BagOfSum(s.ram, [m]);
    BagOfSum(s.everRam, [m]);
    BagOfSum(s.dropped, [m]);
    hide Bag;
    OneMore(Bag(s.walled), Bag(s.everRam), Bag(s.dropped), Bag(s.refused), Bag(s.abandoned), Bag([m]));
    OneMoreInRam(Bag(s.ramSent), Bag(s.ramLost), Bag(s.ram), Bag([m]));
  }

  lemma CollectConserves(s: System, m: Mark)
    requires Conserved(s)
    ensures Conserved(DoCollect(s, m))
  {
    hide Q.Accepts, Q.DoWrite, Busy;
    if !Busy(s, m.collector) {
      BagOfSum(s.received, [m]);
      BagOfSum(s.walled, [m]);
      BagOfSum(s.refused, [m]);
      if s.queue.None? {
        hide Bag;
        SendConserves(s.(received := s.received + [m]), m);
      } else {
        hide Bag;
        OneMore(Bag(s.walled), Bag(s.everRam), Bag(s.dropped), Bag(s.refused), Bag(s.abandoned), Bag([m]));
      }
    }
  }

  lemma FallbackConserves(s: System, c: nat)
    requires Conserved(s)
    ensures Conserved(DoFallback(s, c))
  {
    var i := Held(s.refused, c);
    if i < |s.refused| {
      var m, t := s.refused[i], s.(refused := Without(s.refused, i));
      BagWithout(s.refused, i);
      hide Bag, Without, Held;
      OneMore(Bag(s.walled), Bag(s.everRam), Bag(s.dropped), Bag(t.refused), Bag(s.abandoned), Bag([m]));
      SendConserves(t, m);
    }
  }

  lemma ReceiveConserves(s: System)
    requires Conserved(s)
    ensures Conserved(DoReceive(s))
  {
    hide Q.DoTake;
    if Streams(s) && s.queue.None? && s.ram != [] {
      BagOfSum(s.ramSent, [s.ram[0]]);
      BagOfSum([s.ram[0]], s.ram[1..]);
      assert s.ram == [s.ram[0]] + s.ram[1..];
      hide Bag, Streams;
      OneMoreInRam(Bag(s.ramSent), Bag(s.ramLost), Bag(s.ram[1..]), Bag([s.ram[0]]));
    }
  }

  lemma RebootConserves(s: System)
    requires Conserved(s)
    ensures Conserved(DoReboot(s))
  {
    BagOfSum(s.ramLost, s.ram);
    BagOfSum(s.abandoned, s.refused);
    assert Bag([]) == multiset{};
    hide Bag, Q.DoRestart, Q.DoCrash;
    OneMoreInRam(Bag(s.ramSent), Bag(s.ramLost), Bag(s.ram), Bag([]));
    Emptied(Bag(s.walled) + Bag(s.everRam) + Bag(s.dropped), Bag(s.refused), Bag(s.abandoned));
  }

  lemma Emptied(a: multiset<Mark>, d: multiset<Mark>, e: multiset<Mark>)
    ensures a + (multiset{} + (e + d)) == a + (d + e)
  {
  }

  lemma NextConserves(s: System, a: Act)
    requires Conserved(s)
    ensures Conserved(Next(s, a))
  {
    hide Conserved, DoCollect, DoFallback, DoReceive, DoReboot;
    match a
    case Collect(c, p) => CollectConserves(s, Mark(c, p));
    case Fallback(c) => FallbackConserves(s, c);
    case Receive => ReceiveConserves(s);
    case Reboot => RebootConserves(s);
    case Disk(b) => SamePlaces(s, Next(s, a));
    case Stream(e) => SamePlaces(s, Next(s, a));
  }

  lemma SamePlaces(s: System, t: System)
    requires Conserved(s) && t == s.(queue := t.queue, events := t.events)
    ensures Conserved(t)
  {
    hide Bag;
  }

  /** Whatever the goroutines, the queue, the stream and crashes do: every point a
      collector handed over is in the log, in or through the RAM channel, dropped,
      with its goroutine or lost with it, exactly once; and every point ever in the
      RAM channel went to the stream, was lost with it, or is still there. */
  lemma {:induction false} EveryPointInOnePlace(queue: Option<Q.Queue>, capacity: nat, acts: seq<Act>)
    ensures Conserved(Run(Start(queue, capacity), acts))
  {
    if acts == [] {
      assert Bag([]) == multiset{};
    } else {
      hide Conserved, Next;
      EveryPointInOnePlace(queue, capacity, acts[..|acts| - 1]);
      NextConserves(Run(Start(queue, capacity), acts[..|acts| - 1]), acts[|acts| - 1]);
    }
  }

  /** In every reachable state a step drops a point only if the RAM channel is full,
      and then that one point and nothing else of the channel. */
  lemma DropsOnlyWhenFull(queue: Option<Q.Queue>, capacity: nat, acts: seq<Act>, a: Act)
    ensures var s := Run(Start(queue, capacity), acts); var t := Next(s, a);
      t.dropped != s.dropped ==>
        && |s.ram| == s.capacity && t.ram == s.ram && t.everRam == s.everRam && t.walled == s.walled
        && exists m :: t.dropped == s.dropped + [m]
  {
    var s := Run(Start(queue, capacity), acts);
    EveryPointInOnePlace(queue, capacity, acts);
    hide Run, Bag, Q.Accepts, Q.DoWrite, Q.DoTake, Q.DoCrash, Q.DoRestart, Q.Step, Streams, Held, Without, Busy;
  }

  lemma NextSendsNoRam(s: System, a: Act)
    requires s.queue.Some? && s.ramSent == []
    ensures Next(s, a).queue.Some? && Next(s, a).ramSent == []
  {
    hide Q.Accepts, Q.DoWrite, Q.DoTake, Q.DoCrash, Q.DoRestart, Q.Step, Streams, Held, Without, Busy;
  }

  /** With a disk queue nothing in the RAM channel ever reaches the stream. */
  lemma {:induction false} RamIsNeverSent(q: Q.Queue, capacity: nat, acts: seq<Act>)
    ensures var s := Run(Start(Some(q), capacity), acts); s.queue.Some? && s.ramSent == []
  {
    if acts != [] {
      hide Next;
      RamIsNeverSent(q, capacity, acts[..|acts| - 1]);
      NextSendsNoRam(Run(Start(Some(q), capacity), acts[..|acts| - 1]), acts[|acts| - 1]);
    }
  }

  // ---- each collector's order --------------------------------------------------------

  /** A sequence keeps its order when elements are removed. */
  predicate Within(part: seq<Mark>, whole: seq<Mark>)
    decreases |whole|
  {
    if whole == [] then part == []
    else
      var n, m := |whole| - 1, |part| - 1;
      Within(part, whole[..n])
      || (part != [] && part[m] == whole[n] && Within(part[..m], whole[..n]))
  }

  function Only(ms: seq<Mark>, c: nat): seq<Mark> {
    if ms == [] then []
    else Only(ms[..|ms| - 1], c) + (if ms[|ms| - 1].collector == c then [ms[|ms| - 1]] else [])
  }

  lemma WithinSnoc(part: seq<Mark>, whole: seq<Mark>, m: Mark)
    requires Within(part, whole)
    ensures Within(part, whole + [m]) && Within(part + [m], whole + [m])
  {
    assert (whole + [m])[..|whole|] == whole && (part + [m])[..|part|] == part;
  }

  lemma OnlySnoc(ms: seq<Mark>, m: Mark, c: nat)
    ensures Only(ms + [m], c) == if m.collector == c then Only(ms, c) + [m] else Only(ms, c)
  {
    assert (ms + [m])[..|ms|] == ms;
  }

  /** The collector's points that have found their place: all but one its goroutine
      still holds, which is the last. */
  ghost predicate Placed(s: System, c: nat, done: seq<Mark>) {
    var i := Held(s.refused, c);
    Only(s.received, c) == if i < |s.refused| then done + [s.refused[i]] else done
  }

  ghost predicate OneEach(ms: seq<Mark>) {
    forall i, j :: 0 <= i < j < |ms| ==> ms[i].collector != ms[j].collector
  }

  ghost predicate AllWithin(s: System, c: nat, done: seq<Mark>) {
    Within(Only(s.walled, c), done) && Within(Only(s.everRam, c), done) && Within(Only(s.dropped, c), done)
  }

  ghost predicate InOrder(s: System, c: nat, done: seq<Mark>) {
    OneEach(s.refused) && Placed(s, c, done) && AllWithin(s, c, done)
  }

  lemma {:induction false} HeldIs(ms: seq<Mark>, c: nat, i: nat)
    requires i <= |ms| && (i < |ms| ==> ms[i].collector == c) && forall k :: 0 <= k < i ==> ms[k].collector != c
    ensures Held(ms, c) == i
  {
    if i > 0 {
      HeldIs(ms[1..], c, i - 1);
    }
  }

  lemma {:induction false} HeldIsFirst(ms: seq<Mark>, c: nat)
    ensures forall k :: 0 <= k < Held(ms, c) ==> ms[k].collector != c
  {
    if ms != [] && ms[0].collector != c {
      HeldIsFirst(ms[1..], c);
    }
  }

  lemma HeldSnoc(ms: seq<Mark>, m: Mark, c: nat)
    requires Held(ms, m.collector) == |ms|
    ensures Held(ms + [m], c) == if m.collector == c then |ms| else if Held(ms, c) == |ms| then |ms| + 1 else Held(ms, c)
    ensures OneEach(ms) ==> OneEach(ms + [m])
  {
    HeldIsFirst(ms, c);
    var i := Held(ms, c);
    hide Held;
    HeldIs(ms + [m], c, if m.collector == c then |ms| else if i == |ms| then |ms| + 1 else i);
  }

  lemma HeldWithout(ms: seq<Mark>, i: nat, c: nat)
    requires i < |ms| && OneEach(ms)
    ensures OneEach(Without(ms, i))
    ensures var j, k := Held(Without(ms, i), c), Held(ms, c);
      if k == i || k == |ms| then j == |ms| - 1
      else j < |ms| - 1 && Without(ms, i)[j] == ms[k]
  {
    HeldIsFirst(ms, c);
    var k := Held(ms, c);
    hide Held;
    HeldIs(Without(ms, i), c, if k == i || k == |ms| then |ms| - 1 else if k < i then k else k - 1);
  }

  lemma OneHolder(ms: seq<Mark>, i: nat, c: nat)
    requires i < |ms| && OneEach(ms)
    ensures ms[i].collector == c <==> Held(ms, c) == i
  {
    hide Held;
    if ms[i].collector == c {
      HeldIs(ms, c, i);
    }
  }

  lemma SameWithin(s: System, t: System, c: nat, done: seq<Mark>)
    requires AllWithin(s, c, done) && t.walled == s.walled && t.everRam == s.everRam && t.dropped == s.dropped
    ensures AllWithin(t, c, done)
  {
  }

  lemma WiderWithin(s: System, c: nat, done: seq<Mark>, m: Mark)
    requires AllWithin(s, c, done)
    ensures AllWithin(s, c, done + [m])
  {
    WithinSnoc(Only(s.walled, c), done, m);
    WithinSnoc(Only(s.everRam, c), done, m);
    WithinSnoc(Only(s.dropped, c), done, m);
    hide Within, Only;
  }

  function Grown(done: seq<Mark>, m: Mark, c: nat): seq<Mark> {
    if m.collector == c then done + [m] else done
  }

  lemma OnlyGrows(ms: seq<Mark>, m: Mark, c: nat, done: seq<Mark>)
    requires Within(Only(ms, c), done)
    ensures Within(Only(ms + [m], c), Grown(done, m, c)) && Within(Only(ms, c), Grown(done, m, c))
  {
    OnlySnoc(ms, m, c);
    WithinSnoc(Only(ms, c), done, m);
    hide Within, Only;
  }

  /** A point of the collector finds its place. */
  lemma PlaceKeepsWithin(s: System, t: System, m: Mark, c: nat, done: seq<Mark>)
    requires AllWithin(s, c, done)
    requires t.walled == s.walled || t.walled == s.walled + [m]
    requires t.everRam == s.everRam || t.everRam == s.everRam + [m]
    requires t.dropped == s.dropped || t.dropped == s.dropped + [m]
    ensures AllWithin(t, c, Grown(done, m, c))
  {
    OnlyGrows(s.walled, m, c, done);
    OnlyGrows(s.everRam, m, c, done);
    OnlyGrows(s.dropped, m, c, done);
    hide Within, Only, Grown;
  }

  predicate SameOrMore(before: seq<Mark>, now: seq<Mark>, m: Mark) {
    now == before || now == before + [m]
  }

  /** A point received is placed or refused. */
  lemma CollectShape(s: System, m: Mark)
    requires !Busy(s, m.collector)
    ensures var t := DoCollect(s, m);
      && t.received == s.received + [m]
      && SameOrMore(s.walled, t.walled, m) && SameOrMore(s.everRam, t.everRam, m) && SameOrMore(s.dropped, t.dropped, m)
      && (t.refused == s.refused
          || (t.refused == s.refused + [m] && t.walled == s.walled && t.everRam == s.everRam && t.dropped == s.dropped))
  {
    hide Q.Accepts, Q.DoWrite, Held;
  }

  lemma CollectKeepsOrder(s: System, m: Mark, c: nat, done: seq<Mark>) returns (done': seq<Mark>)
    requires InOrder(s, c, done)
    ensures InOrder(DoCollect(s, m), c, done')
  {
    done' := done;
    var t := DoCollect(s, m);
    if !Busy(s, m.collector) {
      CollectShape(s, m);
      OnlySnoc(s.received, m, c);
      HeldSnoc(s.refused, m, c);
      hide AllWithin, Only, OneEach, Held, DoCollect;
      if t.refused == s.refused {
        PlaceKeepsWithin(s, t, m, c, done);
        done' := Grown(done, m, c);
      } else {
        SameWithin(s, t, c, done);
      }
    }
  }

  lemma FallbackShape(s: System, f: nat)
    requires Busy(s, f)
    ensures var t, i := DoFallback(s, f), Held(s.refused, f);
      && t.received == s.received && t.refused == Without(s.refused, i)
      && SameOrMore(s.walled, t.walled, s.refused[i])
      && SameOrMore(s.everRam, t.everRam, s.refused[i]) && SameOrMore(s.dropped, t.dropped, s.refused[i])
  {
    hide Held, Without;
  }

  /** The collector's point leaves its goroutine's hands, or another one's does. */
  lemma PlacedAfter(s: System, t: System, i: nat, c: nat, done: seq<Mark>)
    requires OneEach(s.refused) && Placed(s, c, done) && i < |s.refused|
    requires t.received == s.received && t.refused == Without(s.refused, i)
    ensures OneEach(t.refused) && Placed(t, c, Grown(done, s.refused[i], c))
  {
    HeldWithout(s.refused, i, c);
    OneHolder(s.refused, i, c);
    hide Only, OneEach, Held, Without;
  }

  lemma FallbackKeepsOrder(s: System, f: nat, c: nat, done: seq<Mark>) returns (done': seq<Mark>)
    requires InOrder(s, c, done)
    ensures InOrder(DoFallback(s, f), c, done')
  {
    var t, i := DoFallback(s, f), Held(s.refused, f);
    if Busy(s, f) {
      FallbackShape(s, f);
      hide AllWithin, Placed, OneEach, Held, Without, DoFallback, Grown;
      PlacedAfter(s, t, i, c, done);
      PlaceKeepsWithin(s, t, s.refused[i], c, done);
      done' := Grown(done, s.refused[i], c);
    } else {
      done' := done;
    }
  }

  lemma RebootKeepsOrder(s: System, c: nat, done: seq<Mark>)
    requires InOrder(s, c, done)
    ensures InOrder(DoReboot(s), c, Only(s.received, c))
  {
    var t, i := DoReboot(s), Held(s.refused, c);
    SameWithin(s, t, c, done);
    hide AllWithin, Only, Q.DoRestart, Q.DoCrash;
    if i < |s.refused| {
      WiderWithin(t, c, done, s.refused[i]);
    }
  }

  lemma OrderAfter(s: System, a: Act, c: nat, done: seq<Mark>) returns (done': seq<Mark>)
    requires InOrder(s, c, done)
    ensures InOrder(Next(s, a), c, done')
  {
    hide InOrder, DoCollect, DoFallback, DoReboot, DoReceive;
    done' := done;
    match a
    case Collect(k, p) => done' := CollectKeepsOrder(s, Mark(k, p), c, done);
    case Fallback(f) => done' := FallbackKeepsOrder(s, f, c, done);
    case Reboot =>
      RebootKeepsOrder(s, c, done);
      done' := Only(s.received, c);
    case Receive =>
      ReceiveLeaves(s);
      SameOrder(s, DoReceive(s), c, done);
    case Disk(_) => SameOrder(s, Next(s, a), c, done);
    case Stream(_) => SameOrder(s, Next(s, a), c, done);
  }

  lemma {:induction false} RunKeepsOrder(queue: Option<Q.Queue>, capacity: nat, acts: seq<Act>, c: nat) returns (done: seq<Mark>)
    ensures InOrder(Run(Start(queue, capacity), acts), c, done)
  {
    if acts == [] {
      done := [];
    } else {
      hide InOrder, Next;
      var n := |acts| - 1;
      done := RunKeepsOrder(queue, capacity, acts[..n], c);
      done := OrderAfter(Run(Start(queue, capacity), acts[..n]), acts[n], c, done);
    }
  }

  lemma ReceiveLeaves(s: System)
    ensures DoReceive(s) == s.(queue := DoReceive(s).queue, ram := DoReceive(s).ram, ramSent := DoReceive(s).ramSent, events := DoReceive(s).events)
  {
  }

  lemma SameOrder(s: System, t: System, c: nat, done: seq<Mark>)
    requires InOrder(s, c, done) && t == s.(queue := t.queue, ram := t.ram, ramSent := t.ramSent, events := t.events)
    ensures InOrder(t, c, done)
  {
    hide Within, Only, OneEach, Held;
  }

  /** Each collector's points keep their order in the log, in the RAM channel and
      among those dropped. */
  lemma EachCollectorInOrder(queue: Option<Q.Queue>, capacity: nat, acts: seq<Act>, c: nat)
    ensures var s := Run(Start(queue, capacity), acts); var all := Only(s.received, c);
      Within(Only(s.walled, c), all) && Within(Only(s.everRam, c), all) && Within(Only(s.dropped, c), all)
  {
    var s := Run(Start(queue, capacity), acts);
    var done := RunKeepsOrder(queue, capacity, acts, c);
    hide Run, Within, Only;
    RebootKeepsOrder(s, c, done);
    SameWithin(DoReboot(s), s, c, Only(s.received, c));
  }

  // ---- when everything collected can reach the stream ------------------------------------

  /** The points the collectors hand over in the run. */
  function Inputs(acts: seq<Act>): seq<Point> {
    if acts == [] then []
    else Inputs(acts[..|acts| - 1]) + (if acts[|acts| - 1].Collect? then [acts[|acts| - 1].p] else [])
  }

  function PointsOf(ms: seq<Mark>): (ps: seq<Point>)
    ensures |ps| == |ms| && forall i :: 0 <= i < |ms| ==> ps[i] == ms[i].p
  {
    if ms == [] then [] else PointsOf(ms[..|ms| - 1]) + [ms[|ms| - 1].p]
  }

  lemma PointsOfSum(a: seq<Mark>, b: seq<Mark>)
    ensures PointsOf(a + b) == PointsOf(a) + PointsOf(b)
  {
    hide PointsOf;
  }

  /** Bytes the points take in the log. */
  function Size(points: seq<Point>): nat {
    if points == [] then 0
    else
      Size(points[..|points| - 1])
      + (match Encode(points[|points| - 1]) case Some(line) => |line| + 1 case None => 0)
  }

  lemma SizeSnoc(points: seq<Point>, p: Point)
    ensures Size(points + [p]) == Size(points) + match Encode(p) case Some(line) => |line| + 1 case None => 0
  {
    assert (points + [p])[..|points|] == points;
    hide Encode;
  }

  /** The bytes a step cuts off the log. */
  function CutBy(s: System, a: Act): nat {
    if a.Disk? && a.a.Compact? && s.queue.Some? && Q.CanCompact(s.queue.value) then
      var q := s.queue.value;
      if q.ackPos >= q.writePos then q.writePos else q.ackPos
    else 0
  }

  /** The bytes compactions have reclaimed in the run. */
  function Reclaimed(s: System, acts: seq<Act>): nat {
    if acts == [] then 0
    else Reclaimed(s, acts[..|acts| - 1]) + CutBy(Run(s, acts[..|acts| - 1]), acts[|acts| - 1])
  }

  /** Each point collected encodes and, counting the bytes of those before it less the
      bytes reclaimed since, finds the log below its limit. */
  predicate Room(q: Q.Queue, capacity: nat, acts: seq<Act>) {
    acts == []
    || (var before, a := acts[..|acts| - 1], acts[|acts| - 1];
        Room(q, capacity, before) && (a.Collect? ==> RoomFor(q, capacity, before, a.p)))
  }

  predicate RoomFor(q: Q.Queue, capacity: nat, before: seq<Act>, p: Point) {
    Encode(p).Some? && q.writePos + Size(Inputs(before)) < q.maxBytes + Reclaimed(Start(Some(q), capacity), before)
  }

  /** Every input so far has gone into the log, which is that much longer, less what
      was reclaimed. */
  ghost predicate AllWalled(s: System, q: Q.Queue, points: seq<Point>, cut: nat) {
    && PointsOf(s.walled) == points && s.refused == []
    && s.queue.Some? && s.queue.value.up
    && s.queue.value.writePos + cut == q.writePos + Size(points)
    && s.queue.value.writePos == |s.queue.value.wal| && s.queue.value.maxBytes == q.maxBytes
  }

  lemma InternalKeepsEnd(q: Q.Queue, a: Q.Action)
    requires (Internal(a) && !a.Compact?) || a.Take?
    ensures var r := Q.Step(q, a); r.up == q.up && r.writePos == q.writePos && r.maxBytes == q.maxBytes && r.wal == q.wal
  {
    hide Decode, ScanLine, Q.CkptText;
  }

  lemma CollectWalls(s: System, m: Mark, q: Q.Queue, points: seq<Point>, cut: nat)
    requires AllWalled(s, q, points, cut)
    ensures var t := DoCollect(s, m);
      if Encode(m.p).Some? && q.writePos + Size(points) < q.maxBytes + cut then AllWalled(t, q, points + [m.p], cut)
      else t.walled == s.walled
  {
    SizeSnoc(points, m.p);
    PointsOfSum(s.walled, [m]);
    assert Held(s.refused, m.collector) == 0 && PointsOf([m]) == [m.p];
    hide Size, Encode, PointsOf, Held;
  }

  lemma QueueKeepsWalled(s: System, t: System, a: Q.Action, q: Q.Queue, points: seq<Point>, cut: nat)
    requires AllWalled(s, q, points, cut) && ((Internal(a) && !a.Compact?) || a.Take?)
    requires t == s.(queue := Some(Q.Step(s.queue.value, a)), events := t.events)
    ensures AllWalled(t, q, points, cut)
  {
    InternalKeepsEnd(s.queue.value, a);
    hide Size, Encode, PointsOf, Q.Step, Internal;
  }

  lemma CompactCuts(s: System, q: Q.Queue, points: seq<Point>, cut: nat)
    requires AllWalled(s, q, points, cut)
    ensures AllWalled(Next(s, Disk(Q.Compact)), q, points, cut + CutBy(s, Disk(Q.Compact)))
  {
    hide Size, PointsOf, Q.CkptText;
  }

  /** The next start finds the log as it was. */
  lemma RebootKeepsWalled(s: System, q: Q.Queue, points: seq<Point>, cut: nat)
    requires AllWalled(s, q, points, cut)
    ensures AllWalled(DoReboot(s), q, points, cut)
  {
    hide Size, PointsOf, Q.LoadCkpt;
  }

  lemma NextWalls(s: System, a: Act, q: Q.Queue, points: seq<Point>, cut: nat)
    requires AllWalled(s, q, points, cut)
    ensures var cut' := cut + CutBy(s, a);
            if a.Collect? then
              if Encode(a.p).Some? && q.writePos + Size(points) < q.maxBytes + cut then AllWalled(Next(s, a), q, points + [a.p], cut')
              else Next(s, a).walled == s.walled
            else AllWalled(Next(s, a), q, points, cut')
  {
    match a
    case Collect(c, p) => CollectWalls(s, Mark(c, p), q, points, cut);
    case Disk(b) =>
      if b.Compact? {
        CompactCuts(s, q, points, cut);
      } else if Internal(b) {
        QueueKeepsWalled(s, Next(s, a), b, q, points, cut);
      }
    case Receive =>
      assert Q.Step(s.queue.value, Q.Take) == Q.DoTake(s.queue.value);
      hide AllWalled, Q.Step, Q.DoTake;
      if DoReceive(s) != s {
        QueueKeepsWalled(s, DoReceive(s), Q.Take, q, points, cut);
      }
    case Fallback(c) =>
      assert Held(s.refused, c) == 0;
    case Stream(_) =>
      hide Size, Encode, PointsOf;
    case Reboot =>
      RebootKeepsWalled(s, q, points, cut);
  }

  lemma InputsSnoc(acts: seq<Act>)
    requires acts != []
    ensures var before, a := Inputs(acts[..|acts| - 1]), acts[|acts| - 1];
      Inputs(acts) == if a.Collect? then before + [a.p] else before
  {
  }

  lemma WalledGrows(s: System, a: Act)
    ensures |Next(s, a).walled| <= |s.walled| + if a.Collect? then 1 else 0
  {
    hide Q.Accepts, Q.DoWrite, Q.DoTake, Q.DoCrash, Q.DoRestart, Q.Step, Streams, Held, Without, Busy;
  }

  lemma ReclaimedSnoc(s: System, acts: seq<Act>)
    requires acts != []
    ensures Reclaimed(s, acts) == Reclaimed(s, acts[..|acts| - 1]) + CutBy(Run(s, acts[..|acts| - 1]), acts[|acts| - 1])
  {
    hide CutBy, Run;
  }

  lemma RoomSnoc(q: Q.Queue, capacity: nat, acts: seq<Act>)
    requires acts != []
    ensures var before, a := acts[..|acts| - 1], acts[|acts| - 1];
      Room(q, capacity, acts) <==> Room(q, capacity, before) && (a.Collect? ==> RoomFor(q, capacity, before, a.p))
  {
    hide RoomFor;
  }

  /** With a disk queue, over any run, compactions, crashes and restarts included:
      every point handed over by a collector goes into the log iff each one encodes
      and, counting the bytes of those before it less the bytes reclaimed, finds the
      log below its limit. */
  lemma {:induction false} QueueTakesAllIff(q: Q.Queue, capacity: nat, acts: seq<Act>)
    requires q.up && q.writePos == |q.wal|
    ensures var start := Start(Some(q), capacity); var s := Run(start, acts);
      && |s.walled| <= |Inputs(acts)|
      && (|s.walled| == |Inputs(acts)| <==> Room(q, capacity, acts))
      && (Room(q, capacity, acts) ==> AllWalled(s, q, Inputs(acts), Reclaimed(start, acts)))
  {
    var start := Start(Some(q), capacity);
    if acts == [] {
      assert PointsOf([]) == [];
    } else {
      var n := |acts| - 1;
      var s, a, points := Run(start, acts[..n]), acts[n], Inputs(acts[..n]);
      QueueTakesAllIff(q, capacity, acts[..n]);
      WalledGrows(s, a);
      hide AllWalled, Next, Encode, Size, Run, CutBy;
      RunSnoc(start, acts);
      ReclaimedSnoc(start, acts);
      RoomSnoc(q, capacity, acts);
      InputsSnoc(acts);
      hide Inputs, Reclaimed, Room;
      if Room(q, capacity, acts[..n]) {
        NextWalls(s, a, q, points, Reclaimed(start, acts[..n]));
        WalledLength(s, q, points, Reclaimed(start, acts[..n]));
      }
    }
  }

  lemma RunSnoc(s: System, acts: seq<Act>)
    requires acts != []
    ensures Run(s, acts) == Next(Run(s, acts[..|acts| - 1]), acts[|acts| - 1])
  {
  }

  lemma WalledLength(s: System, q: Q.Queue, points: seq<Point>, cut: nat)
    requires AllWalled(s, q, points, cut)
    ensures |s.walled| == |points|
  {
  }

  // ---- without a disk queue ------------------------------------------------------------

  /** The stream's phase after the run, whatever it received. */
  function PhaseAt(acts: seq<Act>): Phase {
    if acts == [] then Connecting
    else
      var before, a := PhaseAt(acts[..|acts| - 1]), acts[|acts| - 1];
      match a
      case Stream(e) => if e.Received? then before else PhaseAfter(before, e)
      case Reboot => Connecting
      case _ => before
  }

  /** Arrivals not yet received by the stream, were the channel without limit. */
  function Backlog(acts: seq<Act>): nat {
    if acts == [] then 0
    else
      var before, a := acts[..|acts| - 1], acts[|acts| - 1];
      match a
      case Collect(_, _) => Backlog(before) + 1
      case Receive => if PhaseAt(before).Streaming? && Backlog(before) > 0 then Backlog(before) - 1 else Backlog(before)
      case Reboot => 0
      case _ => Backlog(before)
  }

  lemma {:induction false} PhaseIs(s: System, acts: seq<Act>)
    requires s.events == []
    ensures PhaseOf(Run(s, acts).events) == PhaseAt(acts)
  {
    if acts != [] {
      var before := acts[..|acts| - 1];
      PhaseIs(s, before);
      NextPhase(Run(s, before), acts[|acts| - 1]);
      hide Next;
    }
  }

  lemma NextPhase(s: System, a: Act)
    ensures PhaseOf(Next(s, a).events)
         == match a
            case Stream(e) => if e.Received? then PhaseOf(s.events) else PhaseAfter(PhaseOf(s.events), e)
            case Reboot => Connecting
            case _ => PhaseOf(s.events)
  {
    hide Q.Accepts, Q.DoWrite, Q.DoTake, Q.DoCrash, Q.DoRestart, Q.Step, Held, Without, Busy;
    var t := Next(s, a);
    if t.events != [] && t.events != s.events {
      assert Init(t.events) == s.events;
    }
  }

  /** Nothing dropped so far, and the channel holds the backlog. */
  ghost predicate Keeping(s: System, acts: seq<Act>) {
    s.queue.None? && s.refused == [] && s.dropped == [] && |s.ram| == Backlog(acts)
  }

  lemma NextKeeping(s: System, acts: seq<Act>)
    requires acts != [] && Keeping(s, acts[..|acts| - 1]) && |s.ram| <= s.capacity
    requires PhaseOf(s.events) == PhaseAt(acts[..|acts| - 1])
    ensures Next(s, acts[|acts| - 1]).capacity == s.capacity
    ensures if Backlog(acts) <= s.capacity then Keeping(Next(s, acts[|acts| - 1]), acts) else Next(s, acts[|acts| - 1]).dropped != []
  {
    var before, a := acts[..|acts| - 1], acts[|acts| - 1];
    BacklogUnfolds(acts);
    hide PhaseOf, PhaseAt, Backlog;
    match a
    case Collect(c, p) => ArrivalKeeps(s, Mark(c, p), before, acts);
    case Fallback(c) => assert Held(s.refused, c) == 0;
    case Receive => hide Held;
    case _ => hide Held, Send;
  }

  lemma ArrivalKeeps(s: System, m: Mark, before: seq<Act>, acts: seq<Act>)
    requires Keeping(s, before) && |s.ram| <= s.capacity && Backlog(acts) == Backlog(before) + 1
    ensures var t := DoCollect(s, m);
      t.capacity == s.capacity && if Backlog(acts) <= s.capacity then Keeping(t, acts) else t.dropped != []
  {
    assert Held(s.refused, m.collector) == 0;
    hide Backlog, Held;
  }

  lemma BacklogUnfolds(acts: seq<Act>)
    requires acts != []
    ensures var before, a := acts[..|acts| - 1], acts[|acts| - 1];
      Backlog(acts) == match a
        case Collect(_, _) => Backlog(before) + 1
        case Receive => if PhaseAt(before).Streaming? && Backlog(before) > 0 then Backlog(before) - 1 else Backlog(before)
        case Reboot => 0
        case _ => Backlog(before)
  {
  }

  predicate BacklogFits(acts: seq<Act>, capacity: nat) {
    acts == [] || (BacklogFits(acts[..|acts| - 1], capacity) && Backlog(acts) <= capacity)
  }

  lemma DroppedStays(s: System, a: Act)
    ensures |s.dropped| <= |Next(s, a).dropped|
  {
    hide Q.Accepts, Q.DoWrite, Q.DoTake, Q.DoCrash, Q.DoRestart, Q.Step, Streams, Held, Without, Busy;
  }

  /** Without a disk queue, over any run: nothing is dropped iff the arrivals the
      stream has not yet received never exceed the channel's capacity. */
  lemma {:induction false} NothingDroppedIff(capacity: nat, acts: seq<Act>)
    ensures var s := Run(Start(None, capacity), acts);
      && s.capacity == capacity
      && (s.dropped == [] <==> BacklogFits(acts, capacity))
      && (BacklogFits(acts, capacity) ==> Keeping(s, acts) && |s.ram| <= capacity)
  {
    if acts != [] {
      var n := |acts| - 1;
      var s := Run(Start(None, capacity), acts[..n]);
      NothingDroppedIff(capacity, acts[..n]);
      PhaseIs(Start(None, capacity), acts[..n]);
      RunSnoc(Start(None, capacity), acts);
      hide Run, Next, PhaseOf, PhaseAt, Backlog;
      DroppedStays(s, acts[n]);
      NextCapacity(s, acts[n]);
      if BacklogFits(acts[..n], capacity) {
        NextKeeping(s, acts);
      }
    }
  }

  lemma NextCapacity(s: System, a: Act)
    ensures Next(s, a).capacity == s.capacity
  {
    hide Q.Accepts, Q.DoWrite, Q.DoTake, Q.DoCrash, Q.DoRestart, Q.Step, Streams, Held, Without, Busy;
  }

  /** The agent's side of fanIn, one point at a time: the loop body of a collector's
      goroutine when no other step comes between its two sends. */
  class Agent {
    const diskQueue: DiskQueue?
    const capacity: nat
    var dataCh: seq<DataPoint>
    var droppedPts: nat
    ghost var sys: System

    ghost predicate Valid()
      reads this, diskQueue
    {
      && sys.capacity == capacity && sys.refused == []
      && |dataCh| == |sys.ram| && (forall i :: 0 <= i < |dataCh| ==> dataCh[i] == sys.ram[i].p)
      && droppedPts == |sys.dropped|
      && (diskQueue == null <==> sys.queue.None?)
      && (diskQueue != null ==> diskQueue.Valid() && sys.queue == Some(diskQueue.Snapshot()))
    }

    constructor (queue: DiskQueue?, queueSize: nat)
      requires queue != null ==> queue.Valid()
      ensures Valid() && diskQueue == queue && capacity == queueSize
      ensures sys == Start(if queue == null then None else Some(queue.Snapshot()), queueSize)
    {
      diskQueue, capacity := queue, queueSize;
      dataCh, droppedPts := [], 0;
      sys := Start(if queue == null then None else Some(queue.Snapshot()), queueSize);
    }

    method FanIn(c: nat, p: Point)
      requires Valid()
      modifies this, diskQueue
      ensures Valid() && sys == DoFallback(DoCollect(old(sys), Mark(c, p)), c)
    {
      OnePoint(sys, c, p);
      hide Q.Accepts, Q.DoWrite, DoCollect, DoFallback;
      sys := DoFallback(DoCollect(sys, Mark(c, p)), c);
      if diskQueue != null {
        var ok := diskQueue.Write(p);
        if ok {
          return;
        }
        RefusedWrite(old(diskQueue.Snapshot()), p);
      }
      if |dataCh| < capacity {
        dataCh := dataCh + [p];
      } else {
        droppedPts := droppedPts + 1;
      }
    }

    static lemma RefusedWrite(q: Q.Queue, p: Point)
      requires !Q.Accepts(q, p)
      ensures Q.DoWrite(q, p) == q
    {
    }

    /** The two steps together. */
    static lemma OnePoint(s: System, c: nat, p: Point)
      requires s.refused == []
      ensures var m := Mark(c, p); var r := s.(received := s.received + [m]);
        DoFallback(DoCollect(s, m), c)
          == match s.queue
             case Some(q) =>
               if Q.Accepts(q, p) then r.(queue := Some(Q.DoWrite(q, p)), walled := s.walled + [m]) else Send(r, m)
             case None => Send(r, m)
    {
      hide Q.Accepts, Q.DoWrite;
      var m := Mark(c, p);
      assert Held([], c) == 0 && Held([m], c) == 0 && Without([m], 0) == [];
    }

    /** RunStream receiving while a stream is up: from the disk queue if there is
        one, from the RAM channel if not. */
    method StreamReceives() returns (dp: Option<DataPoint>)
      requires Valid() && Streams(sys)
      modifies this, diskQueue
      ensures Valid() && sys == DoReceive(old(sys))
      ensures dp.Some? ==> sys.events == old(sys).events + [Received(dp.value)]
      ensures dp.None? ==> sys == old(sys)
    {
      hide Q.DoTake;
      sys := DoReceive(sys);
      if diskQueue != null {
        dp := diskQueue.Receive();
        EmptyTake(old(diskQueue.Snapshot()));
      } else if dataCh == [] {
        dp := None;
      } else {
        dp := Some(dataCh[0]);
        dataCh := dataCh[1..];
      }
    }

    static lemma EmptyTake(q: Q.Queue)
      ensures q.chan == [] ==> Q.DoTake(q) == q
    {
    }
  }
}
