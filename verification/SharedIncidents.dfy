/** One incident table for several processes (Dockerfile: gunicorn with four workers,
    each with its own lock and its own scheduler): when a pair of detector and entity
    has two open incidents, when a record raises, and that neither happens unforeseen
    while one process is alone. */
module SharedIncidents {
  import opened Wrappers
  import opened Incidents
  import opened OverlappingJobs

  /** How many incidents of the pair are open. */
  function OpenCount(rows: seq<Incident>, detector: string, entity: string): nat {
    if rows == [] then 0
    else OpenCount(rows[..|rows| - 1], detector, entity) + (if OpenFor(rows[|rows| - 1], detector, entity) then 1 else 0)
  }

  // ---- one step ------------------------------------------------------------------

  lemma CountSnoc(rows: seq<Incident>, r: Incident, d: string, e: string)
    ensures OpenCount(rows + [r], d, e) == OpenCount(rows, d, e) + if OpenFor(r, d, e) then 1 else 0
  {
    assert (rows + [r])[..|rows|] == rows;
  }

  lemma {:induction false} CountUpdate(rows: seq<Incident>, i: nat, r: Incident, d: string, e: string)
    requires i < |rows| && (OpenFor(r, d, e) <==> OpenFor(rows[i], d, e))
    ensures OpenCount(rows[i := r], d, e) == OpenCount(rows, d, e)
  {
    var n := |rows| - 1;
    assert rows == rows[..n] + [rows[n]];
    CountSnoc(rows[..n], rows[n], d, e);
    if i < n {
      CountUpdate(rows[..n], i, r, d, e);
      assert rows[i := r] == rows[..n][i := r] + [rows[n]];
      CountSnoc(rows[..n][i := r], rows[n], d, e);
    } else {
      assert rows[i := r] == rows[..n] + [r];
      CountSnoc(rows[..n], r, d, e);
    }
  }

  /** The look-up finds a row iff the pair has an open one. */
  lemma {:induction false} FoundIff(rows: seq<Incident>, d: string, e: string)
    ensures Lookup(rows, d, e).Some? <==> OpenCount(rows, d, e) > 0
  {
    if rows != [] {
      FoundIff(rows[..|rows| - 1], d, e);
    }
  }

  lemma {:induction false} TouchedCounts(rows: seq<Incident>, touched: seq<Incident>, d: string, e: string)
    requires |touched| == |rows| && forall i :: 0 <= i < |rows| && OpenFor(touched[i], d, e) ==> OpenFor(rows[i], d, e)
    ensures OpenCount(touched, d, e) <= OpenCount(rows, d, e)
  {
    if rows != [] {
      TouchedCounts(rows[..|rows| - 1], touched[..|rows| - 1], d, e);
    }
  }

  lemma TouchCounts(t: Table, a: Action, d: string, e: string)
    requires !a.Record?
    ensures OpenCount(Step(t, a).rows, d, e) <= OpenCount(t.rows, d, e)
  {
    TouchedCounts(t.rows, TouchAll(t.rows, a), d, e);
  }

  /** What was found is a row of the pair. */
  predicate Fits(t: Table, p: Pending) {
    p.found.Some? ==>
      p.found.value < |t.rows| && t.rows[p.found.value].detector == p.detector && t.rows[p.found.value].entity == p.entity
  }

  /** The open incidents of a pair before and after a write. */
  lemma WriteCountsOf(t: Table, found: Option<nat>, o: Observation, d: string, e: string)
    requires Fits(t, Pending(0, o.detector, o.entity, found))
    ensures OpenCount(DoWrite(t, found, o).rows, d, e) == OpenCount(t.rows, d, e)
              + if found.None? && !KeyTaken(t.rows, o) && d == o.detector && e == o.entity then 1 else 0
  {
    hide KeyTaken;
    match WriteOutcome(t, found, o)
    case Refreshed =>
      CountUpdate(t.rows, found.value, t.rows[found.value].(lastSeen := o.lastSeen, details := o.details), d, e);
    case KeyClash =>
    case Opened(row) =>
      CountSnoc(t.rows, row, d, e);
  }

  // ---- runs ----------------------------------------------------------------------

  ghost predicate AllFit(s: Shared) {
    forall p :: p in s.pending ==> Fits(s.table, s.pending[p])
  }

  lemma LookFits(t: Table, d: string, e: string)
    ensures Fits(t, Pending(0, d, e, Lookup(t.rows, d, e)))
  {
  }

  /** Rows keep their place and their pair. */
  lemma RowsStay(s: Shared, a: Act, p: Pending)
    requires Fits(s.table, p)
    ensures Fits(Next(s, a).table, p)
  {
    hide KeyTaken, NewestOpen, Of, Rest;
  }

  lemma NextKeepsFits(s: Shared, a: Act)
    requires AllFit(s)
    ensures AllFit(Next(s, a))
  {
    var t := Next(s, a);
    forall p | p in t.pending ensures Fits(t.table, t.pending[p]) {
      if p in s.pending && t.pending[p] == s.pending[p] {
        RowsStay(s, a, s.pending[p]);
      } else {
        LookFits(s.table, a.detector, a.entity);
      }
      hide *;
    }
  }

  lemma {:induction false} RunFits(acts: seq<Act>)
    ensures AllFit(Run(acts))
  {
    if acts != [] {
      hide AllFit, Next;
      RunFits(acts[..|acts| - 1]);
      NextKeepsFits(Run(acts[..|acts| - 1]), acts[|acts| - 1]);
    } else {
      assert AllFit(START);
    }
  }

  /** The record stays as the look-up left it until its process writes. */
  lemma PendingStays(s: Shared, a: Act, p: nat)
    requires p in s.pending && !(a.Write? && a.process == p)
    ensures p in Next(s, a).pending && Next(s, a).pending[p] == s.pending[p]
  {
    hide DoWrite, WriteOutcome, Lookup, Of, Rest, Announced;
    if a.Announce? {
      assert Announced(s, a.job).pending == s.pending by {
        hide *;
        AnnouncedPending(s, a.job);
      }
    }
  }

  lemma AnnouncedPending(s: Shared, job: nat)
    ensures Announced(s, job).pending == s.pending
  {
  }

  lemma {:induction false} FoundAtLook(before: seq<Act>, look: Act, between: seq<Act>)
    requires look.Look? && look.process !in Run(before).pending
    requires forall a :: a in between ==> !(a.Write? && a.process == look.process)
    ensures var s := Run(before + [look] + between);
      && look.process in s.pending
      && s.pending[look.process]
           == Pending(look.job, look.detector, look.entity, Lookup(Run(before).table.rows, look.detector, look.entity))
  {
    var start := before + [look];
    var acts := start + between;
    if between == [] {
      assert acts[..|acts| - 1] == before && acts[|acts| - 1] == look;
    } else {
      var n := |between| - 1;
      FoundAtLook(before, look, between[..n]);
      assert acts[..|acts| - 1] == start + between[..n] && acts[|acts| - 1] == between[n];
      assert between[n] in between;
      var s := Run(start + between[..n]);
      assert Run(acts) == Next(s, between[n]);
      hide *;
      PendingStays(s, between[n], look.process);
    }
  }

  /** A record whose SELECT and write have anything between them: it opens a row iff
      none was open at the look-up and the key is free at the write; it raises iff
      none was open at the look-up and the key is taken at the write, by a resolved
      row or by one another process opened in between, and then the table stays and
      its detector's list is lost. */
  lemma RecordAcrossProcesses(before: seq<Act>, look: Act, between: seq<Act>, o: Observation)
    requires look.Look? && look.process !in Run(before).pending && look.detector == o.detector && look.entity == o.entity
    requires forall a :: a in between ==> !(a.Write? && a.process == look.process)
    ensures
      var seen, s := Run(before), Run(before + [look] + between);
      var write := Act.Write(look.process, o);
      var s', free := Next(s, write), !KeyTaken(s.table.rows, o);
      var none := OpenCount(seen.table.rows, o.detector, o.entity) == 0;
      var count, count' := OpenCount(s.table.rows, o.detector, o.entity), OpenCount(s'.table.rows, o.detector, o.entity);
      && Enabled(s, write)
      && count' == (if none && free then count + 1 else count)
      && (Raises(s, write) <==> none && !free)
      && (Raises(s, write) ==> s'.table == s.table && s'.lost == s.lost + ItemIds(Of(s.held, look.job)))
  {
    var run := before + [look] + between;
    var s, found := Run(run), Lookup(Run(before).table.rows, o.detector, o.entity);
    FoundAtLook(before, look, between);
    RunFits(run);
    FoundIff(Run(before).table.rows, o.detector, o.entity);
    assert Fits(s.table, s.pending[look.process]);
    hide Run, Lookup, OpenCount, KeyTaken;
    WriteCountsOf(s.table, found, o, o.detector, o.entity);
  }

  /** The write is an INSERT that violates the unique key. */
  predicate Raises(s: Shared, a: Act) {
    a.Write? && Enabled(s, a) && WriteOutcome(s.table, s.pending[a.process].found, a.o).KeyClash?
  }

  /** The write inserts a row for a pair that has an open one: none was open when
      its process looked. */
  predicate Doubles(s: Shared, a: Act) {
    && a.Write? && Enabled(s, a)
    && s.pending[a.process].found.None? && !KeyTaken(s.table.rows, a.o)
    && OpenCount(s.table.rows, a.o.detector, a.o.entity) > 0
  }

  ghost predicate AtMostOne(s: Shared) {
    forall d, e :: OpenCount(s.table.rows, d, e) <= 1
  }

  /** In every state of the run no pair has two open incidents. */
  ghost predicate AlwaysAtMostOne(acts: seq<Act>) {
    acts == [] || (AlwaysAtMostOne(acts[..|acts| - 1]) && AtMostOne(Run(acts)))
  }

  predicate NeverDoubles(acts: seq<Act>) {
    acts == [] || (NeverDoubles(acts[..|acts| - 1]) && !Doubles(Run(acts[..|acts| - 1]), acts[|acts| - 1]))
  }

  /** What a step does to the open incidents of a pair. */
  lemma NextCounts(s: Shared, a: Act, d: string, e: string)
    requires AllFit(s)
    ensures var count, count' := OpenCount(s.table.rows, d, e), OpenCount(Next(s, a).table.rows, d, e);
      if a.Write? && Enabled(s, a) && s.pending[a.process].found.None? && !KeyTaken(s.table.rows, a.o)
         && d == a.o.detector && e == a.o.entity then count' == count + 1
      else count' <= count
  {
    hide OpenCount, KeyTaken, Lookup, TouchAll, Of, Rest, FirstDue;
    if Enabled(s, a) {
      match a
      case Write(p, o) =>
        assert Fits(s.table, s.pending[p]);
        WriteCountsOf(s.table, s.pending[p].found, o, d, e);
      case Announce(_, job) =>
        var i := FirstDue(s.due, job);
        if i < |s.due| {
          TouchCounts(s.table, MarkNotified(s.due[i].id), d, e);
        }
      case Analyse(_, b) => TouchCounts(s.table, b, d, e);
      case _ =>
    }
  }

  lemma NextIsSingleIff(s: Shared, a: Act)
    requires AllFit(s) && AtMostOne(s)
    ensures AtMostOne(Next(s, a)) <==> !Doubles(s, a)
  {
    var s' := Next(s, a);
    forall d, e ensures OpenCount(s'.table.rows, d, e) <= 1 <==> !(Doubles(s, a) && d == a.o.detector && e == a.o.entity) {
      assert OpenCount(s.table.rows, d, e) <= 1;
      NextCounts(s, a, d, e);
      hide AllFit, OpenCount, KeyTaken, Next, Enabled;
    }
    hide AllFit, OpenCount, KeyTaken, Next, Enabled;
    if Doubles(s, a) {
      assert OpenCount(s'.table.rows, a.o.detector, a.o.entity) > 1;
    }
  }

  /** However processes overlap, no pair ever has two open incidents iff no insert
      happens while one is open that was not at its look-up. */
  lemma {:induction false} TwoOpenIff(acts: seq<Act>)
    ensures AlwaysAtMostOne(acts) <==> NeverDoubles(acts)
  {
    if acts != [] {
      var n := |acts| - 1;
      TwoOpenIff(acts[..n]);
      RunFits(acts[..n]);
      if AlwaysAtMostOne(acts[..n]) {
        if n == 0 {
          assert AtMostOne(Run(acts[..n]));
        }
        hide Doubles, AtMostOne, AllFit, Next;
        NextIsSingleIff(Run(acts[..n]), acts[n]);
      }
    }
  }

  /** Two processes look while nothing is open and then both write, the keys free at
      the looks: two open incidents iff the first-seen times differ; if they are
      equal the second raises although one is open, and its detector's list is
      lost. */
  lemma TwoLooksThenTwoWrites(s: Shared, look: Act, look': Act, a: Observation, b: Observation)
    requires look.Look? && look'.Look? && look.process != look'.process
    requires look.process !in s.pending && look'.process !in s.pending
    requires a.detector == b.detector == look.detector == look'.detector && a.entity == b.entity == look.entity == look'.entity
    requires OpenCount(s.table.rows, a.detector, a.entity) == 0 && !KeyTaken(s.table.rows, a) && !KeyTaken(s.table.rows, b)
    ensures
      var first := Next(Next(Next(s, look), look'), Act.Write(look.process, a));
      var write := Act.Write(look'.process, b);
      && (OpenCount(Next(first, write).table.rows, a.detector, a.entity) == 2 <==> a.firstSeen != b.firstSeen)
      && (Raises(first, write) <==> a.firstSeen == b.firstSeen)
      && (Raises(first, write) ==>
            && OpenCount(Next(first, write).table.rows, a.detector, a.entity) == 1
            && Next(first, write).lost == s.lost + ItemIds(Of(first.held, look'.job)))
  {
    FoundIff(s.table.rows, a.detector, a.entity);
    var t := DoWrite(s.table, None, a);
    TakenAfter(s.table, a, b);
    hide OpenCount, KeyTaken, Lookup;
    WriteCountsOf(s.table, None, a, a.detector, a.entity);
    WriteCountsOf(t, None, b, a.detector, a.entity);
  }

  lemma TakenAfter(t: Table, a: Observation, b: Observation)
    requires !KeyTaken(t.rows, a) && !KeyTaken(t.rows, b) && a.detector == b.detector && a.entity == b.entity
    ensures KeyTaken(DoWrite(t, None, a).rows, b) <==> a.firstSeen == b.firstSeen
  {
    var rows := DoWrite(t, None, a).rows;
    assert rows[|t.rows|].firstSeen == a.firstSeen;
  }

  // ---- what a raise takes along -------------------------------------------------------

  /** A detector raises while its list holds rows it opened. */
  predicate LosesRows(s: Shared, a: Act) {
    Raises(s, a) && Of(s.held, s.pending[a.process].job) != []
  }

  predicate NeverLoses(acts: seq<Act>) {
    acts == [] || (NeverLoses(acts[..|acts| - 1]) && !LosesRows(Run(acts[..|acts| - 1]), acts[|acts| - 1]))
  }

  lemma NextLoses(s: Shared, a: Act)
    ensures Next(s, a).lost == s.lost + if LosesRows(s, a) then ItemIds(Of(s.held, s.pending[a.process].job)) else []
  {
    hide KeyTaken, Lookup, Of, Rest, FirstDue, DoWrite, Step;
    assert s.lost + [] == s.lost;
  }

  /** However processes overlap, no opened row is lost iff no detector raises while
      its list holds one; when the jobs are over that is iff all are announced. */
  lemma {:induction false} NothingLostIff(acts: seq<Act>)
    ensures Run(acts).lost == [] <==> NeverLoses(acts)
  {
    if acts != [] {
      NothingLostIff(acts[..|acts| - 1]);
      NextLoses(Run(acts[..|acts| - 1]), acts[|acts| - 1]);
      hide LosesRows, Next, Of;
    }
  }

  // ---- a row resolved between look-up and write ---------------------------------------

  /** The write rewrites a row somebody resolved since its process looked. */
  predicate RewritesResolved(s: Shared, a: Act) {
    && a.Write? && Enabled(s, a)
    && s.pending[a.process].found.Some? && s.pending[a.process].found.value < |s.table.rows|
    && var r := s.table.rows[s.pending[a.process].found.value];
       r.resolvedAt.Some? && (r.lastSeen != a.o.lastSeen || r.details != a.o.details)
  }

  /** Each row of the first table lives on in the second. */
  ghost predicate LiveOn(t: Table, u: Table) {
    |t.rows| <= |u.rows| && forall i :: 0 <= i < |t.rows| ==> Succeeds(t.rows[i], u.rows[i])
  }

  /** A step leaves resolved incidents alone iff it is not such a write. */
  lemma StepFreezesIff(s: Shared, a: Act)
    requires AllFit(s)
    ensures LiveOn(s.table, Next(s, a).table) <==> !RewritesResolved(s, a)
  {
    hide KeyTaken, NewestOpen, Of, Rest;
    if RewritesResolved(s, a) {
      assert !Succeeds(s.table.rows[s.pending[a.process].found.value],
                       Next(s, a).table.rows[s.pending[a.process].found.value]);
    }
  }

  /** At every step every row lives on. */
  ghost predicate AlwaysLiveOn(acts: seq<Act>) {
    acts == [] || (AlwaysLiveOn(acts[..|acts| - 1]) && LiveOn(Run(acts[..|acts| - 1]).table, Run(acts).table))
  }

  predicate NeverRewrites(acts: seq<Act>) {
    acts == [] || (NeverRewrites(acts[..|acts| - 1]) && !RewritesResolved(Run(acts[..|acts| - 1]), acts[|acts| - 1]))
  }

  /** However processes overlap, no resolved incident is ever rewritten, and rows keep
      identity and marks, iff no write finds its row resolved since its look-up. */
  lemma {:induction false} ResolvedIsFrozenIff(acts: seq<Act>)
    ensures AlwaysLiveOn(acts) <==> NeverRewrites(acts)
  {
    if acts != [] {
      var n := |acts| - 1;
      ResolvedIsFrozenIff(acts[..n]);
      RunFits(acts[..n]);
      hide LiveOn, RewritesResolved, AllFit, Next;
      StepFreezesIff(Run(acts[..n]), acts[n]);
    }
  }

  // ---- what SQLite keeps whoever writes --------------------------------------------

  /** Ids ascend below the counter, and the unique key holds. */
  ghost predicate Keyed(t: Table) {
    && (forall i, j :: 0 <= i < j < |t.rows| ==> t.rows[i].id < t.rows[j].id && !SameKey(t.rows[i], t.rows[j]))
    && (forall i :: 0 <= i < |t.rows| ==> t.rows[i].id < t.nextId)
  }

  lemma SameKeysKeyed(t: Table, u: Table)
    requires Keyed(t) && |u.rows| == |t.rows| && u.nextId == t.nextId
    requires forall i :: 0 <= i < |t.rows| ==> u.rows[i].id == t.rows[i].id && SameKey(u.rows[i], t.rows[i])
    ensures Keyed(u)
  {
  }

  lemma WriteKeepsKeyed(t: Table, found: Option<nat>, o: Observation)
    requires Keyed(t)
    ensures Keyed(DoWrite(t, found, o))
  {
    if found.Some? {
      SameKeysKeyed(t, DoWrite(t, found, o));
    }
  }

  lemma TouchKeepsKeyed(t: Table, a: Action)
    requires Keyed(t) && !a.Record?
    ensures Keyed(Step(t, a))
  {
    SameKeysKeyed(t, Step(t, a));
  }

  lemma {:induction false} RunKeepsKeyed(acts: seq<Act>)
    ensures Keyed(Run(acts).table)
  {
    if acts != [] {
      var s, a := Run(acts[..|acts| - 1]), acts[|acts| - 1];
      RunKeepsKeyed(acts[..|acts| - 1]);
      hide Keyed, KeyTaken, Lookup, Step, DoWrite, Of, Rest, WriteOutcome;
      if Enabled(s, a) {
        match a
        case Write(p, o) => WriteKeepsKeyed(s.table, s.pending[p].found, o);
        case Announce(_, job) =>
          if FirstDue(s.due, job) < |s.due| {
            TouchKeepsKeyed(s.table, MarkNotified(s.due[FirstDue(s.due, job)].id));
          }
        case Analyse(_, b) => TouchKeepsKeyed(s.table, b);
        case _ =>
      }
    }
  }

  // ---- one process -----------------------------------------------------------------

  predicate Alone(acts: seq<Act>, process: nat) {
    forall a :: a in acts && !a.EndDetector? ==> a.process == process
  }

  /** What a step is to the table when SELECT and write are one. */
  function AtomicNow(s: Shared, a: Act): seq<Action> {
    if !Enabled(s, a) then []
    else
      match a
      case Write(_, o) => [Record(o)]
      case Announce(_, job) =>
        var i := FirstDue(s.due, job);
        if i == |s.due| then [] else [MarkNotified(s.due[i].id)]
      case Analyse(_, b) => [b]
      case _ => []
  }

  function Atomic(acts: seq<Act>): seq<Action> {
    if acts == [] then []
    else Atomic(acts[..|acts| - 1]) + AtomicNow(Run(acts[..|acts| - 1]), acts[|acts| - 1])
  }

  /** What the process found is what it would find now. */
  predicate Fresh(s: Shared, process: nat) {
    && s.pending.Keys <= {process}
    && (process in s.pending ==>
          var p := s.pending[process]; p.found == Lookup(s.table.rows, p.detector, p.entity))
  }

  lemma NextKeepsFresh(s: Shared, a: Act, process: nat)
    requires Fresh(s, process) && (a.EndDetector? || a.process == process)
    ensures Fresh(Next(s, a), process)
    ensures !Doubles(s, a)
    ensures Next(s, a).table == Exec(s.table, AtomicNow(s, a))
  {
    if a.Write? && Enabled(s, a) {
      FoundIff(s.table.rows, a.o.detector, a.o.entity);
    }
    ExecOne(s.table, AtomicNow(s, a));
    hide OpenCount, KeyTaken, Lookup, Step, DoWrite, WriteOutcome, Of, Rest, FirstDue;
    assert a.Write? && Enabled(s, a) ==> Step(s.table, Record(a.o)) == DoWrite(s.table, s.pending[process].found, a.o);
  }

  lemma ExecOne(t: Table, actions: seq<Action>)
    requires |actions| <= 1
    ensures Exec(t, actions) == if actions == [] then t else Step(t, actions[0])
  {
  }

  lemma {:induction false} ExecOfSum(t: Table, a: seq<Action>, b: seq<Action>)
    ensures Exec(t, a + b) == Exec(Exec(t, a), b)
  {
    if b == [] {
      assert a + b == a;
    } else {
      var n := |b| - 1;
      ExecOfSum(t, a, b[..n]);
      assert (a + b)[..|a + b| - 1] == a + b[..n];
    }
  }

  /** While one process is alone, its lock makes the two halves one: the table is that
      of a run of whole records, so everything in Incidents holds of it, and no pair
      ever has two open incidents. */
  lemma {:induction false} OneProcessIsAtomic(acts: seq<Act>, process: nat)
    requires Alone(acts, process)
    ensures Run(acts).table == Exec(START.table, Atomic(acts))
    ensures Fresh(Run(acts), process) && NeverDoubles(acts)
  {
    if acts != [] {
      var n := |acts| - 1;
      assert Alone(acts[..n], process) && acts[n] in acts;
      OneProcessIsAtomic(acts[..n], process);
      hide Fresh, Doubles, Next, AtomicNow, Exec;
      NextKeepsFresh(Run(acts[..n]), acts[n], process);
      ExecOfSum(START.table, Atomic(acts[..n]), AtomicNow(Run(acts[..n]), acts[n]));
    }
  }
}
