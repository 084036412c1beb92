/** Failed logins of one key (app.py): the lock check and the record of a failure
    are two sections under the lock, with the password check between them, so
    requests overlap there. Every worker process has an attempts table of its own. */
module LoginLockout {
  const MAX_ATTEMPTS := 5
  const LOCKOUT := 900

  /** `attempts` is what the server keeps; `failures` every failed password check
      since the last success, in order; `flight` the requests that passed the lock
      check and whose password check is not over. */
  datatype Key = Key(attempts: seq<int>, failures: seq<int>, flight: nat)

  const FRESH := Key([], [], 0)

  /** `now` is the clock the section read. */
  datatype Step = Check(now: int) | Fail(now: int) | Succeed

  function Recent(attempts: seq<int>, now: int): (r: seq<int>)
    ensures |r| <= |attempts|
  {
    if attempts == [] then []
    else
      var n := |attempts| - 1;
      Recent(attempts[..n], now) + (if now - attempts[n] < LOCKOUT then [attempts[n]] else [])
  }

  predicate Locked(k: Key, now: int) {
    |Recent(k.attempts, now)| >= MAX_ATTEMPTS
  }

  /** A check that finds the key locked ends its request. */
  function Next(k: Key, s: Step): Key {
    match s
    case Check(now) =>
      k.(attempts := Recent(k.attempts, now), flight := if Locked(k, now) then k.flight else k.flight + 1)
    case Fail(now) =>
      if k.flight == 0 then k else Key(k.attempts + [now], k.failures + [now], k.flight - 1)
    case Succeed =>
      if k.flight == 0 then k else Key([], [], k.flight - 1)
  }

  function Run(k: Key, run: seq<Step>): Key {
    if run == [] then k else Next(Run(k, run[..|run| - 1]), run[|run| - 1])
  }

  /** Failures are recorded at the clock; a check may have read it earlier. */
  predicate Timely(run: seq<Step>) {
    forall i, j :: 0 <= i < j < |run| && run[j].Fail? ==> NotAfter(run[i], run[j].now)
  }

  predicate NotAfter(s: Step, now: int) {
    s.Succeed? || s.now <= now
  }

  /** At no time are more than `width` requests between check and outcome. */
  predicate Width(run: seq<Step>, width: nat) {
    run == [] || (Width(run[..|run| - 1], width) && Run(FRESH, run).flight <= width)
  }

  // ---- the attempts kept -----------------------------------------------------

  predicate Sorted(s: seq<int>) {
    forall i, j :: 0 <= i < j < |s| ==> s[i] <= s[j]
  }

  function Tail(s: seq<int>, k: nat): seq<int>
    requires k <= |s|
  {
    s[|s| - k..]
  }

  /** The first n entries are out of the window. */
  predicate Old(s: seq<int>, n: int, now: int) {
    forall i :: 0 <= i < n && i < |s| ==> now - s[i] >= LOCKOUT
  }

  /** The kept attempts are the newest failures; what was dropped is out of the
      window at the clock, for good. */
  ghost predicate Kept(k: Key, clock: int) {
    && Sorted(k.failures)
    && (k.failures != [] ==> k.failures[|k.failures| - 1] <= clock)
    && |k.attempts| <= |k.failures|
    && k.attempts == Tail(k.failures, |k.attempts|)
    && Old(k.failures, |k.failures| - |k.attempts|, clock)
  }

  lemma {:induction false} NoneRecent(s: seq<int>, now: int)
    requires Old(s, |s|, now)
    ensures Recent(s, now) == []
  {
    if s != [] {
      NoneRecent(s[..|s| - 1], now);
    }
  }

  lemma TailSnoc(s: seq<int>, k: nat)
    requires k < |s|
    ensures Tail(s[..|s| - 1], k) + [s[|s| - 1]] == Tail(s, k + 1)
  {
  }

  lemma RecentSnoc(s: seq<int>, now: int)
    requires s != []
    ensures Recent(s, now) == Recent(s[..|s| - 1], now) + (if now - s[|s| - 1] < LOCKOUT then [s[|s| - 1]] else [])
  {
  }

  lemma OldOfPrefix(s: seq<int>, m: int, now: int)
    requires s != [] && m < |s| && Old(s[..|s| - 1], m, now)
    ensures Old(s, m, now)
  {
    forall i | 0 <= i < m && i < |s| ensures now - s[i] >= LOCKOUT {
      assert s[..|s| - 1][i] == s[i];
    }
  }

  lemma SortedPrefix(s: seq<int>)
    requires s != [] && Sorted(s)
    ensures Sorted(s[..|s| - 1])
    ensures forall i :: 0 <= i < |s| ==> s[i] <= s[|s| - 1]
  {
  }

  lemma AllOld(s: seq<int>, now: int)
    requires s != [] && Sorted(s) && now - s[|s| - 1] >= LOCKOUT
    ensures Old(s, |s|, now) && Recent(s, now) == [] == Tail(s, 0)
  {
    SortedPrefix(s);
    hide Sorted;
    NoneRecent(s, now);
  }

  /** On an ordered list, dropping the old ones leaves a suffix. */
  lemma {:induction false} RecentIsSuffix(s: seq<int>, now: int)
    requires Sorted(s)
    ensures Recent(s, now) == Tail(s, |Recent(s, now)|)
    ensures Old(s, |s| - |Recent(s, now)|, now)
    ensures Recent(s, now) != [] ==> now - Recent(s, now)[0] < LOCKOUT
  {
    if s != [] {
      hide *;
      var n := |s| - 1;
      RecentSnoc(s, now);
      SortedPrefix(s);
      if now - s[n] < LOCKOUT {
        RecentIsSuffix(s[..n], now);
        var r := Recent(s[..n], now);
        TailSnoc(s, |r|);
        OldOfPrefix(s, n - |r|, now);
      } else {
        AllOld(s, now);
      }
    }
  }

  lemma TailOfTail(s: seq<int>, m: nat, k: nat)
    requires k <= m <= |s|
    ensures Tail(Tail(s, m), k) == Tail(s, k)
  {
  }

  lemma OldGrows(s: seq<int>, n: int, now: int, later: int)
    requires Old(s, n, now) && now <= later
    ensures Old(s, n, later)
  {
  }

  /** What a suffix drops was old, and so is what it stands behind. */
  lemma OldThroughTail(fs: seq<int>, m: nat, n: nat, now: int)
    requires n <= m <= |fs| && Old(fs, |fs| - m, now) && Old(Tail(fs, m), m - n, now)
    ensures Old(fs, |fs| - n, now)
  {
    forall i | 0 <= i < |fs| - n ensures now - fs[i] >= LOCKOUT {
      if i >= |fs| - m {
        assert fs[i] == Tail(fs, m)[i - (|fs| - m)];
      }
    }
  }

  lemma SortedTail(fs: seq<int>, m: nat)
    requires Sorted(fs) && m <= |fs|
    ensures Sorted(Tail(fs, m))
  {
  }

  /** Dropping again, at any time the clock has reached. */
  lemma CheckKeeps(k: Key, clock: int, now: int)
    requires Kept(k, clock)
    ensures var r := Recent(k.attempts, now); Kept(Key(r, k.failures, k.flight), if now > clock then now else clock)
  {
    var fs, m := k.failures, |k.attempts|;
    var later := if now > clock then now else clock;
    hide Recent, Sorted, Old, Tail;
    SortedTail(fs, m);
    RecentIsSuffix(k.attempts, now);
    var n := |Recent(k.attempts, now)|;
    TailOfTail(fs, m, n);
    OldGrows(fs, |fs| - m, clock, later);
    OldGrows(k.attempts, m - n, now, later);
    OldThroughTail(fs, m, n, later);
  }

  lemma SortedSnoc(fs: seq<int>, now: int)
    requires Sorted(fs) && (fs != [] ==> fs[|fs| - 1] <= now)
    ensures Sorted(fs + [now])
  {
    var gs := fs + [now];
    forall i, j | 0 <= i < j < |gs| ensures gs[i] <= gs[j] {
      assert j == |fs| && i < |fs| - 1 ==> fs[i] <= fs[|fs| - 1];
    }
  }

  lemma FailKeeps(k: Key, clock: int, now: int)
    requires Kept(k, clock) && clock <= now
    ensures Kept(Key(k.attempts + [now], k.failures + [now], k.flight), now)
  {
    var fs, gs, m := k.failures, k.failures + [now], |k.attempts|;
    hide Sorted, Old, Tail;
    SortedSnoc(fs, now);
    assert gs[..|gs| - 1] == fs;
    OldGrows(fs, |fs| - m, clock, now);
    OldOfPrefix(gs, |fs| - m, now);
    TailSnoc(gs, m);
  }

  // ---- failures in the window and requests in flight --------------------------

  /** The most failures a window can hold. */
  function Most(width: nat): nat {
    MAX_ATTEMPTS - 1 + width
  }

  /** Failures n places apart span the window. */
  predicate Apart(s: seq<int>, n: nat, i: int) {
    0 <= i < |s| - n ==> s[i + n] - s[i] >= LOCKOUT
  }

  /** The failures still in the window and the requests that may yet fail are
      together no more than a window can hold. */
  ghost predicate Bounded(k: Key, clock: int, width: nat) {
    && Kept(k, clock)
    && Old(k.failures, |k.failures| - (Most(width) - k.flight), clock)
    && (forall i :: Apart(k.failures, Most(width), i))
  }

  lemma KeptIgnoresFlight(k: Key, l: Key, clock: int, later: int)
    requires Kept(k, clock) && clock <= later && l == k.(flight := l.flight)
    ensures Kept(l, later)
  {
  }

  lemma BoundedLater(k: Key, clock: int, later: int, width: nat)
    requires Bounded(k, clock, width) && clock <= later
    ensures Bounded(k, later, width)
  {
    KeptIgnoresFlight(k, k, clock, later);
    hide Kept;
    OldGrows(k.failures, |k.failures| - (Most(width) - k.flight), clock, later);
  }

  /** A check that passes sees at most four failures in the window. */
  lemma CheckBounds(k: Key, clock: int, now: int, width: nat)
    requires Bounded(k, clock, width) && now <= clock && Next(k, Check(now)).flight <= width
    ensures Bounded(Next(k, Check(now)), clock, width)
  {
    CheckKeeps(k, clock, now);
    var r := Recent(k.attempts, now);
    hide Recent, Sorted, Tail, Apart;
    KeptIgnoresFlight(Key(r, k.failures, k.flight), Next(k, Check(now)), clock, clock);
  }

  lemma FailBounds(k: Key, now: int, width: nat)
    requires Bounded(k, now, width) && 0 < k.flight <= width
    ensures Bounded(Next(k, Fail(now)), now, width)
  {
    var k', fs := Next(k, Fail(now)), k.failures;
    FailKeeps(k, now, now);
    hide Recent;
    KeptIgnoresFlight(Key(k.attempts + [now], fs + [now], k.flight), k', now, now);
    hide Kept;
    forall i ensures Apart(k'.failures, Most(width), i) {
      assert Apart(fs, Most(width), i);
    }
  }

  lemma SucceedBounds(k: Key, clock: int, width: nat)
    requires Bounded(k, clock, width) && k.flight <= width
    ensures Bounded(Next(k, Succeed), clock, width)
  {
  }

  lemma FailWithoutFlight(k: Key, now: int)
    requires k.flight == 0
    ensures Next(k, Fail(now)) == k
  {
  }

  lemma {:induction false} RunIsBounded(run: seq<Step>, clock: int, width: nat)
    requires Timely(run) && Width(run, width)
    requires forall i :: 0 <= i < |run| ==> NotAfter(run[i], clock)
    ensures Bounded(Run(FRESH, run), clock, width)
  {
    if run != [] {
      var n := |run| - 1;
      var before, s := run[..n], run[n];
      var k := Run(FRESH, before);
      assert k.flight <= width;
      hide Bounded, Next;
      match s
      case Check(now) =>
        RunIsBounded(before, clock, width);
        CheckBounds(k, clock, now, width);
      case Fail(now) =>
        RunIsBounded(before, now, width);
        if k.flight > 0 {
          FailBounds(k, now, width);
        } else {
          FailWithoutFlight(k, now);
        }
        BoundedLater(Next(k, s), now, clock, width);
      case Succeed =>
        RunIsBounded(before, clock, width);
        SucceedBounds(k, clock, width);
    }
  }

  lemma {:induction false} LatestClock(run: seq<Step>) returns (clock: int)
    ensures forall i :: 0 <= i < |run| ==> NotAfter(run[i], clock)
  {
    clock := 0;
    if run != [] {
      var s := run[|run| - 1];
      clock := LatestClock(run[..|run| - 1]);
      clock := if s.Succeed? || s.now <= clock then clock else s.now;
    }
  }

  /** However requests overlap, as long as no more than `width` of them are
      between check and outcome: of the failures since the last success any
      5 + width in a row span the lockout window. */
  lemma FailuresInAWindow(run: seq<Step>, width: nat)
    requires Timely(run) && Width(run, width)
    ensures forall i :: Apart(Run(FRESH, run).failures, Most(width), i)
  {
    var clock := LatestClock(run);
    RunIsBounded(run, clock, width);
  }

  /** Entries n places apart are at least so many seconds apart. */
  predicate Spans(s: seq<int>, n: nat, seconds: int, i: int) {
    0 <= i < |s| - n ==> s[i + n] - s[i] >= seconds
  }

  /** One request of the table at a time: no more than five failed guesses in 900
      seconds. */
  lemma AtMostFiveInSequence(run: seq<Step>)
    requires Timely(run) && Width(run, 1)
    ensures forall i :: Spans(Run(FRESH, run).failures, 5, 900, i)
  {
    FailuresInAWindow(run, 1);
    forall i ensures Spans(Run(FRESH, run).failures, 5, 900, i) {
      assert Apart(Run(FRESH, run).failures, Most(1), i);
    }
  }

  /** A success wipes the slate: no failure counts any more, and the key is not locked
      at any time before another five. */
  lemma SuccessClears(run: seq<Step>, more: seq<Step>, now: int)
    requires Run(FRESH, run).flight > 0
    requires |Failed(more)| < 5
    ensures Run(FRESH, run + [Succeed]).failures == []
    ensures !Locked(Run(FRESH, run + [Succeed] + more), now)
  {
    Append(run, Succeed);
    AttemptsGrow(run + [Succeed], more);
    hide Run;
  }

  /** The failures among the steps. */
  function Failed(steps: seq<Step>): seq<Step> {
    if steps == [] then []
    else Failed(steps[..|steps| - 1]) + (if steps[|steps| - 1].Fail? then [steps[|steps| - 1]] else [])
  }

  lemma {:induction false} AttemptsGrow(run: seq<Step>, more: seq<Step>)
    ensures |Run(FRESH, run + more).attempts| <= |Run(FRESH, run).attempts| + |Failed(more)|
  {
    if more == [] {
      assert run + [] == run;
    } else {
      var n := |more| - 1;
      AttemptsGrow(run, more[..n]);
      Append(run + more[..n], more[n]);
      assert run + more[..n] + [more[n]] == run + more;
      hide Run, Recent;
    }
  }

  // ---- the bound is reached ---------------------------------------------------

  function Repeat(s: Step, n: nat): (r: seq<Step>)
    ensures |r| == n && forall i :: 0 <= i < n ==> r[i] == s
  {
    if n == 0 then [] else Repeat(s, n - 1) + [s]
  }

  function Zeros(n: nat): (r: seq<int>)
    ensures |r| == n && forall i :: 0 <= i < n ==> r[i] == 0
  {
    if n == 0 then [] else Zeros(n - 1) + [0]
  }

  /** n requests at one moment, each failing before the next is checked. */
  function InTurn(n: nat): (r: seq<Step>)
    ensures forall s :: s in r ==> s == Check(0) || s == Fail(0)
  {
    if n == 0 then [] else InTurn(n - 1) + [Check(0), Fail(0)]
  }

  /** Four requests in turn, then `width` together: all checks before any outcome. */
  function Burst(width: nat): (r: seq<Step>)
    ensures forall s :: s in r ==> s == Check(0) || s == Fail(0)
  {
    InTurn(4) + Repeat(Check(0), width) + Repeat(Fail(0), width)
  }

  lemma {:induction false} ZerosAreRecent(n: nat)
    ensures Recent(Zeros(n), 0) == Zeros(n)
  {
    if n > 0 {
      ZerosAreRecent(n - 1);
      assert Zeros(n)[..n - 1] == Zeros(n - 1);
    }
  }

  lemma Append(run: seq<Step>, s: Step)
    ensures Run(FRESH, run + [s]) == Next(Run(FRESH, run), s)
    ensures forall width: nat :: Width(run + [s], width) <==> Width(run, width) && Run(FRESH, run + [s]).flight <= width
  {
    assert (run + [s])[..|run + [s]| - 1] == run;
  }

  /** After the run m failures stand and f requests are in flight. */
  predicate Stands(run: seq<Step>, m: nat, f: nat, width: nat) {
    Width(run, width) && Run(FRESH, run) == Key(Zeros(m), Zeros(m), f)
  }

  lemma CheckPasses(run: seq<Step>, m: nat, f: nat, width: nat)
    requires m < MAX_ATTEMPTS && Stands(run, m, f, width) && f < width
    ensures Stands(run + [Check(0)], m, f + 1, width)
  {
    ZerosAreRecent(m);
    Append(run, Check(0));
  }

  lemma FailCounts(run: seq<Step>, m: nat, f: nat, width: nat)
    requires Stands(run, m, f, width) && f > 0
    ensures Stands(run + [Fail(0)], m + 1, f - 1, width)
  {
    Append(run, Fail(0));
    assert run != [] ==> f <= width;
  }

  lemma {:induction false} InTurnCounts(n: nat, width: nat)
    requires n < MAX_ATTEMPTS && width > 0
    ensures Stands(InTurn(n), n, 0, width)
  {
    if n > 0 {
      hide Stands;
      var run := InTurn(n - 1);
      InTurnCounts(n - 1, width);
      CheckPasses(run, n - 1, 0, width);
      FailCounts(run + [Check(0)], n - 1, 1, width);
      assert run + [Check(0)] + [Fail(0)] == InTurn(n);
    }
  }

  lemma RepeatOnce(run: seq<Step>, s: Step, n: nat)
    requires n > 0
    ensures run + Repeat(s, n - 1) + [s] == run + Repeat(s, n)
  {
  }

  lemma {:induction false} ChecksPass(run: seq<Step>, n: nat, m: nat, width: nat)
    requires m < MAX_ATTEMPTS && Stands(run, m, 0, width) && n <= width
    ensures Stands(run + Repeat(Check(0), n), m, n, width)
  {
    hide Stands;
    if n == 0 {
      assert run + [] == run;
    } else {
      ChecksPass(run, n - 1, m, width);
      CheckPasses(run + Repeat(Check(0), n - 1), m, n - 1, width);
      RepeatOnce(run, Check(0), n);
    }
  }

  lemma {:induction false} FailsCount(run: seq<Step>, n: nat, m: nat, f: nat, width: nat)
    requires Stands(run, m, f, width) && n <= f
    ensures Stands(run + Repeat(Fail(0), n), m + n, f - n, width)
  {
    hide Stands;
    if n == 0 {
      assert run + [] == run;
    } else {
      FailsCount(run, n - 1, m, f, width);
      FailCounts(run + Repeat(Fail(0), n - 1), m + n - 1, f - n + 1, width);
      RepeatOnce(run, Fail(0), n);
    }
  }

  lemma {:induction false} BurstStands(width: nat)
    requires width > 0
    ensures Stands(Burst(width), 4 + width, 0, width)
  {
    hide Stands, Repeat, InTurn;
    InTurnCounts(4, width);
    ChecksPass(InTurn(4), width, 4, width);
    FailsCount(InTurn(4) + Repeat(Check(0), width), width, 4, width, width);
  }

  /** 4 + width failed guesses at one moment do get through one table: with two
      threads a worker, six. */
  lemma BoundIsReached(width: nat)
    requires width > 0
    ensures Timely(Burst(width)) && Width(Burst(width), width)
    ensures Run(FRESH, Burst(width)).failures == Zeros(Most(width))
  {
    BurstStands(width);
    hide Burst, Run, Width;
    forall i | 0 <= i < |Burst(width)| ensures NotAfter(Burst(width)[i], 0) {
      assert Burst(width)[i] in Burst(width);
    }
  }

  // ---- several worker processes ------------------------------------------------

  /** How many of the failures fall into the LOCKOUT seconds from a time on. */
  function Within(fs: seq<int>, from: int): nat {
    if fs == [] then 0
    else Within(fs[..|fs| - 1], from) + (if from <= fs[|fs| - 1] < from + LOCKOUT then 1 else 0)
  }

  lemma {:induction false} WithinSplits(fs: seq<int>, m: nat, from: int)
    requires m <= |fs|
    ensures Within(fs, from) <= Within(fs[..m], from) + (|fs| - m)
  {
    if m < |fs| {
      var before := fs[..|fs| - 1];
      WithinSplits(before, m, from);
      assert before[..m] == fs[..m];
    } else {
      assert fs[..m] == fs;
    }
  }

  lemma {:induction false} NoneWithin(fs: seq<int>, from: int)
    requires forall i :: 0 <= i < |fs| ==> fs[i] < from
    ensures Within(fs, from) == 0
  {
    if fs != [] {
      NoneWithin(fs[..|fs| - 1], from);
    }
  }

  lemma {:induction false} WithinBound(fs: seq<int>, n: nat, from: int)
    requires Sorted(fs) && forall i :: Apart(fs, n, i)
    ensures Within(fs, from) <= n
  {
    if fs != [] {
      var last := |fs| - 1;
      if fs[last] >= from + LOCKOUT {
        forall i ensures Apart(fs[..last], n, i) {
          assert Apart(fs, n, i);
        }
        WithinBound(fs[..last], n, from);
      } else {
        var m := if |fs| > n then |fs| - n else 0;
        assert m > 0 ==> Apart(fs, n, m - 1);
        NoneWithin(fs[..m], from);
        WithinSplits(fs, m, from);
      }
    }
  }

  /** One run of steps for each worker's table. */
  type Workers = seq<seq<Step>>

  /** The failed guesses all workers let through in the window, of those since each
      table's last success. */
  function AllWithin(runs: Workers, from: int): nat {
    if runs == [] then 0
    else AllWithin(runs[..|runs| - 1], from) + Within(Run(FRESH, runs[|runs| - 1]).failures, from)
  }

  function Sum(widths: seq<nat>): nat {
    if widths == [] then 0 else Sum(widths[..|widths| - 1]) + widths[|widths| - 1]
  }

  predicate FitsWidth(run: seq<Step>, width: nat) {
    Timely(run) && Width(run, width)
  }

  predicate EachWithin(runs: Workers, widths: seq<nat>) {
    |runs| == |widths| && forall w :: 0 <= w < |runs| ==> FitsWidth(runs[w], widths[w])
  }

  /** With w workers and at most k requests at once between lock check and outcome,
      added up over the workers, no window holds more than 4 w + k failed guesses. */
  lemma {:induction false} FailuresOverWorkers(runs: Workers, widths: seq<nat>, from: int)
    requires EachWithin(runs, widths)
    ensures AllWithin(runs, from) <= (MAX_ATTEMPTS - 1) * |runs| + Sum(widths)
  {
    if runs != [] {
      var w := |runs| - 1;
      FailuresOverWorkers(runs[..w], widths[..w], from);
      var run, width := runs[w], widths[w];
      FailuresInAWindow(run, width);
      var clock := LatestClock(run);
      RunIsBounded(run, clock, width);
      var fs := Run(FRESH, run).failures;
      assert Sorted(fs);
      hide Run, Sorted, Apart, FitsWidth, Bounded;
      WithinBound(fs, Most(width), from);
    }
  }

  function Bursts(widths: seq<nat>): (runs: Workers)
    ensures |runs| == |widths| && forall w :: 0 <= w < |widths| ==> runs[w] == Burst(widths[w])
  {
    if widths == [] then [] else Bursts(widths[..|widths| - 1]) + [Burst(widths[|widths| - 1])]
  }

  lemma {:induction false} ZerosWithin(n: nat)
    ensures Within(Zeros(n), 0) == n
  {
    if n > 0 {
      ZerosWithin(n - 1);
      assert Zeros(n)[..n - 1] == Zeros(n - 1);
    }
  }

  /** And that many do get through at one moment: with four workers of two threads
      each, twenty-four. */
  lemma {:induction false} OverWorkersIsReached(widths: seq<nat>)
    requires forall w :: 0 <= w < |widths| ==> widths[w] > 0
    ensures EachWithin(Bursts(widths), widths)
    ensures AllWithin(Bursts(widths), 0) == (MAX_ATTEMPTS - 1) * |widths| + Sum(widths)
  {
    BurstsAreWithin(widths);
    if widths != [] {
      var n := |widths| - 1;
      OverWorkersIsReached(widths[..n]);
      assert Bursts(widths)[..n] == Bursts(widths[..n]);
      BoundIsReached(widths[n]);
      assert Bursts(widths)[n] == Burst(widths[n]);
      hide Bursts, Burst, FitsWidth, Run, EachWithin;
      ZerosWithin(Most(widths[n]));
    }
  }

  lemma BurstFits(width: nat)
    requires width > 0
    ensures FitsWidth(Burst(width), width)
  {
    BoundIsReached(width);
  }

  lemma BurstsAreWithin(widths: seq<nat>)
    requires forall w :: 0 <= w < |widths| ==> widths[w] > 0
    ensures EachWithin(Bursts(widths), widths)
  {
    hide FitsWidth, Burst;
    forall w | 0 <= w < |widths| ensures FitsWidth(Bursts(widths)[w], widths[w]) {
      BurstFits(widths[w]);
    }
  }

  // ---- what locked means -------------------------------------------------------

  /** A key is locked iff five of its failures since the last success lie within
      the window: dropping old attempts loses nothing. */
  lemma LockedIff(k: Key, clock: int, now: int)
    requires Kept(k, clock) && clock <= now
    ensures Locked(k, now)
       <==> |k.failures| >= 5 && now - k.failures[|k.failures| - 5] < 900
  {
    var fs, r := k.failures, Recent(k.attempts, now);
    hide Recent, Sorted, Old, Tail;
    SortedTail(fs, |k.attempts|);
    RecentIsSuffix(k.attempts, now);
    CheckKeeps(k, clock, now);
    assert Kept(Key(r, fs, k.flight), now);
    assert Locked(k, now) <==> |r| >= MAX_ATTEMPTS;
    assert |r| <= |fs| && r == Tail(fs, |r|) && Sorted(fs) && Old(fs, |fs| - |r|, now);
    hide *;
    NewestInWindow(fs, r, now);
  }

  lemma NewestInWindow(fs: seq<int>, r: seq<int>, now: int)
    requires |r| <= |fs| && r == Tail(fs, |r|) && Sorted(fs)
    requires Old(fs, |fs| - |r|, now) && (r != [] ==> now - r[0] < LOCKOUT)
    ensures |r| >= MAX_ATTEMPTS <==> |fs| >= MAX_ATTEMPTS && now - fs[|fs| - MAX_ATTEMPTS] < LOCKOUT
  {
    if |r| >= MAX_ATTEMPTS {
      assert r[0] == fs[|fs| - |r|];
    }
  }
}
