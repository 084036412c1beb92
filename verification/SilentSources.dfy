/** The silent-source monitor (silent_sources.py, the check job of app.py):
    which threshold applies to a source, and the incidents that open and close as
    sources fall silent and return. */
module SilentSources {
  import opened Wrappers
  import opened Text
  import Glob
  import opened Fnmatch

  datatype Threshold = Threshold(id: nat, pattern: string, kind: string, minutes: int, severity: string, enabled: bool, notify: bool)

  const DEFAULT_MINUTES := 15
  const NEVER_SEEN := 1000000000

  // ---- which threshold applies -----------------------------------------------

  predicate PatternMatches(pattern: string, source: string) {
    var p, s := Lower(pattern), Lower(source);
    if p == "*" then true
    else if '*' !in p then p == s
    else Glob.Matches(FnTokens(p), s)
  }

  predicate Applies(t: Threshold, source: string, kind: string) {
    t.enabled && (t.kind == "any" || t.kind == kind) && PatternMatches(t.pattern, source)
  }

  /** Exact names before patterns before the lone star. */
  function Score(t: Threshold): nat {
    if t.pattern == "*" then 0 else if '*' in t.pattern then 1 else 2
  }

  /** What record_observation needs of the threshold; resolve_threshold also says
      whether to notify, which the check job never asks. */
  datatype Limit = Limit(minutes: int, severity: string, notify: bool)

  function LimitOf(t: Threshold): Limit {
    Limit(t.minutes, t.severity, t.notify)
  }

  /** Index of the applicable threshold of greatest score, the newest on ties; the
      count if none applies. Thresholds are in id order. */
  ghost predicate IsBest(ts: seq<Threshold>, source: string, kind: string, i: nat) {
    if i < |ts| then
      && Applies(ts[i], source, kind)
      && (forall j :: 0 <= j < |ts| && Applies(ts[j], source, kind) ==>
            Score(ts[j]) < Score(ts[i]) || (Score(ts[j]) == Score(ts[i]) && j <= i))
    else
      i == |ts| && forall j :: 0 <= j < |ts| ==> !Applies(ts[j], source, kind)
  }

  function Best(ts: seq<Threshold>, source: string, kind: string): (i: nat)
    ensures IsBest(ts, source, kind, i)
  {
    hide Applies, Score;
    if ts == [] then 0
    else
      var n := |ts| - 1;
      var i := Best(ts[..n], source, kind);
      if Applies(ts[n], source, kind) && (i == n || Score(ts[n]) >= Score(ts[i])) then n
      else if i == n then n + 1
      else i
  }

  function LimitFor(ts: seq<Threshold>, source: string, kind: string): Limit {
    var i := Best(ts, source, kind);
    if i < |ts| then LimitOf(ts[i]) else Limit(DEFAULT_MINUTES, "medium", true)
  }

  /** A threshold sets the limit if it is enabled, for every kind of source or this one,
      and its pattern matches; otherwise there are fifteen minutes. */
  lemma OneThresholdIff(t: Threshold, source: string, kind: string)
    ensures LimitFor([t], source, kind)
         == if t.enabled && t.kind in {"any", kind} && PatternMatches(t.pattern, source)
            then Limit(t.minutes, t.severity, t.notify) else Limit(15, "medium", true)
  {
    hide PatternMatches, Score;
    assert [t][..0] == [];
  }

  lemma BestIsUnique(ts: seq<Threshold>, source: string, kind: string, i: nat, j: nat)
    requires IsBest(ts, source, kind, i) && IsBest(ts, source, kind, j)
    ensures i == j
  {
    hide Applies, Score;
  }

  /** The threshold that applies names the source exactly if any applicable one has no
      star, is a pattern rather than the lone star if any is, and is the newest of its
      kind. */
  lemma MostSpecificWins(ts: seq<Threshold>, source: string, kind: string, j: nat)
    requires j < |ts| && Applies(ts[j], source, kind)
    ensures var i := Best(ts, source, kind);
      && i < |ts|
      && ('*' !in ts[j].pattern ==> '*' !in ts[i].pattern)
      && (ts[j].pattern != "*" ==> ts[i].pattern != "*")
      && (j > i ==> ('*' in ts[j].pattern && '*' !in ts[i].pattern) || (ts[j].pattern == "*" && ts[i].pattern != "*"))
  {
    var i := Best(ts, source, kind);
    assert IsBest(ts, source, kind, i);
    hide Best, Applies;
    assert "*"[0] == '*';
  }

  /** A pattern without a star is the whole name, in any case; the lone star is any
      name. */
  lemma PlainPatternIsTheName(pattern: string, source: string)
    ensures '*' !in pattern ==> (PatternMatches(pattern, source) <==> Lower(pattern) == Lower(source))
    ensures PatternMatches("*", source)
  {
    BeforeOfLower(pattern, '*');
    assert Lower("*") == "*";
    hide Lower, Glob.Matches, FnTokens;
  }

  /** The source's loop: newest threshold first, replaced only by a strictly
      better score. */
  method ResolveThreshold(ts: seq<Threshold>, source: string, kind: string) returns (limit: Limit)
    ensures limit == LimitFor(ts, source, kind)
  {
    hide Applies, Score;
    var matched: nat, matchedScore: int := |ts|, -1;
    var k := |ts|;
    while k > 0
      invariant 0 <= k <= |ts|
      invariant matched < |ts| ==> k <= matched && Applies(ts[matched], source, kind) && matchedScore == Score(ts[matched])
      invariant matched >= |ts| ==> matched == |ts| && matchedScore == -1
      invariant forall j :: k <= j < |ts| && Applies(ts[j], source, kind) ==>
                  matched < |ts| && (Score(ts[j]) < matchedScore || (Score(ts[j]) == matchedScore && j <= matched))
    {
      k := k - 1;
      if !Applies(ts[k], source, kind) {
        continue;
      }
      if Score(ts[k]) > matchedScore {
        matched, matchedScore := k, Score(ts[k]);
      }
    }
    BestIsUnique(ts, source, kind, matched, Best(ts, source, kind));
    if matched == |ts| {
      return Limit(DEFAULT_MINUTES, "medium", true);
    }
    return LimitOf(ts[matched]);
  }

  // ---- incidents -------------------------------------------------------------

  datatype Incident = Incident(
    id: nat,
    source: string,
    kind: string,
    lastSeen: int,
    gap: int,
    thresholdMin: int,
    severity: string,
    firstSilent: int,
    resolvedAt: Option<int>,
    notified: bool)

  /** One observation of one source: when it was last heard, the clock, and the
      thresholds in force. */
  datatype Observation = Observation(source: string, kind: string, lastSeen: int, now: int, thresholds: seq<Threshold>)

  function Gap(o: Observation): int {
    if o.lastSeen > 0 then (o.now - o.lastSeen) / 60000 else NEVER_SEEN
  }

  predicate Silent(o: Observation) {
    Gap(o) >= LimitFor(o.thresholds, o.source, o.kind).minutes
  }

  /** A source once heard is silent iff at least the limit's minutes have passed since;
      one never heard is, for any limit up to a thousand million minutes. */
  lemma SilentIff(o: Observation)
    ensures var minutes := LimitFor(o.thresholds, o.source, o.kind).minutes;
      Silent(o) <==> if o.lastSeen > 0 then o.now - o.lastSeen >= 60000 * minutes else minutes <= 1000000000
  {
    hide LimitFor;
  }

  datatype Table = Table(rows: seq<Incident>, nextId: nat)

  predicate OpenFor(r: Incident, source: string) {
    r.resolvedAt.None? && r.source == source
  }

  /** Index of the newest open row of the source; the count if there is none. */
  function OpenIndex(rows: seq<Incident>, source: string): (i: nat)
    ensures i <= |rows|
    ensures i < |rows| ==> OpenFor(rows[i], source) && forall k :: i < k < |rows| ==> !OpenFor(rows[k], source)
    ensures i == |rows| ==> forall k :: 0 <= k < |rows| ==> !OpenFor(rows[k], source)
  {
    if rows == [] then 0
    else if OpenFor(rows[|rows| - 1], source) then |rows| - 1
    else
      var i := OpenIndex(rows[..|rows| - 1], source);
      if i == |rows| - 1 then |rows| else i
  }

  /** The reading half of record_observation: which row is open. */
  function Found(rows: seq<Incident>, source: string): Option<nat> {
    var i := OpenIndex(rows, source);
    if i < |rows| then Some(i) else None
  }

  function NewRow(o: Observation, id: nat): Incident {
    var limit := LimitFor(o.thresholds, o.source, o.kind);
    Incident(id, o.source, o.kind, o.lastSeen, Gap(o), limit.minutes, limit.severity, o.now, None, false)
  }

  /** The writing half, by the id of the row the reading half found; rows are
      never removed. */
  function Commit(t: Table, o: Observation, found: Option<nat>): Table {
    match found
    case Some(i) =>
      if i >= |t.rows| then t
      else if Silent(o) then t.(rows := t.rows[i := t.rows[i].(gap := Gap(o), lastSeen := o.lastSeen)])
      else t.(rows := t.rows[i := t.rows[i].(resolvedAt := Some(o.now))])
    case None =>
      if Silent(o) then Table(t.rows + [NewRow(o, t.nextId)], t.nextId + 1) else t
  }

  /** record_observation when nothing runs between its halves. */
  function Observe(t: Table, o: Observation): Table {
    Commit(t, o, Found(t.rows, o.source))
  }

  function MarkNotified(rows: seq<Incident>, id: nat): (s: seq<Incident>)
    ensures |s| == |rows|
    ensures forall i :: 0 <= i < |rows| ==> s[i] == if rows[i].id == id then rows[i].(notified := true) else rows[i]
  {
    if rows == [] then []
    else [if rows[0].id == id then rows[0].(notified := true) else rows[0]] + MarkNotified(rows[1..], id)
  }

  /** The monitor with its clock and the ids it has announced, in order. */
  datatype Monitor = Monitor(table: Table, clock: int, sent: seq<nat>)

  /** One turn of the check job's loop: observe, then announce and mark an open
      incident that is not marked yet. */
  function Check(m: Monitor, o: Observation): Monitor {
    var t := Observe(m.table, o);
    var i := OpenIndex(t.rows, o.source);
    if i < |t.rows| && !t.rows[i].notified then
      Monitor(t.(rows := MarkNotified(t.rows, t.rows[i].id)), o.now, m.sent + [t.rows[i].id])
    else
      Monitor(t, o.now, m.sent)
  }

  function Run(m: Monitor, obs: seq<Observation>): Monitor {
    if obs == [] then m else Check(Run(m, obs[..|obs| - 1]), obs[|obs| - 1])
  }

  /** The clock never goes back. */
  predicate Monotone(start: int, obs: seq<Observation>) {
    if obs == [] then true
    else
      var n := |obs| - 1;
      Monotone(start, obs[..n]) && (if n == 0 then start else obs[n - 1].now) <= obs[n].now
  }

  // ---- what every run keeps --------------------------------------------------

  /** Two rows of one source, the older first: the older is over before the newer
      begins. */
  predicate Separate(r: Incident, s: Incident) {
    r.source == s.source ==> r.resolvedAt.Some? && r.resolvedAt.value <= s.firstSilent
  }

  predicate Timely(r: Incident, clock: int) {
    r.firstSilent <= clock && (r.resolvedAt.Some? ==> r.firstSilent <= r.resolvedAt.value <= clock)
  }

  ghost predicate Ordered(rows: seq<Incident>, clock: int) {
    && (forall i, j :: 0 <= i < j < |rows| ==> Separate(rows[i], rows[j]))
    && (forall i :: 0 <= i < |rows| ==> Timely(rows[i], clock))
  }

  /** Ids number the rows, and a row is marked iff it was announced, once. */
  ghost predicate Announced(t: Table, sent: seq<nat>) {
    && t.nextId == |t.rows| + 1
    && (forall i :: 0 <= i < |t.rows| ==> t.rows[i].id == i + 1)
    && (forall i :: 0 <= i < |t.rows| ==> (t.rows[i].notified <==> t.rows[i].id in sent))
    && (forall i, j :: 0 <= i < j < |sent| ==> sent[i] != sent[j])
    && (forall i :: 0 <= i < |sent| ==> 1 <= sent[i] <= |t.rows|)
  }

  const START := Monitor(Table([], 1), 0, [])

  lemma ObserveKeepsOrder(t: Table, clock: int, o: Observation)
    requires Ordered(t.rows, clock) && clock <= o.now
    ensures Ordered(Observe(t, o).rows, o.now)
  {
    hide Silent, Gap, LimitFor;
    var i := OpenIndex(t.rows, o.source);
    var rows := Observe(t, o).rows;
    hide OpenIndex;
    forall a, b | 0 <= a < b < |rows| ensures Separate(rows[a], rows[b]) {
      assert b < |t.rows| ==> Separate(t.rows[a], t.rows[b]);
      if b == |t.rows| {
        assert Timely(t.rows[a], clock);
        assert !OpenFor(t.rows[a], o.source);
      }
    }
    forall a | 0 <= a < |rows| ensures Timely(rows[a], o.now) {
      assert a < |t.rows| ==> Timely(t.rows[a], clock);
    }
  }

  /** After an observation its source has an open incident iff it is silent past
      its limit; no other source's rows change. */
  lemma OpenIffSilent(t: Table, clock: int, o: Observation)
    requires Ordered(t.rows, clock)
    ensures OpenIndex(Observe(t, o).rows, o.source) < |Observe(t, o).rows| <==> Silent(o)
    ensures |t.rows| <= |Observe(t, o).rows|
    ensures forall i :: 0 <= i < |t.rows| && t.rows[i].source != o.source ==> Observe(t, o).rows[i] == t.rows[i]
  {
    hide Silent, Gap, LimitFor;
    var i := OpenIndex(t.rows, o.source);
    var rows := Observe(t, o).rows;
    hide OpenIndex;
    if Silent(o) {
      assert OpenFor(rows[i], o.source);
    } else if i < |t.rows| {
      forall k | 0 <= k < |rows| ensures !OpenFor(rows[k], o.source) {
        if k < i {
          assert Separate(t.rows[k], t.rows[i]);
        }
      }
    }
  }

  /** What an observation writes: a silent source's open incident holds when it was
      last heard and for how many whole minutes it has been silent, a new one the limit
      in force, unmarked, from now on; a healthy source's incident is over now. */
  lemma ObserveWrites(t: Table, o: Observation)
    ensures var i, rows := OpenIndex(t.rows, o.source), Observe(t, o).rows;
      && (Silent(o) ==>
            && i < |rows| && OpenFor(rows[i], o.source) && rows[i].lastSeen == o.lastSeen
            && (o.lastSeen > 0 ==> 60000 * rows[i].gap <= o.now - o.lastSeen < 60000 * (rows[i].gap + 1)))
      && (Silent(o) && i == |t.rows| ==>
            var limit := LimitFor(o.thresholds, o.source, o.kind);
            && rows[i].kind == o.kind && rows[i].firstSilent == o.now && !rows[i].notified
            && rows[i].thresholdMin == limit.minutes && rows[i].severity == limit.severity && rows[i].id == t.nextId)
      && (!Silent(o) && i < |t.rows| ==> rows[i] == t.rows[i].(resolvedAt := Some(o.now)))
      && (forall k :: 0 <= k < |t.rows| && k != i ==> rows[k] == t.rows[k])
  {
    hide LimitFor, OpenIndex;
  }

  lemma ObserveKeepsAnnounced(t: Table, o: Observation, sent: seq<nat>)
    requires Announced(t, sent)
    ensures Announced(Observe(t, o), sent)
  {
    hide Silent, Gap, LimitFor;
    var i := OpenIndex(t.rows, o.source);
    hide OpenIndex;
    assert t.nextId !in sent;
  }

  lemma MarkKeepsOrder(rows: seq<Incident>, clock: int, id: nat)
    requires Ordered(rows, clock)
    ensures Ordered(MarkNotified(rows, id), clock)
  {
    hide MarkNotified;
    var s := MarkNotified(rows, id);
    forall a, b | 0 <= a < b < |s| ensures Separate(s[a], s[b]) {
      assert Separate(rows[a], rows[b]);
    }
  }

  lemma MarkKeepsAnnounced(t: Table, sent: seq<nat>, i: nat)
    requires Announced(t, sent) && i < |t.rows| && !t.rows[i].notified
    ensures Announced(t.(rows := MarkNotified(t.rows, t.rows[i].id)), sent + [t.rows[i].id])
  {
    hide MarkNotified;
    assert t.rows[i].id !in sent;
  }

  lemma CheckKeeps(m: Monitor, o: Observation)
    requires Ordered(m.table.rows, m.clock) && Announced(m.table, m.sent) && m.clock <= o.now
    ensures Ordered(Check(m, o).table.rows, Check(m, o).clock) && Announced(Check(m, o).table, Check(m, o).sent)
    ensures Check(m, o).clock == o.now
  {
    var t := Observe(m.table, o);
    ObserveKeepsOrder(m.table, m.clock, o);
    ObserveKeepsAnnounced(m.table, o, m.sent);
    var i := OpenIndex(t.rows, o.source);
    if i < |t.rows| && !t.rows[i].notified {
      hide Ordered, Announced, Observe;
      MarkKeepsOrder(t.rows, o.now, t.rows[i].id);
      MarkKeepsAnnounced(t, m.sent, i);
    }
  }

  /** In every sequential run with a clock that never goes back: each source has
      at most one open incident, a source's incidents lie one after another, no
      incident is announced twice, and the marked ones are those announced. */
  lemma {:induction false} RunKeeps(obs: seq<Observation>)
    requires Monotone(0, obs)
    ensures Ordered(Run(START, obs).table.rows, Run(START, obs).clock)
    ensures Announced(Run(START, obs).table, Run(START, obs).sent)
    ensures Run(START, obs).clock == if obs == [] then 0 else obs[|obs| - 1].now
  {
    if obs == [] {
      hide Check;
    } else {
      hide *;
      var n := |obs| - 1;
      RunUnfolds(obs);
      RunKeeps(obs[..n]);
      CheckKeeps(Run(START, obs[..n]), obs[n]);
    }
  }

  lemma RunUnfolds(obs: seq<Observation>)
    requires Monotone(0, obs) && obs != []
    ensures var n := |obs| - 1;
      && Run(START, obs) == Check(Run(START, obs[..n]), obs[n]) && Monotone(0, obs[..n])
      && (if obs[..n] == [] then 0 else obs[..n][n - 1].now) <= obs[n].now
  {
    hide Check;
  }

  /** At the end of a run the last observed source is open iff silent, and then
      announced; everything ever opened for a source was announced. */
  lemma LastCheckDecides(obs: seq<Observation>)
    requires Monotone(0, obs) && obs != []
    ensures (exists r :: r in Run(START, obs).table.rows && OpenFor(r, obs[|obs| - 1].source)) <==> Silent(obs[|obs| - 1])
    ensures forall i :: 0 <= i < |Run(START, obs).table.rows| && OpenFor(Run(START, obs).table.rows[i], obs[|obs| - 1].source) ==>
              Run(START, obs).table.rows[i].id in Run(START, obs).sent
  {
    var n := |obs| - 1;
    var m, o := Run(START, obs[..n]), obs[n];
    assert n > 0 ==> obs[..n][n - 1] == obs[n - 1];
    RunKeeps(obs[..n]);
    RunKeeps(obs);
    assert Run(START, obs) == Check(m, o);
    hide Run;
    CheckDecides(m, o);
  }

  lemma CheckDecides(m: Monitor, o: Observation)
    requires Ordered(m.table.rows, m.clock) && Announced(m.table, m.sent) && m.clock <= o.now
    requires Announced(Check(m, o).table, Check(m, o).sent)
    ensures (exists r :: r in Check(m, o).table.rows && OpenFor(r, o.source)) <==> Silent(o)
    ensures forall i :: 0 <= i < |Check(m, o).table.rows| && OpenFor(Check(m, o).table.rows[i], o.source) ==>
              Check(m, o).table.rows[i].id in Check(m, o).sent
  {
    OpenIffSilent(m.table, m.clock, o);
    ObserveKeepsOrder(m.table, m.clock, o);
    var t, m' := Observe(m.table, o), Check(m, o);
    hide Silent, Observe, Announced;
    var i := OpenIndex(t.rows, o.source);
    CheckMarksOpen(m, o);
    if i < |t.rows| {
      OnlyOneOpen(t.rows, o.now, o.source);
    }
    hide Check, Ordered, OpenIndex;
    assert i < |t.rows| ==> m'.table.rows[i] in m'.table.rows;
    assert Announced(m'.table, m'.sent);
    MarkedIsSent(m'.table, m'.sent);
  }

  lemma MarkedIsSent(t: Table, sent: seq<nat>)
    requires Announced(t, sent)
    ensures forall i :: 0 <= i < |t.rows| && t.rows[i].notified ==> t.rows[i].id in sent
  {
  }

  /** The rows open after the turn are those open after the observation, and the
      newest of them is marked. */
  lemma CheckMarksOpen(m: Monitor, o: Observation)
    ensures var t, m' := Observe(m.table, o), Check(m, o); var i := OpenIndex(t.rows, o.source);
      && |m'.table.rows| == |t.rows|
      && (forall k :: 0 <= k < |t.rows| ==> (OpenFor(m'.table.rows[k], o.source) <==> OpenFor(t.rows[k], o.source)))
      && (i < |t.rows| ==> m'.table.rows[i].notified)
  {
    hide Observe;
  }

  lemma OnlyOneOpen(rows: seq<Incident>, clock: int, source: string)
    requires Ordered(rows, clock) && OpenIndex(rows, source) < |rows|
    ensures forall k :: 0 <= k < |rows| ==> (OpenFor(rows[k], source) <==> k == OpenIndex(rows, source))
  {
    var i := OpenIndex(rows, source);
    hide OpenIndex;
    forall k | 0 <= k < |rows| ensures OpenFor(rows[k], source) <==> k == i {
      assert k < i ==> Separate(rows[k], rows[i]);
    }
  }

  class SilentMonitor {
    var rows: seq<Incident>
    var nextId: nat

    function Contents(): Table
      reads this
    {
      Table(rows, nextId)
    }

    constructor ()
      ensures Contents() == START.table
    {
      rows, nextId := [], 1;
    }

    method RecordObservation(o: Observation) returns (inc: Option<Incident>)
      modifies this
      ensures Contents() == Observe(old(Contents()), o)
      ensures inc.Some? <==> Silent(o)
      ensures inc.Some? ==> OpenIndex(rows, o.source) < |rows| && inc.value == rows[OpenIndex(rows, o.source)]
    {
      var gap := if o.lastSeen > 0 then (o.now - o.lastSeen) / 60000 else NEVER_SEEN;
      var limit := ResolveThreshold(o.thresholds, o.source, o.kind);
      var found := OpenIndex(rows, o.source);
      hide LimitFor, Score;
      if gap >= limit.minutes {
        if found < |rows| {
          rows := rows[found := rows[found].(gap := gap, lastSeen := o.lastSeen)];
          return Some(rows[found]);
        }
        rows := rows + [Incident(nextId, o.source, o.kind, o.lastSeen, gap, limit.minutes, limit.severity, o.now, None, false)];
        nextId := nextId + 1;
        return Some(rows[|rows| - 1]);
      }
      if found < |rows| {
        rows := rows[found := rows[found].(resolvedAt := Some(o.now))];
      }
      return None;
    }

    /** One turn of the job's loop; the id announced, if any. Asks the table, not
        the observation's outcome, what is open: the two agree. */
    method CheckSource(o: Observation, ghost clock: int, ghost sent: seq<nat>) returns (announced: seq<nat>)
      requires Ordered(rows, clock)
      modifies this
      ensures Check(Monitor(old(Contents()), clock, sent), o) == Monitor(Contents(), o.now, sent + announced)
    {
      hide Silent, LimitFor, Observe, Ordered;
      ghost var before := Contents();
      var inc := RecordObservation(o);
      OpenIffSilent(before, clock, o);
      announced := [];
      if inc.Some? && !inc.value.notified {
        announced := [inc.value.id];
        rows := MarkNotified(rows, inc.value.id);
      }
    }

    /** The scheduled job over one collection of sources: the ids announced. */
    method CheckJob(obs: seq<Observation>, ghost clock: int, ghost sent: seq<nat>) returns (announced: seq<nat>)
      requires Ordered(rows, clock) && Announced(Contents(), sent) && Monotone(clock, obs)
      modifies this
      ensures Contents() == Run(Monitor(old(Contents()), clock, sent), obs).table
      ensures sent + announced == Run(Monitor(old(Contents()), clock, sent), obs).sent
      ensures Announced(Contents(), sent + announced)
    {
      hide Check, Ordered, Announced;
      announced := [];
      ghost var start := Monitor(Contents(), clock, sent);
      ghost var now := clock;
      assert sent + announced == sent;
      for k := 0 to |obs|
        invariant Run(start, obs[..k]) == Monitor(Contents(), now, sent + announced)
        invariant Ordered(rows, now) && Announced(Contents(), sent + announced)
        invariant now == if k == 0 then clock else obs[k - 1].now
      {
        assert obs[..k + 1][..k] == obs[..k];
        MonotonePrefix(clock, obs, k + 1);
        CheckKeeps(Monitor(Contents(), now, sent + announced), obs[k]);
        var more := CheckSource(obs[k], now, sent + announced);
        assert sent + (announced + more) == sent + announced + more;
        announced := announced + more;
        now := obs[k].now;
      }
      assert obs[..|obs|] == obs;
    }

    static lemma {:induction false} MonotonePrefix(start: int, obs: seq<Observation>, k: nat)
      requires Monotone(start, obs) && k <= |obs|
      ensures Monotone(start, obs[..k])
      ensures k > 0 ==> (if k == 1 then start else obs[k - 2].now) <= obs[k - 1].now
    {
      if k < |obs| {
        MonotonePrefix(start, obs[..|obs| - 1], k);
        assert obs[..|obs| - 1][..k] == obs[..k];
      } else {
        assert obs[..k] == obs;
      }
    }
  }
}
