/** The correlation incident table (correlations.py): opening, refreshing,
    resolving, and the detector runs that feed it. Each section under the module
    lock is one step, as it is for the threads of one process; processes that share
    the table are in SharedIncidents. */
module Incidents {
  import opened Wrappers

  /** What a refresh overwrites besides the last-seen time. */
  datatype Details = Details(severity: string, evidence: string, domains: seq<string>, risk: int)

  datatype Incident = Incident(
    id: nat,
    detector: string,
    entity: string,
    firstSeen: int,
    lastSeen: int,
    details: Details,
    resolvedAt: Option<int>,
    notified: bool,
    caseId: Option<int>)

  datatype Observation = Observation(detector: string, entity: string, firstSeen: int, lastSeen: int, details: Details)

  /** Rows in id order; `nextId` is the autoincrement counter. */
  datatype Table = Table(rows: seq<Incident>, nextId: nat)

  datatype Outcome = Opened(row: Incident) | Refreshed | KeyClash

  datatype Action =
    | Record(o: Observation)
    | Resolve(id: nat, now: int)
    | MarkNotified(id: nat)
    | SetCase(id: nat, caseId: int)

  predicate OpenFor(r: Incident, detector: string, entity: string) {
    r.resolvedAt.None? && r.detector == detector && r.entity == entity
  }

  /** Index of the newest open row of the pair; the row count if there is none. */
  function NewestOpen(rows: seq<Incident>, detector: string, entity: string): (i: nat)
    ensures i <= |rows|
    ensures i < |rows| ==> OpenFor(rows[i], detector, entity) && forall k :: i < k < |rows| ==> !OpenFor(rows[k], detector, entity)
    ensures i == |rows| ==> forall k :: 0 <= k < |rows| ==> !OpenFor(rows[k], detector, entity)
  {
    if rows == [] then 0
    else
      var n := |rows| - 1;
      if OpenFor(rows[n], detector, entity) then n
      else
        var i := NewestOpen(rows[..n], detector, entity);
        if i == n then n + 1 else i
  }

  /** UNIQUE(detector, entity, first_seen_ms) would be violated. */
  predicate KeyTaken(rows: seq<Incident>, o: Observation) {
    exists k :: 0 <= k < |rows| &&
      rows[k].detector == o.detector && rows[k].entity == o.entity && rows[k].firstSeen == o.firstSeen
  }

  /** The open row the SELECT finds, if any. */
  function Lookup(rows: seq<Incident>, detector: string, entity: string): Option<nat> {
    var i := NewestOpen(rows, detector, entity);
    if i < |rows| then Some(i) else None
  }

  /** What the write comes to, given what the SELECT found. */
  function WriteOutcome(t: Table, found: Option<nat>, o: Observation): Outcome {
    if found.Some? then Refreshed
    else if KeyTaken(t.rows, o) then KeyClash
    else Opened(Incident(t.nextId, o.detector, o.entity, o.firstSeen, o.lastSeen, o.details, None, false, None))
  }

  function DoWrite(t: Table, found: Option<nat>, o: Observation): Table {
    match WriteOutcome(t, found, o)
    case Refreshed =>
      var i := found.value;
      if i < |t.rows| then t.(rows := t.rows[i := t.rows[i].(lastSeen := o.lastSeen, details := o.details)]) else t
    case KeyClash => t
    case Opened(row) => Table(t.rows + [row], t.nextId + 1)
  }

  /** The SELECT and the write under the process's lock. */
  function RecordOutcome(t: Table, o: Observation): Outcome {
    WriteOutcome(t, Lookup(t.rows, o.detector, o.entity), o)
  }

  function DoRecord(t: Table, o: Observation): Table {
    DoWrite(t, Lookup(t.rows, o.detector, o.entity), o)
  }

  /** UPDATE ... WHERE id = ? with one changed row at most. */
  function Touch(r: Incident, a: Action): Incident
    requires !a.Record?
  {
    match a
    case Resolve(id, now) => if r.id == id && r.resolvedAt.None? then r.(resolvedAt := Some(now)) else r
    case MarkNotified(id) => if r.id == id then r.(notified := true) else r
    case SetCase(id, c) => if r.id == id then r.(caseId := Some(c)) else r
  }

  function TouchAll(rows: seq<Incident>, a: Action): (s: seq<Incident>)
    requires !a.Record?
    ensures |s| == |rows| && forall i :: 0 <= i < |rows| ==> s[i] == Touch(rows[i], a)
  {
    if rows == [] then [] else [Touch(rows[0], a)] + TouchAll(rows[1..], a)
  }

  function Step(t: Table, a: Action): Table {
    if a.Record? then DoRecord(t, a.o) else t.(rows := TouchAll(t.rows, a))
  }

  function Exec(t: Table, run: seq<Action>): Table {
    if run == [] then t else Step(Exec(t, run[..|run| - 1]), run[|run| - 1])
  }

  // ---- what every interleaving keeps ----------------------------------------

  predicate SameKey(a: Incident, b: Incident) {
    a.detector == b.detector && a.entity == b.entity && a.firstSeen == b.firstSeen
  }

  predicate SamePair(a: Incident, b: Incident) {
    a.detector == b.detector && a.entity == b.entity
  }

  /** Two rows of the table, the older first: distinct ids and keys, and not
      both open for one pair of detector and entity. */
  predicate Apart(r: Incident, s: Incident) {
    && r.id < s.id
    && !SameKey(r, s)
    && (SamePair(r, s) ==> r.resolvedAt.Some? || s.resolvedAt.Some?)
  }

  /** Ids ascend below the counter, the unique key holds, and no pair of
      detector and entity has two open rows. */
  ghost predicate Sound(t: Table) {
    && (forall i, j :: 0 <= i < j < |t.rows| ==> Apart(t.rows[i], t.rows[j]))
    && (forall i :: 0 <= i < |t.rows| ==> t.rows[i].id < t.nextId)
  }

  lemma TouchKeepsApart(r: Incident, s: Incident, a: Action)
    requires !a.Record? && Apart(r, s)
    ensures Apart(Touch(r, a), Touch(s, a))
  {
  }

  lemma StepKeepsSound(t: Table, a: Action)
    requires Sound(t)
    ensures Sound(Step(t, a))
  {
    if !a.Record? {
      forall i, j | 0 <= i < j < |t.rows| ensures Apart(TouchAll(t.rows, a)[i], TouchAll(t.rows, a)[j]) {
        TouchKeepsApart(t.rows[i], t.rows[j], a);
        hide *;
      }
      assert forall i :: 0 <= i < |t.rows| ==> TouchAll(t.rows, a)[i].id == t.rows[i].id;
    }
  }

  /** At most one open row for each (detector, entity) in every reachable state. */
  lemma {:induction false} RunKeepsSound(t: Table, run: seq<Action>)
    requires Sound(t)
    ensures Sound(Exec(t, run))
    ensures forall i, j :: 0 <= i < j < |Exec(t, run).rows| && SamePair(Exec(t, run).rows[i], Exec(t, run).rows[j]) ==>
              Exec(t, run).rows[i].resolvedAt.Some? || Exec(t, run).rows[j].resolvedAt.Some?
  {
    if run != [] {
      hide Sound, Step;
      RunKeepsSound(t, run[..|run| - 1]);
      StepKeepsSound(Exec(t, run[..|run| - 1]), run[|run| - 1]);
    }
  }

  /** What a row may become: identity and first-seen time never change, a
      resolution is final and freezes the row's contents, and only the two marks
      can still be set. */
  predicate Succeeds(r: Incident, s: Incident) {
    && s.id == r.id && s.detector == r.detector && s.entity == r.entity && s.firstSeen == r.firstSeen
    && (r.resolvedAt.Some? ==> s.resolvedAt == r.resolvedAt && s.lastSeen == r.lastSeen && s.details == r.details)
    && (r.notified ==> s.notified)
    && (r.caseId.Some? ==> s.caseId.Some?)
  }

  lemma StepSucceeds(t: Table, a: Action)
    ensures |t.rows| <= |Step(t, a).rows|
    ensures forall i :: 0 <= i < |t.rows| ==> Succeeds(t.rows[i], Step(t, a).rows[i])
  {
    hide NewestOpen, KeyTaken;
  }

  lemma {:induction false} RowsOnlySucceed(t: Table, run: seq<Action>)
    ensures |t.rows| <= |Exec(t, run).rows|
    ensures forall i :: 0 <= i < |t.rows| ==> Succeeds(t.rows[i], Exec(t, run).rows[i])
  {
    if run != [] {
      RowsOnlySucceed(t, run[..|run| - 1]);
      var before := Exec(t, run[..|run| - 1]);
      StepSucceeds(before, run[|run| - 1]);
      hide Step;
    }
  }

  /** A record step touches one row at most, and of that row only what was seen
      last: id, first-seen time, notified mark, case and resolution stay. */
  lemma RecordTouchesOnlyLastSeen(t: Table, o: Observation)
    ensures |t.rows| <= |DoRecord(t, o).rows|
    ensures forall i :: 0 <= i < |t.rows| ==>
              var s := DoRecord(t, o).rows[i];
              s == t.rows[i].(lastSeen := s.lastSeen, details := s.details)
              && (s != t.rows[i] ==> OpenFor(s, o.detector, o.entity) && s.lastSeen == o.lastSeen && s.details == o.details)
  {
  }

  /** After a record that does not raise, the newest open row of its pair holds what was
      observed; a new one is unmarked, without a case, and begins with the
      observation's first event. */
  lemma RecordedIsHeld(t: Table, o: Observation)
    requires !RecordOutcome(t, o).KeyClash?
    ensures var rows, i := DoRecord(t, o).rows, NewestOpen(DoRecord(t, o).rows, o.detector, o.entity);
      && i < |rows| && OpenFor(rows[i], o.detector, o.entity)
      && rows[i].lastSeen == o.lastSeen && rows[i].details == o.details
      && (RecordOutcome(t, o).Opened? ==>
            rows[i].firstSeen == o.firstSeen && !rows[i].notified && rows[i].caseId.None? && rows[i].id == t.nextId)
  {
    var rows, i, j := DoRecord(t, o).rows, NewestOpen(DoRecord(t, o).rows, o.detector, o.entity), NewestOpen(t.rows, o.detector, o.entity);
    hide NewestOpen, KeyTaken;
    if j < |t.rows| {
      assert OpenFor(rows[j], o.detector, o.entity);
      assert i == j;
    } else {
      assert OpenFor(rows[|t.rows|], o.detector, o.entity);
    }
  }

  /** What the three updates do: the row of the id is resolved, marked or linked, and
      nothing else of it or of any other row changes. */
  lemma UpdatesTakeEffect(t: Table, a: Action, i: nat)
    requires !a.Record? && i < |t.rows|
    ensures var r, s := t.rows[i], Step(t, a).rows[i];
      && (r.id != a.id ==> s == r)
      && (r.id == a.id ==>
            && (a.Resolve? ==> s.resolvedAt.Some? && (r.resolvedAt.None? ==> s.resolvedAt == Some(a.now)) && s.(resolvedAt := r.resolvedAt) == r)
            && (a.MarkNotified? ==> s.notified && s.(notified := r.notified) == r)
            && (a.SetCase? ==> s.caseId == Some(a.caseId) && s.(caseId := r.caseId) == r))
  {
  }

  // ---- opened exactly once --------------------------------------------------

  /** The rows _record_incident returned as newly opened, in order. */
  function OpenedRows(t: Table, run: seq<Action>): seq<Incident> {
    if run == [] then []
    else
      var before, a := Exec(t, run[..|run| - 1]), run[|run| - 1];
      OpenedRows(t, run[..|run| - 1])
      + (if a.Record? && RecordOutcome(before, a.o).Opened? then [RecordOutcome(before, a.o).row] else [])
  }

  /** In any interleaving the rows returned as newly opened are exactly the rows
      added, in order, each once. */
  lemma {:induction false} EachRowIsOpenedOnce(t: Table, run: seq<Action>)
    ensures |Exec(t, run).rows| == |t.rows| + |OpenedRows(t, run)|
    ensures Exec(t, run).nextId == t.nextId + |OpenedRows(t, run)|
    ensures forall k :: 0 <= k < |OpenedRows(t, run)| ==>
              && OpenedRows(t, run)[k].id == t.nextId + k
              && Succeeds(OpenedRows(t, run)[k], Exec(t, run).rows[|t.rows| + k])
  {
    if run != [] {
      var n := |run| - 1;
      EachRowIsOpenedOnce(t, run[..n]);
      var before, a := Exec(t, run[..n]), run[n];
      StepSucceeds(before, a);
      StepAddsItsOpenedRow(before, a);
      hide Step, RecordOutcome, Succeeds;
      forall k | 0 <= k < |OpenedRows(t, run[..n])|
        ensures Succeeds(OpenedRows(t, run)[k], Exec(t, run).rows[|t.rows| + k])
      {
      }
    }
  }

  lemma StepAddsItsOpenedRow(t: Table, a: Action)
    ensures
      if a.Record? && RecordOutcome(t, a.o).Opened? then
        && Step(t, a) == Table(t.rows + [RecordOutcome(t, a.o).row], t.nextId + 1)
        && RecordOutcome(t, a.o).row.id == t.nextId
        && Succeeds(RecordOutcome(t, a.o).row, RecordOutcome(t, a.o).row)
      else
        |Step(t, a).rows| == |t.rows| && Step(t, a).nextId == t.nextId
  {
    hide NewestOpen, KeyTaken;
  }

  // ---- when recording raises ------------------------------------------------

  /** The insert violates the unique key iff the pair has no open row but a
      resolved one with the same first-seen time. */
  lemma RecordRaisesIff(t: Table, o: Observation)
    ensures RecordOutcome(t, o).KeyClash?
       <==> && (forall k :: 0 <= k < |t.rows| ==> !OpenFor(t.rows[k], o.detector, o.entity))
            && (exists k :: 0 <= k < |t.rows| && t.rows[k].resolvedAt.Some?
                  && t.rows[k].detector == o.detector && t.rows[k].entity == o.entity && t.rows[k].firstSeen == o.firstSeen)
  {
    var i := NewestOpen(t.rows, o.detector, o.entity);
    hide NewestOpen;
    if i < |t.rows| {
      assert OpenFor(t.rows[i], o.detector, o.entity);
    }
  }

  /** Resolving an incident whose window still begins at the same event makes
      the next observation of it raise. */
  lemma ResolvedWhileInWindowRaises(t: Table, i: nat, now: int, o: Observation)
    requires Sound(t) && i < |t.rows| && OpenFor(t.rows[i], o.detector, o.entity) && o.firstSeen == t.rows[i].firstSeen
    ensures RecordOutcome(Step(t, Resolve(t.rows[i].id, now)), o) == KeyClash
  {
    var t' := Step(t, Resolve(t.rows[i].id, now));
    assert t'.rows[i] == t.rows[i].(resolvedAt := Some(now));
    forall k | 0 <= k < |t.rows| && k != i
      ensures !OpenFor(t'.rows[k], o.detector, o.entity)
    {
      assert Apart(t.rows[if k < i then k else i], t.rows[if k < i then i else k]);
    }
    hide Sound, Step, NewestOpen, RecordOutcome;
    RecordRaisesIff(t', o);
  }
}
