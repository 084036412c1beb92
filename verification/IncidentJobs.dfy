/** The scheduled correlation job (correlations.py run_all, app.py
    _correlations_run_job): detectors write incidents, the job announces the ones
    it is told were newly opened. A detector that raises loses its list. */
module IncidentJobs {
  import opened Wrappers
  import opened Incidents

  /** What analysts do to the table between two writes of a detector. */
  predicate Analyst(a: Action) {
    a.Resolve? || a.SetCase?
  }

  type AnalystStep = a: Action | Analyst(a) witness Resolve(0, 0)

  /** One entity a detector reports, after what analysts did meanwhile. */
  datatype Visit = Visit(others: seq<AnalystStep>, o: Observation)

  type Detector = seq<Visit>

  /** `added` is the detector's local list; a raise discards it and ends the loop,
      while analysts go on. */
  datatype Detection = Detection(table: Table, added: seq<Incident>, raised: bool)

  function Detect(t: Table, visits: Detector): Detection {
    if visits == [] then Detection(t, [], false)
    else
      var d := Detect(t, visits[..|visits| - 1]);
      var v := visits[|visits| - 1];
      var now := Exec(d.table, v.others);
      if d.raised then d.(table := now)
      else
        var added := match RecordOutcome(now, v.o) case Opened(row) => d.added + [row] case _ => d.added;
        Detection(DoRecord(now, v.o), added, RecordOutcome(now, v.o).KeyClash?)
  }

  /** `returned` is what run_all hands to its caller; `added` and `lost` keep
      account of every row opened and of those no caller ever hears of. */
  datatype Job = Job(table: Table, returned: seq<Incident>, added: seq<Incident>, lost: seq<Incident>)

  function RunAll(t: Table, detectors: seq<Detector>): Job {
    if detectors == [] then Job(t, [], [], [])
    else
      var j := RunAll(t, detectors[..|detectors| - 1]);
      var d := Detect(j.table, detectors[|detectors| - 1]);
      if d.raised then Job(d.table, j.returned, j.added + d.added, j.lost + d.added)
      else Job(d.table, j.returned + d.added, j.added + d.added, j.lost)
  }

  function Ids(rows: seq<Incident>): (s: seq<nat>)
    ensures |s| == |rows| && forall i :: 0 <= i < |rows| ==> s[i] == rows[i].id
  {
    if rows == [] then [] else Ids(rows[..|rows| - 1]) + [rows[|rows| - 1].id]
  }

  /** The job after run_all: announce each returned incident, then mark it. */
  function MarkAll(t: Table, rows: seq<Incident>): Table {
    if rows == [] then t
    else Step(MarkAll(t, rows[..|rows| - 1]), MarkNotified(rows[|rows| - 1].id))
  }

  // ---- returned or lost ------------------------------------------------------

  lemma {:induction false} ReturnedPlusLost(t: Table, detectors: seq<Detector>)
    ensures |RunAll(t, detectors).added| == |RunAll(t, detectors).returned| + |RunAll(t, detectors).lost|
    ensures RunAll(t, detectors).lost == [] ==> RunAll(t, detectors).returned == RunAll(t, detectors).added
  {
    if detectors != [] {
      hide Detect;
      ReturnedPlusLost(t, detectors[..|detectors| - 1]);
    }
  }

  /** Two observations suffice: one that opens, then one whose unique key is
      taken. The first row is in the table and no caller hears of it. */
  lemma ClashDropsEarlierOpened(t: Table, first: Observation, second: Observation)
    requires RecordOutcome(t, first).Opened?
    requires RecordOutcome(DoRecord(t, first), second).KeyClash?
    ensures RunAll(t, [[Visit([], first), Visit([], second)]])
         == Job(DoRecord(t, first), [], [RecordOutcome(t, first).row], [RecordOutcome(t, first).row])
  {
    var visits := [Visit([], first), Visit([], second)];
    hide RecordOutcome, NewestOpen;
    assert visits[..1] == [Visit([], first)] && visits[..1][..0] == [];
    assert Detect(t, visits[..0]) == Detection(t, [], false);
    assert Exec(t, []) == t && Exec(DoRecord(t, first), []) == DoRecord(t, first);
    assert Detect(t, visits[..1]) == Detection(DoRecord(t, first), [RecordOutcome(t, first).row], false);
    ClashKeepsTable(DoRecord(t, first), second);
    assert Detect(t, visits) == Detection(DoRecord(t, first), [RecordOutcome(t, first).row], true);
    assert [visits][..0] == [];
  }

  lemma ClashKeepsTable(t: Table, o: Observation)
    requires RecordOutcome(t, o).KeyClash?
    ensures DoRecord(t, o) == t
  {
  }

  // ---- the store -------------------------------------------------------------

  class CorrelationStore {
    var rows: seq<Incident>
    var nextId: nat

    function Contents(): Table
      reads this
    {
      Table(rows, nextId)
    }

    constructor ()
      ensures Contents() == Table([], 1)
    {
      rows, nextId := [], 1;
    }

    method RecordIncident(o: Observation) returns (r: Outcome)
      modifies this
      ensures r == RecordOutcome(old(Contents()), o)
      ensures Contents() == DoRecord(old(Contents()), o)
    {
      var existing := NewestOpen(rows, o.detector, o.entity);
      if existing < |rows| {
        rows := rows[existing := rows[existing].(lastSeen := o.lastSeen, details := o.details)];
        return Refreshed;
      }
      if KeyTaken(rows, o) {
        return KeyClash;
      }
      var row := Incident(nextId, o.detector, o.entity, o.firstSeen, o.lastSeen, o.details, None, false, None);
      rows, nextId := rows + [row], nextId + 1;
      return Opened(row);
    }

    method ResolveIncident(id: nat, now: int) returns (resolved: bool)
      modifies this
      ensures Contents() == Step(old(Contents()), Resolve(id, now))
      ensures resolved <==> exists i :: 0 <= i < |old(rows)| && old(rows)[i].id == id && old(rows)[i].resolvedAt.None?
    {
      resolved := exists i :: 0 <= i < |rows| && rows[i].id == id && rows[i].resolvedAt.None?;
      rows := TouchAll(rows, Resolve(id, now));
    }

    method MarkNotifiedRow(id: nat)
      modifies this
      ensures Contents() == Step(old(Contents()), MarkNotified(id))
    {
      rows := TouchAll(rows, MarkNotified(id));
    }

    method SetCaseId(id: nat, caseId: int)
      modifies this
      ensures Contents() == Step(old(Contents()), SetCase(id, caseId))
    {
      rows := TouchAll(rows, SetCase(id, caseId));
    }

    method Interleave(others: seq<AnalystStep>)
      modifies this
      ensures Contents() == Exec(old(Contents()), others)
    {
      for i := 0 to |others|
        invariant Contents() == Exec(old(Contents()), others[..i])
      {
        assert others[..i + 1][..i] == others[..i];
        match others[i]
        case Resolve(id, now) => var _ := ResolveIncident(id, now);
        case SetCase(id, c) => SetCaseId(id, c);
      }
      assert others[..|others|] == others;
    }

    /** None is the raise. */
    method RunDetector(visits: Detector) returns (newIncidents: Option<seq<Incident>>)
      modifies this
      ensures Contents() == Detect(old(Contents()), visits).table
      ensures newIncidents == (if Detect(old(Contents()), visits).raised then None
                               else Some(Detect(old(Contents()), visits).added))
    {
      hide RecordOutcome, DoRecord, Exec;
      var newRows: seq<Incident> := [];
      for i := 0 to |visits|
        invariant Detect(old(Contents()), visits[..i]) == Detection(Contents(), newRows, false)
      {
        assert visits[..i + 1][..i] == visits[..i];
        Interleave(visits[i].others);
        var outcome := RecordIncident(visits[i].o);
        if outcome.KeyClash? {
          Raised(old(Contents()), visits, i + 1);
          return None;
        }
        if outcome.Opened? {
          newRows := newRows + [outcome.row];
        }
      }
      assert visits[..|visits|] == visits;
      return Some(newRows);
    }

    /** The loop has ended with visit n - 1; analysts go on. */
    method Raised(ghost t: Table, visits: Detector, n: nat)
      requires n <= |visits| && Detect(t, visits[..n]).raised && Contents() == Detect(t, visits[..n]).table
      modifies this
      ensures Detect(t, visits).raised && Contents() == Detect(t, visits).table
    {
      hide RecordOutcome, DoRecord, Exec;
      for i := n to |visits|
        invariant Detect(t, visits[..i]).raised && Contents() == Detect(t, visits[..i]).table
      {
        assert visits[..i + 1][..i] == visits[..i];
        Interleave(visits[i].others);
      }
      assert visits[..|visits|] == visits;
    }

    method RunDetectors(detectors: seq<Detector>) returns (incidents: seq<Incident>)
      modifies this
      ensures incidents == RunAll(old(Contents()), detectors).returned
      ensures Contents() == RunAll(old(Contents()), detectors).table
    {
      hide Detect;
      incidents := [];
      for i := 0 to |detectors|
        invariant incidents == RunAll(old(Contents()), detectors[..i]).returned
        invariant Contents() == RunAll(old(Contents()), detectors[..i]).table
      {
        assert detectors[..i + 1][..i] == detectors[..i];
        var found := RunDetector(detectors[i]);
        if found.Some? {
          incidents := incidents + found.value;
        }
      }
      assert detectors[..|detectors|] == detectors;
    }

    /** Returns the ids announced, in order. */
    method CorrelationsRunJob(detectors: seq<Detector>) returns (announced: seq<nat>)
      modifies this
      ensures announced == Ids(RunAll(old(Contents()), detectors).returned)
      ensures Contents() == MarkAll(RunAll(old(Contents()), detectors).table, RunAll(old(Contents()), detectors).returned)
    {
      hide RunAll;
      var incidents := RunDetectors(detectors);
      announced := [];
      ghost var before := Contents();
      for i := 0 to |incidents|
        invariant announced == Ids(incidents[..i])
        invariant Contents() == MarkAll(before, incidents[..i])
      {
        assert incidents[..i + 1][..i] == incidents[..i];
        announced := announced + [incidents[i].id];
        MarkNotifiedRow(incidents[i].id);
      }
      assert incidents[..|incidents|] == incidents;
    }
  }
}
