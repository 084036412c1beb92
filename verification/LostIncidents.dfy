/** Which job loses rows it opened (correlations.py run_all): decided on the table
    before the job and the analysts' actions during it, without running it. */
module LostIncidents {
  import opened Incidents
  import opened IncidentJobs

  // ---- the caller's side -----------------------------------------------------

  /** No row of the observation's pair is open and none has its first-seen time. */
  ghost predicate WouldOpen(t: Table, o: Observation) {
    forall r :: r in t.rows && r.detector == o.detector && r.entity == o.entity ==>
      r.resolvedAt.Some? && r.firstSeen != o.firstSeen
  }

  /** No row of the pair is open, but a resolved one has its first-seen time. */
  ghost predicate WouldClash(t: Table, o: Observation) {
    && (forall r :: r in t.rows && r.detector == o.detector && r.entity == o.entity ==> r.resolvedAt.Some?)
    && (exists r :: r in t.rows && r.detector == o.detector && r.entity == o.entity && r.firstSeen == o.firstSeen)
  }

  /** Everything analysts do up to the last of these visits. */
  function AnalystsIn(visits: Detector): seq<AnalystStep> {
    if visits == [] then [] else AnalystsIn(visits[..|visits| - 1]) + visits[|visits| - 1].others
  }

  function AnalystsDuring(detectors: seq<Detector>): seq<AnalystStep> {
    if detectors == [] then []
    else AnalystsDuring(detectors[..|detectors| - 1]) + AnalystsIn(detectors[|detectors| - 1])
  }

  /** The table at visit j had no detector written anything. */
  function AtVisit(t: Table, visits: Detector, j: nat): Table
    requires j < |visits|
  {
    Exec(t, AnalystsIn(visits[..j + 1]))
  }

  predicate SamePairVisited(v: Visit, w: Visit) {
    v.o.detector == w.o.detector && v.o.entity == w.o.entity
  }

  /** The entity of visit j was not visited before. */
  predicate FirstVisit(visits: Detector, j: nat)
    requires j < |visits|
  {
    forall i :: 0 <= i < j ==> !SamePairVisited(visits[i], visits[j])
  }

  ghost predicate Clashes(t: Table, visits: Detector, j: nat)
    requires j < |visits|
  {
    FirstVisit(visits, j) && WouldClash(AtVisit(t, visits, j), visits[j].o)
  }

  /** Visit i opens a row, and no visit before it has ended the detector. */
  ghost predicate Opens(t: Table, visits: Detector, i: nat)
    requires i < |visits|
  {
    && FirstVisit(visits, i)
    && WouldOpen(AtVisit(t, visits, i), visits[i].o)
    && (forall m :: 0 <= m < i ==> !Clashes(t, visits, m))
  }

  /** A detector that opens a row at one entity and clashes at a later one. */
  ghost predicate LosesRows(t: Table, visits: Detector) {
    exists i, j :: 0 <= i < j < |visits| && Opens(t, visits, i) && Clashes(t, visits, j)
  }

  /** Detectors write under names of their own. */
  predicate OwnNames(detectors: seq<Detector>) {
    forall a, b :: 0 <= a < b < |detectors| ==> NamesApart(detectors[a], detectors[b])
  }

  predicate NamesApart(a: Detector, b: Detector) {
    forall v, w :: v in a && w in b ==> v.o.detector != w.o.detector
  }

  /** Between two visits of one entity nobody resolves an incident. */
  predicate Undisturbed(visits: Detector) {
    forall i, j :: 0 <= i < j < |visits| && SamePairVisited(visits[i], visits[j]) ==> QuietSince(visits, i, j)
  }

  predicate QuietSince(visits: Detector, i: nat, j: nat)
    requires i <= j < |visits|
  {
    forall k :: i < k <= j ==> forall a :: a in visits[k].others ==> !a.Resolve?
  }

  // ---- the rows of one pair ----------------------------------------------------

  function PairRows(rows: seq<Incident>, d: string, e: string): seq<Incident> {
    if rows == [] then []
    else
      var n := |rows| - 1;
      PairRows(rows[..n], d, e) + (if rows[n].detector == d && rows[n].entity == e then [rows[n]] else [])
  }

  lemma {:induction false} PairMember(rows: seq<Incident>, d: string, e: string)
    ensures forall r :: r in PairRows(rows, d, e) <==> r in rows && r.detector == d && r.entity == e
  {
    if rows != [] {
      var n := |rows| - 1;
      PairMember(rows[..n], d, e);
      assert rows == rows[..n] + [rows[n]];
    }
  }

  /** The two tables hold the same rows of the pair. */
  predicate Agree(t: Table, u: Table, d: string, e: string) {
    PairRows(t.rows, d, e) == PairRows(u.rows, d, e)
  }

  lemma AgreeOnOutcome(t: Table, u: Table, o: Observation)
    requires Agree(t, u, o.detector, o.entity)
    ensures WouldOpen(t, o) <==> WouldOpen(u, o)
    ensures WouldClash(t, o) <==> WouldClash(u, o)
  {
    PairMember(t.rows, o.detector, o.entity);
    PairMember(u.rows, o.detector, o.entity);
    hide PairRows;
    var rs := PairRows(t.rows, o.detector, o.entity);
    assert WouldOpen(t, o) <==> forall r :: r in rs ==> r.resolvedAt.Some? && r.firstSeen != o.firstSeen;
    assert WouldOpen(u, o) <==> forall r :: r in rs ==> r.resolvedAt.Some? && r.firstSeen != o.firstSeen;
    assert WouldClash(t, o)
      <==> (forall r :: r in rs ==> r.resolvedAt.Some?) && (exists r :: r in rs && r.firstSeen == o.firstSeen);
    assert WouldClash(u, o)
      <==> (forall r :: r in rs ==> r.resolvedAt.Some?) && (exists r :: r in rs && r.firstSeen == o.firstSeen);
  }

  lemma OutcomeOnTable(t: Table, o: Observation)
    ensures RecordOutcome(t, o).Opened? <==> WouldOpen(t, o)
    ensures RecordOutcome(t, o).KeyClash? <==> WouldClash(t, o)
  {
    var rows, i := t.rows, NewestOpen(t.rows, o.detector, o.entity);
    hide NewestOpen;
    if i < |rows| {
      assert OpenFor(rows[i], o.detector, o.entity) && rows[i] in rows;
    } else if KeyTaken(rows, o) {
      var k :| 0 <= k < |rows| && rows[k].detector == o.detector && rows[k].entity == o.entity && rows[k].firstSeen == o.firstSeen;
      assert rows[k] in rows;
    }
  }

  lemma PairSnoc(rows: seq<Incident>, last: Incident, d: string, e: string)
    ensures PairRows(rows + [last], d, e)
         == PairRows(rows, d, e) + (if last.detector == d && last.entity == e then [last] else [])
  {
    assert (rows + [last])[..|rows|] == rows;
  }

  lemma TouchSnoc(rows: seq<Incident>, last: Incident, a: AnalystStep)
    ensures TouchAll(rows + [last], a) == TouchAll(rows, a) + [Touch(last, a)]
  {
  }

  lemma TouchKeepsPair(r: Incident, a: AnalystStep)
    ensures Touch(r, a).detector == r.detector && Touch(r, a).entity == r.entity
  {
  }

  lemma NothingAppended(a: seq<Incident>, b: seq<Incident>)
    ensures a + [] == a && b + [] == b
  {
  }

  lemma {:induction false} PairTouch(rows: seq<Incident>, a: AnalystStep, d: string, e: string)
    ensures PairRows(TouchAll(rows, a), d, e) == TouchAll(PairRows(rows, d, e), a)
  {
    if rows != [] {
      var before, last := rows[..|rows| - 1], rows[|rows| - 1];
      assert rows == before + [last];
      TouchKeepsPair(last, a);
      hide *;
      PairTouch(before, a, d, e);
      TouchSnoc(before, last, a);
      PairSnoc(before, last, d, e);
      PairSnoc(TouchAll(before, a), Touch(last, a), d, e);
      TouchSnoc(PairRows(before, d, e), last, a);
      NothingAppended(PairRows(before, d, e), TouchAll(PairRows(before, d, e), a));
    }
  }

  /** Replacing a row of another pair by one of that pair. */
  lemma {:induction false} PairIgnores(rows: seq<Incident>, i: nat, r: Incident, d: string, e: string)
    requires i < |rows|
    requires r.detector == rows[i].detector && r.entity == rows[i].entity && !(r.detector == d && r.entity == e)
    ensures PairRows(rows[i := r], d, e) == PairRows(rows, d, e)
  {
    var n := |rows| - 1;
    assert rows == rows[..n] + [rows[n]];
    PairSnoc(rows[..n], rows[n], d, e);
    if i < n {
      PairIgnores(rows[..n], i, r, d, e);
      assert rows[i := r] == rows[..n][i := r] + [rows[n]];
      PairSnoc(rows[..n][i := r], rows[n], d, e);
    } else {
      assert rows[i := r] == rows[..n] + [r];
      PairSnoc(rows[..n], r, d, e);
    }
  }

  lemma RecordElsewhere(t: Table, o: Observation, d: string, e: string)
    requires !(o.detector == d && o.entity == e)
    ensures Agree(t, DoRecord(t, o), d, e)
  {
    var i := NewestOpen(t.rows, o.detector, o.entity);
    match RecordOutcome(t, o)
    case Refreshed =>
      assert OpenFor(t.rows[i], o.detector, o.entity);
      PairIgnores(t.rows, i, t.rows[i].(lastSeen := o.lastSeen, details := o.details), d, e);
    case KeyClash =>
    case Opened(row) =>
      assert (t.rows + [row])[..|t.rows|] == t.rows;
  }

  lemma {:induction false} AgreeThroughAnalysts(t: Table, u: Table, steps: seq<AnalystStep>, d: string, e: string)
    requires Agree(t, u, d, e)
    ensures Agree(Exec(t, steps), Exec(u, steps), d, e)
  {
    if steps != [] {
      var n := |steps| - 1;
      AgreeThroughAnalysts(t, u, steps[..n], d, e);
      var t', u' := Exec(t, steps[..n]), Exec(u, steps[..n]);
      hide PairRows;
      PairTouch(t'.rows, steps[n], d, e);
      PairTouch(u'.rows, steps[n], d, e);
    }
  }

  lemma {:induction false} ExecOfSum(t: Table, a: seq<AnalystStep>, b: seq<AnalystStep>)
    ensures Exec(t, a + b) == Exec(Exec(t, a), b)
  {
    if b == [] {
      assert a + b == a;
    } else {
      var n := |b| - 1;
      ExecOfSum(t, a, b[..n]);
      assert (a + b)[..|a + b| - 1] == a + b[..n];
    }
  }

  function OpenedBy(t: Table, o: Observation): seq<Incident> {
    match RecordOutcome(t, o) case Opened(row) => [row] case _ => []
  }

  // ---- a detector and a job leave other pairs to the analysts ---------------------

  predicate Visits(visits: Detector, d: string, e: string) {
    exists v :: v in visits && v.o.detector == d && v.o.entity == e
  }

  lemma DetectSnoc(t: Table, visits: Detector)
    requires visits != []
    ensures var n := |visits| - 1; var d, v := Detect(t, visits[..n]), visits[n];
      var now := Exec(d.table, v.others);
      Detect(t, visits) ==
        if d.raised then d.(table := now)
        else Detection(DoRecord(now, v.o), d.added + OpenedBy(now, v.o), RecordOutcome(now, v.o).KeyClash?)
  {
    hide RecordOutcome, DoRecord, Exec;
  }

  lemma {:induction false} DetectElsewhere(t: Table, visits: Detector, d: string, e: string)
    requires !Visits(visits, d, e)
    ensures Agree(Detect(t, visits).table, Exec(t, AnalystsIn(visits)), d, e)
  {
    if visits != [] {
      var n := |visits| - 1;
      var before, v := visits[..n], visits[n];
      assert v in visits && forall w :: w in before ==> w in visits;
      DetectElsewhere(t, before, d, e);
      var seen := Detect(t, before);
      DetectSnoc(t, visits);
      AgreeThroughAnalysts(seen.table, Exec(t, AnalystsIn(before)), v.others, d, e);
      RecordElsewhere(Exec(seen.table, v.others), v.o, d, e);
      hide Detect, Exec, DoRecord, RecordOutcome, Visits, OpenedBy;
      ExecOfSum(t, AnalystsIn(before), v.others);
    }
  }

  lemma {:induction false} JobElsewhere(t: Table, detectors: seq<Detector>, d: string, e: string)
    requires forall a :: 0 <= a < |detectors| ==> !Visits(detectors[a], d, e)
    ensures Agree(RunAll(t, detectors).table, Exec(t, AnalystsDuring(detectors)), d, e)
  {
    if detectors != [] {
      var n := |detectors| - 1;
      var before, last := detectors[..n], detectors[n];
      JobElsewhere(t, before, d, e);
      var u := RunAll(t, before).table;
      DetectElsewhere(u, last, d, e);
      hide Detect, Exec, Visits, PairRows, AnalystsIn;
      AgreeThroughAnalysts(u, Exec(t, AnalystsDuring(before)), AnalystsIn(last), d, e);
      ExecOfSum(t, AnalystsDuring(before), AnalystsIn(last));
    }
  }

  // ---- an open row stays open until somebody resolves -------------------------------

  ghost predicate HasOpen(t: Table, o: Observation) {
    exists k :: 0 <= k < |t.rows| && OpenFor(t.rows[k], o.detector, o.entity)
  }

  lemma QuietKeepsOpen(t: Table, a: AnalystStep, o: Observation)
    requires HasOpen(t, o) && !a.Resolve?
    ensures HasOpen(Step(t, a), o)
  {
    var k :| 0 <= k < |t.rows| && OpenFor(t.rows[k], o.detector, o.entity);
    assert OpenFor(TouchAll(t.rows, a)[k], o.detector, o.entity);
  }

  lemma {:induction false} QuietRunKeepsOpen(t: Table, steps: seq<AnalystStep>, o: Observation)
    requires HasOpen(t, o) && forall a :: a in steps ==> !a.Resolve?
    ensures HasOpen(Exec(t, steps), o)
  {
    if steps != [] {
      var n := |steps| - 1;
      QuietRunKeepsOpen(t, steps[..n], o);
      QuietKeepsOpen(Exec(t, steps[..n]), steps[n], o);
    }
  }

  lemma RecordKeepsOpen(t: Table, p: Observation, o: Observation)
    requires HasOpen(t, o)
    ensures HasOpen(DoRecord(t, p), o)
  {
    hide NewestOpen;
    var k :| 0 <= k < |t.rows| && OpenFor(t.rows[k], o.detector, o.entity);
    assert OpenFor(DoRecord(t, p).rows[k], o.detector, o.entity);
  }

  lemma RecordLeavesOpen(t: Table, o: Observation)
    requires !RecordOutcome(t, o).KeyClash?
    ensures HasOpen(DoRecord(t, o), o)
  {
    var u, i := DoRecord(t, o), NewestOpen(t.rows, o.detector, o.entity);
    hide NewestOpen;
    assert OpenFor(u.rows[if i < |t.rows| then i else |t.rows|], o.detector, o.entity);
  }

  lemma OpenIsRefreshed(t: Table, o: Observation)
    requires HasOpen(t, o)
    ensures RecordOutcome(t, o) == Refreshed
  {
  }

  /** A detector still running has an open row for every entity it visited and
      nobody resolved since. */
  lemma {:induction false} VisitedIsOpen(t: Table, visits: Detector, i: nat)
    requires i < |visits| && QuietSince(visits, i, |visits| - 1) && !Detect(t, visits).raised
    ensures HasOpen(Detect(t, visits).table, visits[i].o)
  {
    var n := |visits| - 1;
    var d, v := Detect(t, visits[..n]), visits[n];
    DetectSnoc(t, visits);
    hide Detect, RecordOutcome, DoRecord, Exec, HasOpen, OpenedBy;
    var now := Exec(d.table, v.others);
    if i == n {
      RecordLeavesOpen(now, v.o);
    } else {
      assert QuietSince(visits[..n], i, n - 1);
      VisitedIsOpen(t, visits[..n], i);
      assert forall a :: a in v.others ==> !a.Resolve?;
      QuietRunKeepsOpen(d.table, v.others, visits[i].o);
      RecordKeepsOpen(now, v.o, visits[i].o);
    }
  }

  lemma RepeatIsRefreshed(t: Table, visits: Detector, i: nat)
    requires i < |visits| - 1 && Undisturbed(visits) && SamePairVisited(visits[i], visits[|visits| - 1])
    requires !Detect(t, visits[..|visits| - 1]).raised
    ensures var n := |visits| - 1;
      RecordOutcome(Exec(Detect(t, visits[..n]).table, visits[n].others), visits[n].o) == Refreshed
  {
    var n := |visits| - 1;
    var o, d := visits[n].o, Detect(t, visits[..n]);
    hide Detect, RecordOutcome, Exec;
    assert QuietSince(visits, i, n);
    assert QuietSince(visits[..n], i, n - 1);
    VisitedIsOpen(t, visits[..n], i);
    QuietRunKeepsOpen(d.table, visits[n].others, visits[i].o);
    OpenIsRefreshed(Exec(d.table, visits[n].others), o);
  }

  // ---- one detector, decided on the table before it --------------------------------

  ghost predicate SomeClash(t: Table, visits: Detector) {
    exists j :: 0 <= j < |visits| && Clashes(t, visits, j)
  }

  ghost predicate SomeOpen(t: Table, visits: Detector) {
    exists i :: 0 <= i < |visits| && Opens(t, visits, i)
  }

  lemma ClashesInPrefix(t: Table, visits: Detector, n: nat, j: nat)
    requires j < n <= |visits|
    ensures Clashes(t, visits[..n], j) <==> Clashes(t, visits, j)
  {
    assert visits[..n][..j + 1] == visits[..j + 1];
  }

  lemma OpensInPrefix(t: Table, visits: Detector, n: nat, i: nat)
    requires i < n <= |visits|
    ensures Opens(t, visits[..n], i) <==> Opens(t, visits, i)
  {
    assert visits[..n][..i + 1] == visits[..i + 1];
    forall m | 0 <= m < i ensures Clashes(t, visits[..n], m) <==> Clashes(t, visits, m) {
      ClashesInPrefix(t, visits, n, m);
    }
    hide Clashes;
  }

  lemma ClashSnoc(t: Table, visits: Detector)
    requires visits != []
    ensures var n := |visits| - 1;
      SomeClash(t, visits) <==> SomeClash(t, visits[..n]) || Clashes(t, visits, n)
  {
    var n := |visits| - 1;
    hide Clashes;
    forall j | 0 <= j < n ensures Clashes(t, visits[..n], j) <==> Clashes(t, visits, j) {
      ClashesInPrefix(t, visits, n, j);
    }
  }

  lemma OpenSnoc(t: Table, visits: Detector)
    requires visits != []
    ensures var n := |visits| - 1;
      SomeOpen(t, visits) <==> SomeOpen(t, visits[..n]) || Opens(t, visits, n)
  {
    var n := |visits| - 1;
    hide Opens;
    forall j | 0 <= j < n ensures Opens(t, visits[..n], j) <==> Opens(t, visits, j) {
      OpensInPrefix(t, visits, n, j);
    }
  }

  lemma SomeSnoc(t: Table, visits: Detector)
    requires visits != []
    ensures var n := |visits| - 1;
      && (SomeClash(t, visits) <==> SomeClash(t, visits[..n]) || Clashes(t, visits, n))
      && (SomeOpen(t, visits) <==> SomeOpen(t, visits[..n]) || Opens(t, visits, n))
      && (Opens(t, visits, n) <==>
            FirstVisit(visits, n) && WouldOpen(AtVisit(t, visits, n), visits[n].o) && !SomeClash(t, visits[..n]))
  {
    var n := |visits| - 1;
    ClashSnoc(t, visits);
    OpenSnoc(t, visits);
    hide Clashes, FirstVisit, WouldOpen, AtVisit, SomeOpen;
    forall j | 0 <= j < n ensures Clashes(t, visits[..n], j) <==> Clashes(t, visits, j) {
      ClashesInPrefix(t, visits, n, j);
    }
  }

  /** The tables agree on every entity of the detector. */
  ghost predicate AgreeOn(u: Table, t: Table, visits: Detector) {
    forall v :: v in visits ==> Agree(u, t, v.o.detector, v.o.entity)
  }

  /** At a first visit the detector sees what the analysts alone would have left. */
  lemma FirstVisitSees(u: Table, t: Table, visits: Detector)
    requires visits != [] && AgreeOn(u, t, visits) && FirstVisit(visits, |visits| - 1)
    ensures var n := |visits| - 1; var o := visits[n].o;
      Agree(Exec(Detect(u, visits[..n]).table, visits[n].others), AtVisit(t, visits, n), o.detector, o.entity)
  {
    var n := |visits| - 1;
    var o := visits[n].o;
    assert visits[n] in visits && visits[..n + 1] == visits;
    var before := visits[..n];
    assert !Visits(before, o.detector, o.entity);
    hide FirstVisit, Visits, Detect, PairRows, Exec;
    DetectElsewhere(u, before, o.detector, o.entity);
    AgreeThroughAnalysts(u, t, AnalystsIn(before), o.detector, o.entity);
    AgreeThroughAnalysts(Detect(u, before).table, Exec(t, AnalystsIn(before)), visits[n].others, o.detector, o.entity);
    ExecOfSum(t, AnalystsIn(before), visits[n].others);
  }

  /** What the last visit of a detector still running does. */
  lemma LastVisit(u: Table, t: Table, visits: Detector)
    requires visits != [] && AgreeOn(u, t, visits) && Undisturbed(visits)
    requires !Detect(u, visits[..|visits| - 1]).raised
    ensures var n := |visits| - 1;
      var outcome := RecordOutcome(Exec(Detect(u, visits[..n]).table, visits[n].others), visits[n].o);
      && (outcome.KeyClash? <==> Clashes(t, visits, n))
      && (outcome.Opened? <==> FirstVisit(visits, n) && WouldOpen(AtVisit(t, visits, n), visits[n].o))
  {
    var n := |visits| - 1;
    var o := visits[n].o;
    var now := Exec(Detect(u, visits[..n]).table, visits[n].others);
    if FirstVisit(visits, n) {
      FirstVisitSees(u, t, visits);
      hide RecordOutcome, Detect, Exec, Agree, AtVisit;
      AgreeOnOutcome(now, AtVisit(t, visits, n), o);
      OutcomeOnTable(now, o);
    } else {
      var i :| 0 <= i < n && SamePairVisited(visits[i], visits[n]);
      RepeatIsRefreshed(u, visits, i);
    }
  }

  lemma {:induction false} DetectByTable(u: Table, t: Table, visits: Detector)
    requires AgreeOn(u, t, visits) && Undisturbed(visits)
    ensures Detect(u, visits).raised <==> SomeClash(t, visits)
    ensures Detect(u, visits).added != [] <==> SomeOpen(t, visits)
  {
    if visits != [] {
      var n := |visits| - 1;
      assert AgreeOn(u, t, visits[..n]);
      UndisturbedPrefix(visits);
      DetectByTable(u, t, visits[..n]);
      SomeSnoc(t, visits);
      DetectSnoc(u, visits);
      var d := Detect(u, visits[..n]);
      hide SomeClash, SomeOpen, Detect, RecordOutcome, Exec, Clashes, Opens, WouldOpen, AtVisit, Undisturbed, AgreeOn, FirstVisit;
      if !d.raised {
        LastVisit(u, t, visits);
      }
    }
  }

  lemma UndisturbedPrefix(visits: Detector)
    requires visits != [] && Undisturbed(visits)
    ensures Undisturbed(visits[..|visits| - 1])
  {
    var before := visits[..|visits| - 1];
    forall i, j | 0 <= i < j < |before| && SamePairVisited(before[i], before[j]) ensures QuietSince(before, i, j) {
      assert QuietSince(visits, i, j);
    }
  }

  lemma LosesIff(t: Table, visits: Detector)
    ensures LosesRows(t, visits) <==> SomeClash(t, visits) && SomeOpen(t, visits)
  {
    if SomeClash(t, visits) && SomeOpen(t, visits) {
      var j :| 0 <= j < |visits| && Clashes(t, visits, j);
      var i :| 0 <= i < |visits| && Opens(t, visits, i);
      OpenIsNoClash(AtVisit(t, visits, i), visits[i].o);
      hide WouldOpen, WouldClash, FirstVisit, AtVisit;
      assert i != j;
      assert !(j < i);
    }
    hide Opens, Clashes;
  }

  lemma OpenIsNoClash(t: Table, o: Observation)
    requires WouldOpen(t, o)
    ensures !WouldClash(t, o)
  {
  }

  // ---- the job ---------------------------------------------------------------------

  /** The table when detector k starts, had the earlier ones written nothing. */
  function AtStart(t: Table, detectors: seq<Detector>, k: nat): Table
    requires k <= |detectors|
  {
    Exec(t, AnalystsDuring(detectors[..k]))
  }

  /** Detector k opens a row and then clashes. */
  ghost predicate LosesAt(t: Table, detectors: seq<Detector>, k: nat)
    requires k < |detectors|
  {
    LosesRows(AtStart(t, detectors, k), detectors[k])
  }

  lemma LosesInPrefix(t: Table, detectors: seq<Detector>, n: nat, k: nat)
    requires k < n <= |detectors|
    ensures LosesAt(t, detectors[..n], k) <==> LosesAt(t, detectors, k)
  {
    assert detectors[..n][..k] == detectors[..k];
  }

  lemma LastAgrees(t: Table, detectors: seq<Detector>)
    requires detectors != [] && OwnNames(detectors)
    ensures var n := |detectors| - 1;
      AgreeOn(RunAll(t, detectors[..n]).table, AtStart(t, detectors, n), detectors[n])
  {
    var n := |detectors| - 1;
    var before, last := detectors[..n], detectors[n];
    hide RunAll, PairRows, Exec;
    forall v | v in last ensures Agree(RunAll(t, before).table, AtStart(t, detectors, n), v.o.detector, v.o.entity) {
      forall a | 0 <= a < n ensures !Visits(before[a], v.o.detector, v.o.entity) {
        assert NamesApart(detectors[a], last);
      }
      JobElsewhere(t, before, v.o.detector, v.o.entity);
    }
  }

  lemma LastLoses(t: Table, detectors: seq<Detector>)
    requires detectors != [] && OwnNames(detectors) && Undisturbed(detectors[|detectors| - 1])
    ensures var n := |detectors| - 1;
      (RunAll(t, detectors).lost == [] <==> RunAll(t, detectors[..n]).lost == [] && !LosesAt(t, detectors, n))
  {
    var n := |detectors| - 1;
    LastAgrees(t, detectors);
    var u, v := RunAll(t, detectors[..n]).table, AtStart(t, detectors, n);
    hide AgreeOn, Detect, LosesRows, SomeClash, SomeOpen, AtStart, Undisturbed, OwnNames;
    DetectByTable(u, v, detectors[n]);
    LosesIff(v, detectors[n]);
  }

  lemma {:induction false} NothingLostIff(t: Table, detectors: seq<Detector>)
    requires OwnNames(detectors) && forall k :: 0 <= k < |detectors| ==> Undisturbed(detectors[k])
    ensures RunAll(t, detectors).lost == []
       <==> forall k :: 0 <= k < |detectors| ==> !LosesAt(t, detectors, k)
  {
    hide Undisturbed, LosesAt;
    if detectors != [] {
      var n := |detectors| - 1;
      var before := detectors[..n];
      assert OwnNames(before);
      hide OwnNames;
      NothingLostIff(t, before);
      LastLoses(t, detectors);
      hide RunAll;
      forall k | 0 <= k < n ensures LosesAt(t, before, k) <==> LosesAt(t, detectors, k) {
        LosesInPrefix(t, detectors, n, k);
      }
    }
  }

  /** run_all returns every row it opened iff no detector opens a row at one entity
      and, at a later one, finds a resolved incident with the same first-seen time
      and no open one: all of it read off the table before the job. */
  lemma ReturnsAllIff(t: Table, detectors: seq<Detector>)
    requires OwnNames(detectors) && forall k :: 0 <= k < |detectors| ==> Undisturbed(detectors[k])
    ensures RunAll(t, detectors).returned == RunAll(t, detectors).added
       <==> forall k :: 0 <= k < |detectors| ==> !LosesAt(t, detectors, k)
  {
    hide RunAll, LosesAt;
    ReturnedPlusLost(t, detectors);
    NothingLostIff(t, detectors);
  }
}
