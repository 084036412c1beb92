/** Silent-source checks that overlap (the scheduler and the run-now route of
    app.py): record_observation reads which incident is open in one section and
    writes in another. */
module OverlappingChecks {
  import opened Wrappers
  import opened SilentSources

  /** A check between its halves: the source and the row it found open. */
  datatype Pending = Pending(source: string, found: Option<nat>)

  datatype Shared = Shared(table: Table, pending: map<nat, Pending>)

  datatype Act = Read(check: nat, source: string) | Write(check: nat, o: Observation)

  predicate Enabled(s: Shared, a: Act) {
    a.Write? ==> a.check in s.pending && s.pending[a.check].source == a.o.source
  }

  function Next(s: Shared, a: Act): Shared {
    match a
    case Read(c, source) => s.(pending := s.pending[c := Pending(source, Found(s.table.rows, source))])
    case Write(c, o) =>
      if Enabled(s, a) then Shared(Commit(s.table, o, s.pending[c].found), s.pending - {c}) else s
  }

  function Run(acts: seq<Act>): Shared {
    if acts == [] then Shared(START.table, map[]) else Next(Run(acts[..|acts| - 1]), acts[|acts| - 1])
  }

  /** How many incidents of the source are open. */
  function OpenCount(rows: seq<Incident>, source: string): nat {
    if rows == [] then 0
    else OpenCount(rows[..|rows| - 1], source) + (if OpenFor(rows[|rows| - 1], source) then 1 else 0)
  }

  predicate StillOpen(t: Table, found: Option<nat>) {
    found.Some? && found.value < |t.rows| && t.rows[found.value].resolvedAt.None?
  }

  // ---- one write ---------------------------------------------------------------

  lemma CountSnoc(rows: seq<Incident>, r: Incident, source: string)
    ensures OpenCount(rows + [r], source) == OpenCount(rows, source) + if OpenFor(r, source) then 1 else 0
  {
    assert (rows + [r])[..|rows|] == rows;
  }

  lemma {:induction false} CountUpdate(rows: seq<Incident>, i: nat, r: Incident, source: string)
    requires i < |rows|
    ensures OpenCount(rows[i := r], source)
         == OpenCount(rows, source) - (if OpenFor(rows[i], source) then 1 else 0) + if OpenFor(r, source) then 1 else 0
  {
    var n := |rows| - 1;
    assert rows == rows[..n] + [rows[n]];
    CountSnoc(rows[..n], rows[n], source);
    if i < n {
      CountUpdate(rows[..n], i, r, source);
      assert rows[i := r] == rows[..n][i := r] + [rows[n]];
      CountSnoc(rows[..n][i := r], rows[n], source);
    } else {
      assert rows[i := r] == rows[..n] + [r];
      CountSnoc(rows[..n], r, source);
    }
  }

  lemma {:induction false} NoneFoundIff(rows: seq<Incident>, source: string)
    ensures Found(rows, source).None? <==> OpenCount(rows, source) == 0
  {
    if rows != [] {
      NoneFoundIff(rows[..|rows| - 1], source);
    }
  }

  /** What was found is a row of the source. */
  predicate Fits(t: Table, p: Pending) {
    p.found.Some? ==> p.found.value < |t.rows| && t.rows[p.found.value].source == p.source
  }

  /** The open incidents of a source before and after a write. */
  lemma CommitCounts(t: Table, o: Observation, found: Option<nat>, source: string)
    requires Fits(t, Pending(o.source, found))
    ensures OpenCount(Commit(t, o, found).rows, source) == OpenCount(t.rows, source)
              + if source != o.source then 0
                else if Silent(o) then (if found.None? then 1 else 0)
                else if StillOpen(t, found) then -1
                else 0
  {
    hide Silent, Gap, LimitFor;
    match found
    case Some(i) =>
      var r := if Silent(o) then t.rows[i].(gap := Gap(o), lastSeen := o.lastSeen) else t.rows[i].(resolvedAt := Some(o.now));
      CountUpdate(t.rows, i, r, source);
    case None =>
      CountSnoc(t.rows, NewRow(o, t.nextId), source);
  }

  // ---- runs ---------------------------------------------------------------------

  ghost predicate AllFit(s: Shared) {
    forall c :: c in s.pending ==> Fits(s.table, s.pending[c])
  }

  lemma CommitKeepsFits(t: Table, o: Observation, found: Option<nat>, p: Pending)
    requires Fits(t, p)
    ensures Fits(Commit(t, o, found), p)
  {
    hide Silent, Gap, LimitFor;
  }

  lemma NextKeepsFits(s: Shared, a: Act)
    requires AllFit(s)
    ensures AllFit(Next(s, a))
  {
    if a.Write? && Enabled(s, a) {
      forall c | c in s.pending ensures Fits(Commit(s.table, a.o, s.pending[a.check].found), s.pending[c]) {
        CommitKeepsFits(s.table, a.o, s.pending[a.check].found, s.pending[c]);
      }
    }
    hide Commit;
  }

  lemma {:induction false} RunFits(acts: seq<Act>)
    ensures AllFit(Run(acts))
  {
    if acts != [] {
      RunFits(acts[..|acts| - 1]);
      NextKeepsFits(Run(acts[..|acts| - 1]), acts[|acts| - 1]);
    }
  }

  /** A check's finding stays what it read until it writes. */
  lemma {:induction false} FoundAtRead(before: seq<Act>, check: nat, source: string, between: seq<Act>)
    requires forall a :: a in between ==> a.check != check
    ensures check in Run(before + [Read(check, source)] + between).pending
    ensures Run(before + [Read(check, source)] + between).pending[check] == Pending(source, Found(Run(before).table.rows, source))
  {
    var start := before + [Read(check, source)];
    var acts := start + between;
    hide Commit, Found;
    if between == [] {
      assert acts[..|acts| - 1] == before && acts[|acts| - 1] == Read(check, source);
    } else {
      var n := |between| - 1;
      FoundAtRead(before, check, source, between[..n]);
      assert acts[..|acts| - 1] == start + between[..n] && acts[|acts| - 1] == between[n];
      assert between[n] in between;
    }
  }

  /** A check reads, others read and write, it writes: for a silent source one more
      incident is open iff none was open at the read; for a healthy one the
      incident found at the read is resolved if it is still open, and no other. */
  lemma WriteCounts(before: seq<Act>, check: nat, between: seq<Act>, o: Observation)
    requires forall a :: a in between ==> a.check != check
    ensures
      var read, run := Run(before), before + [Read(check, o.source)] + between;
      var s, s' := Run(run), Next(Run(run), Write(check, o));
      var count, count' := OpenCount(s.table.rows, o.source), OpenCount(s'.table.rows, o.source);
      && Enabled(s, Write(check, o))
      && (Silent(o) ==> count' == if OpenCount(read.table.rows, o.source) == 0 then count + 1 else count)
      && (!Silent(o) ==> count' == if StillOpen(s.table, Found(read.table.rows, o.source)) then count - 1 else count)
  {
    var run := before + [Read(check, o.source)] + between;
    var s, found := Run(run), Found(Run(before).table.rows, o.source);
    FoundAtRead(before, check, o.source, between);
    RunFits(run);
    NoneFoundIff(Run(before).table.rows, o.source);
    assert Fits(s.table, s.pending[check]);
    hide Run, Silent, Found, Commit;
    CommitCounts(s.table, o, found, o.source);
  }

  /** A write for a silent source that had no open incident at its read and has one
      now. */
  predicate Doubles(s: Shared, a: Act) {
    a.Write? && Enabled(s, a) && Silent(a.o) && s.pending[a.check].found.None? && OpenCount(s.table.rows, a.o.source) > 0
  }

  ghost predicate AtMostOne(s: Shared) {
    forall source :: OpenCount(s.table.rows, source) <= 1
  }

  /** In every state of the run no source has two open incidents. */
  ghost predicate AlwaysAtMostOne(acts: seq<Act>) {
    acts == [] || (AlwaysAtMostOne(acts[..|acts| - 1]) && AtMostOne(Run(acts)))
  }

  predicate NeverDoubles(acts: seq<Act>) {
    acts == [] || (NeverDoubles(acts[..|acts| - 1]) && !Doubles(Run(acts[..|acts| - 1]), acts[|acts| - 1]))
  }

  lemma NextIsSingleIff(s: Shared, a: Act)
    requires AllFit(s) && AtMostOne(s)
    ensures AtMostOne(Next(s, a)) <==> !Doubles(s, a)
  {
    if a.Write? && Enabled(s, a) {
      var o, found := a.o, s.pending[a.check].found;
      var s' := Next(s, a);
      assert Fits(s.table, s.pending[a.check]);
      hide Silent, Commit;
      forall source
        ensures OpenCount(s'.table.rows, source) <= 1 <==> source != o.source || !Doubles(s, a)
      {
        assert OpenCount(s.table.rows, source) <= 1;
        CommitCounts(s.table, o, found, source);
      }
      hide Doubles, OpenCount;
      assert OpenCount(s'.table.rows, o.source) <= 1 <==> !Doubles(s, a);
    }
  }

  /** However checks overlap, no source ever has two open incidents iff no write
      for a silent source finds one open that was not open at its read. */
  lemma {:induction false} TwoOpenIff(acts: seq<Act>)
    ensures AlwaysAtMostOne(acts) <==> NeverDoubles(acts)
  {
    if acts != [] {
      var n := |acts| - 1;
      TwoOpenIff(acts[..n]);
      RunFits(acts[..n]);
      if AlwaysAtMostOne(acts[..n]) {
        if n == 0 {
          assert AtMostOne(Run(acts[..n]));
        }
        hide Doubles, AtMostOne, AllFit, Next;
        NextIsSingleIff(Run(acts[..n]), acts[n]);
      }
    }
  }

  /** So two checks of one silent source that both read before either writes leave
      two open incidents. */
  lemma TwoChecksOpenTwo(s: Shared, c: nat, d: nat, a: Observation, b: Observation)
    requires c != d && a.source == b.source && Silent(a) && Silent(b) && OpenCount(s.table.rows, a.source) == 0
    ensures var read := Next(Next(s, Read(c, a.source)), Read(d, b.source));
      OpenCount(Next(Next(read, Write(c, a)), Write(d, b)).table.rows, a.source) == 2
  {
    var read := Next(Next(s, Read(c, a.source)), Read(d, b.source));
    NoneFoundIff(s.table.rows, a.source);
    hide Silent, Found, OpenCount;
    CommitCounts(s.table, a, None, a.source);
    CommitCounts(Commit(s.table, a, None), b, None, a.source);
    hide Commit;
  }
}
