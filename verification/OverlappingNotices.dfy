/** What overlapping silent-source checks announce (app.py: the check job notifies an
    incident that record_observation returned unmarked, then marks it): when one
    incident is announced twice. */
module OverlappingNotices {
  import opened Wrappers
  import opened SilentSources
  import opened C = OverlappingChecks

  /** `due` are the incidents checks were handed unmarked and have not announced,
      `marking` those announced and not marked, one entry for each check; `handed` all
      ever handed out. */
  datatype Notices = Notices(s: Shared, due: seq<nat>, marking: seq<nat>, sent: seq<nat>, handed: seq<nat>)

  datatype Turn = Check(a: C.Act) | Announce(k: nat) | Mark(k: nat)

  function Without(ids: seq<nat>, k: nat): seq<nat>
    requires k < |ids|
  {
    ids[..k] + ids[k + 1..]
  }

  /** The row a write returns, if it returns one: the row found, or the new one. */
  function Returned(s: Shared, a: C.Act): Option<Incident> {
    if !a.Write? || !C.Enabled(s, a) || !Silent(a.o) then None
    else
      var rows := Commit(s.table, a.o, s.pending[a.check].found).rows;
      match s.pending[a.check].found
      case Some(i) => if i < |rows| then Some(rows[i]) else None
      case None => Some(NewRow(a.o, s.table.nextId))
  }

  /** The ids a write hands to its check for announcing: its row's, if unmarked. */
  function HandedBy(s: Shared, a: C.Act): seq<nat> {
    match Returned(s, a)
    case Some(row) => if row.notified then [] else [row.id]
    case None => []
  }

  function Next(n: Notices, a: Turn): Notices {
    match a
    case Check(b) =>
      var ids := HandedBy(n.s, b);
      n.(s := C.Next(n.s, b), due := n.due + ids, handed := n.handed + ids)
    case Announce(k) =>
      if k >= |n.due| then n
      else n.(due := Without(n.due, k), marking := n.marking + [n.due[k]], sent := n.sent + [n.due[k]])
    case Mark(k) =>
      if k >= |n.marking| then n
      else
        var t := n.s.table;
        n.(s := n.s.(table := t.(rows := MarkNotified(t.rows, n.marking[k]))), marking := Without(n.marking, k))
  }

  const START := Notices(Shared(Table([], 1), map[]), [], [], [], [])

  function Run(turns: seq<Turn>): Notices {
    if turns == [] then START else Next(Run(turns[..|turns| - 1]), turns[|turns| - 1])
  }

  // ---- the account of an id ---------------------------------------------------------

  ghost predicate Numbered(t: Table) {
    t.nextId == |t.rows| + 1 && forall i :: 0 <= i < |t.rows| ==> t.rows[i].id == i + 1
  }

  /** A row handed out and not marked is still in the hands of a check, and only such. */
  ghost predicate InHand(n: Notices) {
    && (forall i :: 0 <= i < |n.s.table.rows| && !n.s.table.rows[i].notified ==>
          (n.s.table.rows[i].id in n.handed <==> n.s.table.rows[i].id in n.due || n.s.table.rows[i].id in n.marking))
    && (forall id :: id in n.handed ==> 1 <= id <= |n.s.table.rows|)
    && (forall id :: id in n.due || id in n.marking ==> id in n.handed)
  }

  ghost predicate Counted(n: Notices) {
    Bag(n.handed) == Bag(n.sent) + Bag(n.due)
  }

  function Bag(ids: seq<nat>): multiset<nat> {
    multiset(ids)
  }

  lemma BagOfSum(a: seq<nat>, b: seq<nat>)
    ensures Bag(a + b) == Bag(a) + Bag(b)
  {
  }

  lemma BagWithout(ids: seq<nat>, k: nat)
    requires k < |ids|
    ensures Bag(ids) == Bag([ids[k]]) + Bag(Without(ids, k))
  {
    assert ids == ids[..k] + ([ids[k]] + ids[k + 1..]);
    hide Bag;
    BagOfSum(ids[..k], [ids[k]] + ids[k + 1..]);
    BagOfSum([ids[k]], ids[k + 1..]);
    BagOfSum(ids[..k], ids[k + 1..]);
  }

  lemma MembersWithout(ids: seq<nat>, k: nat)
    requires k < |ids|
    ensures forall id :: id in ids <==> id == ids[k] || id in Without(ids, k)
  {
    assert ids == ids[..k] + ([ids[k]] + ids[k + 1..]);
  }

  ghost predicate Sound(n: Notices) {
    Numbered(n.s.table) && C.AllFit(n.s) && InHand(n) && Counted(n)
  }

  // ---- each turn keeps it -------------------------------------------------------------

  /** A write keeps every row's id and mark, and may add an unmarked row. */
  lemma CheckShape(s: Shared, a: C.Act)
    requires Numbered(s.table) && C.AllFit(s)
    ensures var rows, rows' := s.table.rows, C.Next(s, a).table.rows;
      && Numbered(C.Next(s, a).table)
      && |rows| <= |rows'| <= |rows| + 1
      && (forall i :: 0 <= i < |rows| ==> rows'[i].id == rows[i].id && rows'[i].notified == rows[i].notified)
      && (|rows| < |rows'| ==> !rows'[|rows|].notified && HandedBy(s, a) == [rows'[|rows|].id])
      && (HandedBy(s, a) == [] || exists i :: 0 <= i < |rows'| && HandedBy(s, a) == [rows'[i].id] && !rows'[i].notified)
  {
    hide Silent, Gap, LimitFor, OpenIndex;
    if a.Write? && C.Enabled(s, a) {
      assert C.Fits(s.table, s.pending[a.check]);
      if HandedBy(s, a) != [] {
        var rows', p := C.Next(s, a).table.rows, s.pending[a.check].found;
        var i := if p.Some? then p.value else |s.table.rows|;
        assert HandedBy(s, a) == [rows'[i].id] && !rows'[i].notified;
      }
    }
  }

  lemma CheckKeepsSound(n: Notices, a: C.Act)
    requires Sound(n)
    ensures Sound(Next(n, Check(a)))
  {
    var ids, t := HandedBy(n.s, a), Next(n, Check(a));
    CheckShape(n.s, a);
    C.NextKeepsFits(n.s, a);
    assert Counted(t) by {
      BagOfSum(n.handed, ids);
      BagOfSum(n.due, ids);
      hide Bag;
      MoreOfBoth(Bag(n.sent), Bag(n.due), Bag(ids));
    }
    hide Bag, HandedBy, C.Next, C.AllFit;
  }

  lemma MoreOfBoth(a: multiset<nat>, b: multiset<nat>, c: multiset<nat>)
    ensures (a + b) + c == a + (b + c)
  {
  }

  lemma AnnounceKeepsSound(n: Notices, k: nat)
    requires Sound(n)
    ensures Sound(Next(n, Announce(k)))
  {
    if k < |n.due| {
      var t := Next(n, Announce(k));
      MembersWithout(n.due, k);
      assert Counted(t) by {
        BagWithout(n.due, k);
        BagOfSum(n.sent, [n.due[k]]);
        hide Bag, Without;
        MoreOfBoth(Bag(n.sent), Bag([n.due[k]]), Bag(t.due));
      }
      hide Bag, Without, C.AllFit, Numbered;
    }
  }

  lemma MarkKeepsSound(n: Notices, k: nat)
    requires Sound(n)
    ensures Sound(Next(n, Mark(k)))
  {
    if k < |n.marking| {
      var t := Next(n, Mark(k));
      MembersWithout(n.marking, k);
      MarkKeepsFits(n.s, n.marking[k]);
      hide Bag, Without, C.AllFit, MarkNotified;
    }
  }

  lemma MarkKeepsFits(s: Shared, id: nat)
    requires C.AllFit(s)
    ensures C.AllFit(s.(table := s.table.(rows := MarkNotified(s.table.rows, id))))
  {
    hide MarkNotified;
  }

  lemma {:induction false} RunKeepsSound(turns: seq<Turn>)
    ensures Sound(Run(turns))
  {
    if turns != [] {
      var n, a := Run(turns[..|turns| - 1]), turns[|turns| - 1];
      RunKeepsSound(turns[..|turns| - 1]);
      hide Sound, Next;
      match a
      case Check(b) => CheckKeepsSound(n, b);
      case Announce(k) => AnnounceKeepsSound(n, k);
      case Mark(k) => MarkKeepsSound(n, k);
    }
  }

  // ---- announced twice ------------------------------------------------------------------

  /** A write returns, unmarked, an incident another check has been handed and not yet
      marked. */
  predicate Rehands(n: Notices, a: Turn) {
    && a.Check? && Returned(n.s, a.a).Some? && !Returned(n.s, a.a).value.notified
    && var id := Returned(n.s, a.a).value.id; id in n.due || id in n.marking
  }

  predicate NeverRehands(turns: seq<Turn>) {
    turns == [] || (NeverRehands(turns[..|turns| - 1]) && !Rehands(Run(turns[..|turns| - 1]), turns[|turns| - 1]))
  }

  predicate Once(ids: seq<nat>) {
    forall i, j :: 0 <= i < j < |ids| ==> ids[i] != ids[j]
  }

  lemma RehandsIff(n: Notices, a: Turn)
    requires Sound(n)
    ensures Once(Next(n, a).handed) <==> Once(n.handed) && !Rehands(n, a)
  {
    if a.Check? {
      CheckShape(n.s, a.a);
      var ids, rows' := HandedBy(n.s, a.a), C.Next(n.s, a.a).table.rows;
      assert ids != [] ==> (ids[0] in n.handed <==> ids[0] in n.due || ids[0] in n.marking) by {
        if ids != [] {
          var i :| 0 <= i < |rows'| && ids == [rows'[i].id] && !rows'[i].notified;
          assert i < |n.s.table.rows| ==> n.s.table.rows[i].id == ids[0] && !n.s.table.rows[i].notified;
          assert i == |n.s.table.rows| ==> ids[0] == |n.s.table.rows| + 1;
        }
      }
      assert Rehands(n, a) <==> ids != [] && (ids[0] in n.due || ids[0] in n.marking);
      hide *;
      OnceSnoc(n.handed, ids);
      HandedGrows(n, a);
    } else {
      hide Once;
    }
  }

  lemma HandedGrows(n: Notices, a: Turn)
    requires a.Check?
    ensures Next(n, a).handed == n.handed + HandedBy(n.s, a.a)
  {
  }

  lemma OnceSnoc(ids: seq<nat>, more: seq<nat>)
    requires |more| <= 1
    ensures Once(ids + more) <==> Once(ids) && (more != [] ==> more[0] !in ids)
  {
    var all := ids + more;
    if Once(all) {
      forall i, j | 0 <= i < j < |ids| ensures ids[i] != ids[j] {
        assert all[i] != all[j];
      }
      forall i | 0 <= i < |ids| && more != [] ensures ids[i] != more[0] {
        assert all[i] != all[|ids|];
      }
    }
  }

  lemma {:induction false} HandedOnceIff(turns: seq<Turn>)
    ensures Once(Run(turns).handed) <==> NeverRehands(turns)
  {
    if turns != [] {
      HandedOnceIff(turns[..|turns| - 1]);
      RunKeepsSound(turns[..|turns| - 1]);
      hide Sound, Rehands, Next, Once;
      RehandsIff(Run(turns[..|turns| - 1]), turns[|turns| - 1]);
    }
  }

  lemma {:induction false} OnceIsCount(ids: seq<nat>)
    ensures Once(ids) <==> forall id :: Bag(ids)[id] <= 1
  {
    if ids != [] {
      var before, last := ids[..|ids| - 1], ids[|ids| - 1];
      OnceIsCount(before);
      assert ids == before + [last];
      OnceSnoc(before, [last]);
      hide Once;
      assert Bag(ids) == Bag(before) + multiset{last};
      assert last in before <==> Bag(before)[last] >= 1;
      if Once(ids) {
        forall id ensures Bag(ids)[id] <= 1 {
          assert Bag(before)[id] <= 1;
        }
      } else if Once(before) {
        assert Bag(ids)[last] >= 2;
      } else {
        var id :| Bag(before)[id] > 1;
        assert Bag(ids)[id] > 1;
      }
    }
  }

  /** When all announcements have been made: no incident was announced twice iff no
      write returned one unmarked that another check had in hand. */
  lemma AnnouncedOnceIff(turns: seq<Turn>)
    requires Run(turns).due == []
    ensures Once(Run(turns).sent) <==> NeverRehands(turns)
  {
    var n := Run(turns);
    RunKeepsSound(turns);
    HandedOnceIff(turns);
    assert Bag(n.handed) == Bag(n.sent);
    hide *;
    OnceIsCount(n.handed);
    OnceIsCount(n.sent);
  }

  /** Reading the table, then writing: one check on its own. */
  function ChecksOnce(c: nat, o: Observation): seq<Turn> {
    [Check(Read(c, o.source)), Check(C.Act.Write(c, o))]
  }

  function AfterCheck(n: Notices, c: nat, o: Observation): Notices {
    Next(Next(n, Check(Read(c, o.source))), Check(C.Act.Write(c, o)))
  }

  const ANNOUNCE_BOTH := [Announce(0), Announce(0)]

  /** A second check that reads and writes between the first one's write and its mark:
      both announce the incident. */
  function TwoNotices(c: nat, d: nat, a: Observation, b: Observation): seq<Turn> {
    ChecksOnce(c, a) + ChecksOnce(d, b) + ANNOUNCE_BOTH
  }

  lemma OneIncidentTwice(c: nat, d: nat, a: Observation, b: Observation)
    requires c != d && a.source == b.source && Silent(a) && Silent(b)
    ensures Run(TwoNotices(c, d, a, b)).sent == [1, 1]
  {
    hide *;
    TwoNoticesRun(c, d, a, b);
    FirstIsTold(c, a);
    RowIs(a, 1);
    SecondIsTold(AfterCheck(START, c, a), d, b);
    TwoAreSent(AfterCheck(AfterCheck(START, c, a), d, b));
  }

  lemma RunPair(turns: seq<Turn>, a: Turn, b: Turn)
    ensures Run(turns + [a, b]) == Next(Next(Run(turns), a), b)
  {
    hide Next;
    assert (turns + [a, b])[..|turns| + 1] == turns + [a] && (turns + [a])[..|turns|] == turns;
  }

  lemma RunCheck(turns: seq<Turn>, c: nat, o: Observation)
    ensures Run(turns + ChecksOnce(c, o)) == AfterCheck(Run(turns), c, o)
  {
    hide Run, Next;
    RunPair(turns, Check(Read(c, o.source)), Check(C.Act.Write(c, o)));
  }

  lemma TwoNoticesRun(c: nat, d: nat, a: Observation, b: Observation)
    ensures var n := AfterCheck(AfterCheck(START, c, a), d, b);
      Run(TwoNotices(c, d, a, b)) == Next(Next(n, Announce(0)), Announce(0))
  {
    hide Run, Next, AfterCheck, ChecksOnce;
    RunNone();
    assert [] + ChecksOnce(c, a) == ChecksOnce(c, a);
    RunCheck([], c, a);
    RunCheck(ChecksOnce(c, a), d, b);
    RunPair(ChecksOnce(c, a) + ChecksOnce(d, b), Announce(0), Announce(0));
  }

  lemma RunNone()
    ensures Run([]) == START
  {
  }

  lemma FirstIsTold(c: nat, a: Observation)
    requires Silent(a)
    ensures AfterCheck(START, c, a) == Notices(Shared(Table([NewRow(a, 1)], 2), map[]), [1], [], [], [1])
  {
    hide Silent, NewRow;
    assert NewRow(a, 1).id == 1 && !NewRow(a, 1).notified by {
      RowIs(a, 1);
    }
    assert Found([], a.source) == None;
    assert (map[c := C.Pending(a.source, None)]) - {c} == map[];
  }

  lemma RowIs(o: Observation, id: nat)
    ensures NewRow(o, id).id == id && !NewRow(o, id).notified && OpenFor(NewRow(o, id), o.source)
  {
  }

  lemma SecondIsTold(n: Notices, d: nat, b: Observation)
    requires Silent(b) && |n.s.table.rows| == 1 && OpenFor(n.s.table.rows[0], b.source)
    requires n.s.table.rows[0].id == 1 && !n.s.table.rows[0].notified && n.due == [1] && n.sent == []
    ensures var n' := AfterCheck(n, d, b); n'.due == [1, 1] && n'.sent == []
  {
    hide Silent;
    assert Found(n.s.table.rows, b.source) == Some(0);
  }

  lemma TwoAreSent(n: Notices)
    requires n.due == [1, 1] && n.sent == []
    ensures Next(Next(n, Announce(0)), Announce(0)).sent == [1, 1]
  {
  }
}
