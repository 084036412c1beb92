/** Correlation jobs that overlap (app.py: in every worker process the scheduler and
    the run-now route start _correlations_run_job). The lock of correlations.py is
    one process's; the processes share the table. So the SELECT and the write of a
    record are two steps, and so is every other statement of every job. */
module OverlappingJobs {
  import opened Wrappers
  import opened Incidents
  import opened IncidentJobs

  /** A row a job has opened. */
  datatype Item = Item(job: nat, id: nat)

  /** A record between its SELECT and its write: the job, the pair, the row found. */
  datatype Pending = Pending(job: nat, detector: string, entity: string, found: Option<nat>)

  /** `pending` is by process; `held` are the rows in the local lists of running
      detectors, `due` those run_all has and the job has not announced. */
  datatype Shared = Shared(
    table: Table, pending: map<nat, Pending>, held: seq<Item>, due: seq<Item>, sent: seq<nat>, lost: seq<nat>)

  datatype Act =
    | Look(process: nat, job: nat, detector: string, entity: string)
    | Write(process: nat, o: Observation)
    | EndDetector(job: nat)
    | Announce(process: nat, job: nat)
    | Analyse(process: nat, a: AnalystStep)

  function Of(items: seq<Item>, job: nat): (r: seq<Item>) {
    if items == [] then []
    else if items[0].job == job then [items[0]] + Of(items[1..], job)
    else Of(items[1..], job)
  }

  function Rest(items: seq<Item>, job: nat): (r: seq<Item>) {
    if items == [] then []
    else if items[0].job == job then Rest(items[1..], job)
    else [items[0]] + Rest(items[1..], job)
  }

  function ItemIds(items: seq<Item>): (r: seq<nat>)
    ensures |r| == |items| && forall i :: 0 <= i < |items| ==> r[i] == items[i].id
  {
    if items == [] then [] else [items[0].id] + ItemIds(items[1..])
  }

  /** The job's first row due; the number of rows due if it has none. */
  function FirstDue(items: seq<Item>, job: nat): (i: nat)
    ensures i <= |items|
    ensures i < |items| ==> items[i].job == job
  {
    if items == [] || items[0].job == job then 0 else 1 + FirstDue(items[1..], job)
  }

  /** The lock is the process's own: between the two halves of a record none of
      its other threads touches the table. */
  predicate Enabled(s: Shared, a: Act) {
    match a
    case Write(p, o) => p in s.pending && s.pending[p].detector == o.detector && s.pending[p].entity == o.entity
    case EndDetector(_) => true
    case _ => a.process !in s.pending
  }

  /** A clash ends the detector and its list is gone. */
  function Written(s: Shared, process: nat, o: Observation): Shared
    requires process in s.pending
  {
    var p := s.pending[process];
    var s' := s.(table := DoWrite(s.table, p.found, o), pending := s.pending - {process});
    match WriteOutcome(s.table, p.found, o)
    case Opened(row) => s'.(held := s.held + [Item(p.job, row.id)])
    case Refreshed => s'
    case KeyClash => s'.(held := Rest(s.held, p.job), lost := s.lost + ItemIds(Of(s.held, p.job)))
  }

  function Announced(s: Shared, job: nat): Shared {
    var i := FirstDue(s.due, job);
    if i == |s.due| then s
    else
      var id := s.due[i].id;
      s.(table := Step(s.table, MarkNotified(id)), due := s.due[..i] + s.due[i + 1..], sent := s.sent + [id])
  }

  function Next(s: Shared, a: Act): Shared {
    if !Enabled(s, a) then s
    else
      match a
      case Look(p, job, d, e) => s.(pending := s.pending[p := Pending(job, d, e, Lookup(s.table.rows, d, e))])
      case Write(p, o) => Written(s, p, o)
      case EndDetector(job) => s.(held := Rest(s.held, job), due := s.due + Of(s.held, job))
      case Announce(_, job) => Announced(s, job)
      case Analyse(_, a) => s.(table := Step(s.table, a))
  }

  const START := Shared(Table([], 1), map[], [], [], [], [])

  function Run(acts: seq<Act>): Shared {
    if acts == [] then START else Next(Run(acts[..|acts| - 1]), acts[|acts| - 1])
  }

  // ---- bags of ids ---------------------------------------------------------------

  /** The ids with their multiplicities. */
  function Bag(ids: seq<nat>): multiset<nat> {
    multiset(ids)
  }

  lemma BagOfSum(a: seq<nat>, b: seq<nat>)
    ensures Bag(a + b) == Bag(a) + Bag(b)
  {
  }

  lemma BagsAddUp(a: multiset<nat>, b: multiset<nat>, c: multiset<nat>)
    ensures (a + b) + c == (a + c) + b == a + (b + c)
  {
  }

  lemma {:induction false} IdsOfSum(a: seq<Incident>, b: seq<Incident>)
    ensures Ids(a + b) == Ids(a) + Ids(b)
  {
  }

  lemma SameIds(a: seq<Incident>, b: seq<Incident>)
    requires |a| == |b| && forall i :: 0 <= i < |a| ==> a[i].id == b[i].id
    ensures Ids(a) == Ids(b)
  {
  }

  /** Rows with ids of their own, split into announced and lost. */
  lemma EachOnce(rows: seq<Incident>, sent: seq<nat>, lost: seq<nat>)
    requires forall i :: 0 <= i < |rows| ==> rows[i].id == i + 1
    requires Bag(Ids(rows)) == Bag(sent) + Bag(lost)
    requires forall i :: 0 <= i < |rows| ==> (rows[i].notified <==> rows[i].id in sent)
    ensures forall i, j :: 0 <= i < j < |sent| ==> sent[i] != sent[j]
    ensures forall id :: id in sent ==> id !in lost
    ensures (forall i :: 0 <= i < |rows| ==> rows[i].notified) <==> lost == []
  {
    var ids := Ids(rows);
    hide Ids;
    DistinctHaveCountOne(ids);
    forall i, j | 0 <= i < j < |sent| ensures sent[i] != sent[j] {
      assert multiset(sent)[sent[i]] <= multiset(ids)[sent[i]];
      if sent[i] == sent[j] {
        TwiceCounts(sent, i, j);
      }
    }
    forall id | id in sent ensures id !in lost {
      assert multiset(sent)[id] + multiset(lost)[id] == multiset(ids)[id];
    }
    if lost != [] {
      assert lost[0] in multiset(lost);
      assert lost[0] in multiset(ids);
      var i :| 0 <= i < |ids| && ids[i] == lost[0];
      assert !rows[i].notified;
    } else {
      forall i | 0 <= i < |rows| ensures rows[i].notified {
        assert ids[i] in multiset(ids);
        assert ids[i] in multiset(sent);
      }
    }
  }

  lemma {:induction false} DistinctHaveCountOne(ids: seq<nat>)
    requires forall i, j :: 0 <= i < j < |ids| ==> ids[i] != ids[j]
    ensures forall id :: multiset(ids)[id] <= 1
  {
    if ids != [] {
      var n := |ids| - 1;
      DistinctHaveCountOne(ids[..n]);
      assert ids == ids[..n] + [ids[n]];
      assert multiset(ids) == multiset(ids[..n]) + multiset{ids[n]};
      assert ids[n] !in ids[..n];
    }
  }

  lemma TwiceCounts(s: seq<nat>, i: nat, j: nat)
    requires i < j < |s| && s[i] == s[j]
    ensures multiset(s)[s[i]] >= 2
  {
    assert s == s[..j] + s[j..];
    assert s[i] in s[..j] && s[j] == s[j..][0];
    assert s[j] in s[j..];
    assert multiset(s) == multiset(s[..j]) + multiset(s[j..]);
  }

  // ---- every row is in one place ------------------------------------------------

  /** The ids of everything opened, place by place. */
  function Places(s: Shared): multiset<nat> {
    Bag(s.sent) + Bag(s.lost) + (ItemBag(s.held) + ItemBag(s.due))
  }

  /** Rows carry the ids 1, 2, 3, ...; each is in exactly one place; and a row is
      marked iff it was announced. */
  ghost predicate Accounted(s: Shared) {
    && s.table.nextId == |s.table.rows| + 1
    && Numbered(s.table.rows)
    && Bag(Ids(s.table.rows)) == Places(s)
    && MarkedIffSent(s.table.rows, s.sent)
  }

  ghost predicate Numbered(rows: seq<Incident>) {
    forall i :: 0 <= i < |rows| ==> rows[i].id == i + 1
  }

  ghost predicate MarkedIffSent(rows: seq<Incident>, sent: seq<nat>) {
    forall i :: 0 <= i < |rows| ==> (rows[i].notified <==> rows[i].id in sent)
  }

  function ItemBag(items: seq<Item>): multiset<nat> {
    Bag(ItemIds(items))
  }

  lemma ItemBagOfSum(a: seq<Item>, b: seq<Item>)
    ensures ItemBag(a + b) == ItemBag(a) + ItemBag(b)
  {
    hide ItemIds;
    assert ItemIds(a + b) == ItemIds(a) + ItemIds(b);
    BagOfSum(ItemIds(a), ItemIds(b));
  }

  lemma ItemBagOfOne(x: Item)
    ensures ItemBag([x]) == Bag([x.id])
  {
    assert ItemIds([x]) == [x.id];
  }

  lemma Unfold(items: seq<Item>, job: nat)
    requires items != []
    ensures items == [items[0]] + items[1..]
    ensures Of(items, job) == if items[0].job == job then [items[0]] + Of(items[1..], job) else Of(items[1..], job)
    ensures Rest(items, job) == if items[0].job == job then Rest(items[1..], job) else [items[0]] + Rest(items[1..], job)
  {
  }

  lemma {:induction false} OfAndRest(items: seq<Item>, job: nat)
    ensures ItemBag(items) == ItemBag(Of(items, job)) + ItemBag(Rest(items, job))
  {
    if items == [] {
      assert Of(items, job) == [] && Rest(items, job) == [];
    } else {
      OfAndRest(items[1..], job);
      Unfold(items, job);
      hide ItemBag, Of, Rest;
      var x, of, others := [items[0]], Of(items[1..], job), Rest(items[1..], job);
      ItemBagOfSum(x, items[1..]);
      ItemBagOfSum(x, of);
      ItemBagOfSum(x, others);
      BagsAddUp(ItemBag(x), ItemBag(of), ItemBag(others));
      BagsSwap(ItemBag(of), ItemBag(x), ItemBag(others));
    }
  }

  lemma WithoutOne(items: seq<Item>, i: nat)
    requires i < |items|
    ensures ItemBag(items) == Bag([items[i].id]) + ItemBag(items[..i] + items[i + 1..])
  {
    hide *;
    var l, x, r := items[..i], [items[i]], items[i + 1..];
    assert items == l + (x + r);
    ItemBagOfSum(l, x + r);
    ItemBagOfSum(x, r);
    ItemBagOfSum(l, r);
    ItemBagOfOne(items[i]);
    BagsSwap(ItemBag(l), ItemBag(x), ItemBag(r));
  }

  lemma BagsSwap(l: multiset<nat>, x: multiset<nat>, r: multiset<nat>)
    ensures l + (x + r) == x + (l + r)
  {
  }

  // ---- the steps -----------------------------------------------------------------

  lemma SentIsOld(s: Shared)
    requires Accounted(s)
    ensures forall id :: id in s.sent ==> 1 <= id <= |s.table.rows|
  {
    var ids := Ids(s.table.rows);
    forall id | id in s.sent ensures 1 <= id <= |s.table.rows| {
      assert id in multiset(s.sent) && id in multiset(ids);
      var k :| 0 <= k < |ids| && ids[k] == id;
    }
  }

  lemma OpenKeepsAccount(s: Shared, job: nat, row: Incident)
    requires Accounted(s) && row.id == s.table.nextId && !row.notified
    ensures Accounted(s.(table := Table(s.table.rows + [row], s.table.nextId + 1), held := s.held + [Item(job, row.id)]))
  {
    SentIsOld(s);
    OpenMovesBags(s, job, row);
    RowOpened(s.table.rows, row, s.sent);
    hide Numbered, MarkedIffSent, Ids, Places;
  }

  lemma RowOpened(rows: seq<Incident>, row: Incident, sent: seq<nat>)
    requires Numbered(rows) && MarkedIffSent(rows, sent)
    requires row.id == |rows| + 1 && !row.notified && row.id !in sent
    ensures Numbered(rows + [row]) && MarkedIffSent(rows + [row], sent)
  {
  }

  lemma RowAnnounced(rows: seq<Incident>, id: nat, sent: seq<nat>)
    requires Numbered(rows) && MarkedIffSent(rows, sent)
    ensures Numbered(TouchAll(rows, MarkNotified(id))) && MarkedIffSent(TouchAll(rows, MarkNotified(id)), sent + [id])
    ensures Ids(TouchAll(rows, MarkNotified(id))) == Ids(rows)
  {
    var touched := TouchAll(rows, MarkNotified(id));
    SameIds(touched, rows);
    hide Ids, TouchAll;
    forall k | 0 <= k < |rows| ensures touched[k].notified <==> touched[k].id in sent + [id] {
      assert touched[k] == Touch(rows[k], MarkNotified(id));
    }
  }

  lemma OpenMovesBags(s: Shared, job: nat, row: Incident)
    requires Bag(Ids(s.table.rows)) == Places(s)
    ensures Bag(Ids(s.table.rows + [row])) == Places(s.(held := s.held + [Item(job, row.id)]))
  {
    IdsOfSum(s.table.rows, [row]);
    assert Ids([row]) == [row.id];
    hide Ids, ItemBag, Bag;
    BagOfSum(Ids(s.table.rows), [row.id]);
    ItemBagOfSum(s.held, [Item(job, row.id)]);
    ItemBagOfOne(Item(job, row.id));
    OneMore(Bag(s.sent), Bag(s.lost), ItemBag(s.held), ItemBag(s.due), Bag([row.id]));
  }

  lemma OneMore(a: multiset<nat>, b: multiset<nat>, c: multiset<nat>, d: multiset<nat>, x: multiset<nat>)
    ensures (a + b + (c + d)) + x == a + b + ((c + x) + d)
  {
  }

  /** The same table but for resolutions and cases, the bags only moved. */
  lemma MoveKeepsAccount(s: Shared, t: Shared)
    requires Accounted(s) && t.sent == s.sent && Places(t) == Places(s)
    requires |t.table.rows| == |s.table.rows| && t.table.nextId == s.table.nextId
    requires forall i :: 0 <= i < |s.table.rows| ==>
               t.table.rows[i].id == s.table.rows[i].id && t.table.rows[i].notified == s.table.rows[i].notified
    ensures Accounted(t)
  {
    hide Places;
    SameIds(t.table.rows, s.table.rows);
    hide Ids;
  }

  lemma MovesToLost(s: Shared, job: nat)
    ensures Places(s.(held := Rest(s.held, job), lost := s.lost + ItemIds(Of(s.held, job)))) == Places(s)
  {
    OfAndRest(s.held, job);
    var of := Of(s.held, job);
    BagOfSum(s.lost, ItemIds(of));
    assert ItemBag(of) == Bag(ItemIds(of));
    hide ItemBag, Bag;
    ToLost(Bag(s.sent), Bag(s.lost), ItemBag(of), ItemBag(Rest(s.held, job)), ItemBag(s.due));
  }

  lemma ToLost(a: multiset<nat>, b: multiset<nat>, x: multiset<nat>, r: multiset<nat>, d: multiset<nat>)
    ensures a + (b + x) + (r + d) == a + b + ((x + r) + d)
  {
  }

  lemma MovesToDue(s: Shared, job: nat)
    ensures Places(s.(held := Rest(s.held, job), due := s.due + Of(s.held, job))) == Places(s)
  {
    OfAndRest(s.held, job);
    var of := Of(s.held, job);
    ItemBagOfSum(s.due, of);
    hide ItemBag, Bag;
    ToDue(Bag(s.sent) + Bag(s.lost), ItemBag(of), ItemBag(Rest(s.held, job)), ItemBag(s.due));
  }

  lemma ToDue(a: multiset<nat>, x: multiset<nat>, r: multiset<nat>, d: multiset<nat>)
    ensures a + (r + (d + x)) == a + ((x + r) + d)
  {
  }

  lemma SamePlaces(s: Shared, t: Shared)
    requires t.held == s.held && t.due == s.due && t.sent == s.sent && t.lost == s.lost
    ensures Places(t) == Places(s)
  {
  }

  /** Only a record is no longer pending. */
  lemma SettledKeepsAccount(s: Shared, t: Shared)
    requires Accounted(s) && t == s.(pending := t.pending)
    ensures Accounted(t)
  {
    SamePlaces(s, t);
    hide Places;
  }

  lemma RefreshKeepsAccount(s: Shared, process: nat, o: Observation)
    requires Accounted(s) && process in s.pending && s.pending[process].found.Some?
    ensures Accounted(Written(s, process, o))
  {
    SamePlaces(s, Written(s, process, o));
    hide Places, Accounted;
    MoveKeepsAccount(s, Written(s, process, o));
  }

  lemma ClashKeepsAccount(s: Shared, process: nat, o: Observation)
    requires Accounted(s) && process in s.pending && WriteOutcome(s.table, s.pending[process].found, o).KeyClash?
    ensures Accounted(Written(s, process, o))
  {
    var t, job := Written(s, process, o), s.pending[process].job;
    var moved := s.(held := Rest(s.held, job), lost := s.lost + ItemIds(Of(s.held, job)));
    assert t == moved.(pending := t.pending);
    hide *;
    MovesToLost(s, job);
    MoveKeepsAccount(s, moved);
    SettledKeepsAccount(moved, t);
  }

  lemma InsertKeepsAccount(s: Shared, process: nat, o: Observation)
    requires Accounted(s) && process in s.pending && WriteOutcome(s.table, s.pending[process].found, o).Opened?
    ensures Accounted(Written(s, process, o))
  {
    var t, job := Written(s, process, o), s.pending[process].job;
    var row := WriteOutcome(s.table, s.pending[process].found, o).row;
    var grown := s.(table := Table(s.table.rows + [row], s.table.nextId + 1), held := s.held + [Item(job, row.id)]);
    assert t == grown.(pending := t.pending) && row.id == s.table.nextId && !row.notified;
    hide *;
    OpenKeepsAccount(s, job, row);
    SettledKeepsAccount(grown, t);
  }

  lemma WriteKeepsAccount(s: Shared, process: nat, o: Observation)
    requires Accounted(s) && process in s.pending
    ensures Accounted(Written(s, process, o))
  {
    hide Accounted, Written, KeyTaken;
    match WriteOutcome(s.table, s.pending[process].found, o)
    case Opened(_) => InsertKeepsAccount(s, process, o);
    case Refreshed => RefreshKeepsAccount(s, process, o);
    case KeyClash => ClashKeepsAccount(s, process, o);
  }

  lemma PlacesAre(s: Shared)
    ensures Places(s) == Bag(s.sent) + Bag(s.lost) + (ItemBag(s.held) + ItemBag(s.due))
  {
  }

  lemma AnnounceMovesBags(s: Shared, job: nat)
    ensures Places(Announced(s, job)) == Places(s)
  {
    var i, t := FirstDue(s.due, job), Announced(s, job);
    if i < |s.due| {
      var id := s.due[i].id;
      assert t.sent == s.sent + [id] && t.lost == s.lost && t.held == s.held && t.due == s.due[..i] + s.due[i + 1..];
      hide *;
      PlacesAre(s);
      PlacesAre(t);
      WithoutOne(s.due, i);
      BagOfSum(s.sent, [id]);
      ToSent(Bag(s.sent), Bag(s.lost), ItemBag(s.held), Bag([id]), ItemBag(t.due));
    }
  }

  lemma AnnounceKeepsAccount(s: Shared, job: nat)
    requires Accounted(s)
    ensures Accounted(Announced(s, job))
  {
    AnnounceMovesBags(s, job);
    var t, i := Announced(s, job), FirstDue(s.due, job);
    if i < |s.due| {
      hide Accounted, Places, FirstDue, TouchAll;
      SendKeepsAccount(s, t, s.due[i].id);
    }
  }

  lemma SendKeepsAccount(s: Shared, t: Shared, id: nat)
    requires Accounted(s) && Places(t) == Places(s)
    requires t.table == s.table.(rows := TouchAll(s.table.rows, MarkNotified(id))) && t.sent == s.sent + [id]
    ensures Accounted(t)
  {
    RowAnnounced(s.table.rows, id, s.sent);
    hide Places, Bag, Ids, TouchAll, Numbered, MarkedIffSent;
  }

  lemma ToSent(a: multiset<nat>, b: multiset<nat>, c: multiset<nat>, x: multiset<nat>, d: multiset<nat>)
    ensures (a + x) + b + (c + d) == a + b + (c + (x + d))
  {
  }

  lemma AnalystsKeepRows(t: Table, a: AnalystStep)
    ensures |Step(t, a).rows| == |t.rows| && Step(t, a).nextId == t.nextId
    ensures forall i :: 0 <= i < |t.rows| ==>
              Step(t, a).rows[i].id == t.rows[i].id && Step(t, a).rows[i].notified == t.rows[i].notified
  {
    assert forall i :: 0 <= i < |t.rows| ==> TouchAll(t.rows, a)[i] == Touch(t.rows[i], a);
  }

  lemma StepKeepsAccount(s: Shared, a: Act)
    requires Accounted(s)
    ensures Accounted(Next(s, a))
  {
    hide Accounted;
    if Enabled(s, a) {
      match a
      case Look(_, _, _, _) => MoveKeepsAccount(s, Next(s, a));
      case Write(p, o) => WriteKeepsAccount(s, p, o);
      case EndDetector(job) =>
        MovesToDue(s, job);
        hide Places;
        MoveKeepsAccount(s, Next(s, a));
      case Announce(_, job) => AnnounceKeepsAccount(s, job);
      case Analyse(_, b) =>
        AnalystsKeepRows(s.table, b);
        MoveKeepsAccount(s, Next(s, a));
    }
  }

  /** However jobs and processes overlap, every incident row ever opened is in exactly one place:
      announced, lost, in a running detector's list, or due; and it carries the
      notified mark iff it was announced. */
  lemma {:induction false} EachRowInOnePlace(acts: seq<Act>)
    ensures Accounted(Run(acts))
  {
    if acts == [] {
      assert Ids([]) == [] && ItemIds([]) == [];
    } else {
      hide Accounted, Next;
      EachRowInOnePlace(acts[..|acts| - 1]);
      StepKeepsAccount(Run(acts[..|acts| - 1]), acts[|acts| - 1]);
    }
  }

  /** When the jobs are over: no row is announced twice, none both announced and
      lost, and all are marked iff none was lost. */
  lemma AnnouncedOnceOrNever(acts: seq<Act>)
    requires Run(acts).held == [] && Run(acts).due == []
    ensures forall i, j :: 0 <= i < j < |Run(acts).sent| ==> Run(acts).sent[i] != Run(acts).sent[j]
    ensures forall id :: id in Run(acts).sent ==> id !in Run(acts).lost
    ensures (forall i :: 0 <= i < |Run(acts).table.rows| ==> Run(acts).table.rows[i].notified) <==> Run(acts).lost == []
  {
    EachRowInOnePlace(acts);
    var s := Run(acts);
    assert Bag(Ids(s.table.rows)) == Bag(s.sent) + Bag(s.lost) by {
      assert ItemIds(s.held) == [] && ItemIds(s.due) == [];
    }
    hide Run, Places;
    EachOnce(s.table.rows, s.sent, s.lost);
  }

  // ---- and every job can finish ---------------------------------------------------

  lemma RunSnoc(acts: seq<Act>, a: Act)
    ensures Run(acts + [a]) == Next(Run(acts), a)
  {
    assert (acts + [a])[..|acts|] == acts;
  }

  lemma {:induction false} OfSum(a: seq<Item>, b: seq<Item>, job: nat)
    ensures Of(a + b, job) == Of(a, job) + Of(b, job)
  {
    if a == [] {
      assert a + b == b;
    } else {
      assert (a + b)[1..] == a[1..] + b;
      OfSum(a[1..], b, job);
    }
  }

  lemma {:induction false} NoneOfRest(items: seq<Item>, job: nat)
    ensures Of(Rest(items, job), job) == [] && Of(Of(items, job), job) == Of(items, job)
  {
    if items != [] {
      NoneOfRest(items[1..], job);
      if items[0].job == job {
        assert ([items[0]] + Of(items[1..], job))[1..] == Of(items[1..], job);
      } else {
        assert ([items[0]] + Rest(items[1..], job))[1..] == Rest(items[1..], job);
      }
    }
  }

  /** What is announced next is the job's first row due. */
  lemma {:induction false} FirstOf(items: seq<Item>, job: nat)
    ensures var i := FirstDue(items, job);
      if i == |items| then Of(items, job) == []
      else Of(items, job) == [items[i]] + Of(items[..i] + items[i + 1..], job)
  {
    if items != [] && items[0].job != job {
      FirstOf(items[1..], job);
      var i := FirstDue(items[1..], job);
      if i < |items[1..]| {
        assert (items[..i + 1] + items[i + 2..])[1..] == items[1..][..i] + items[1..][i + 1..];
      }
    } else if items != [] {
      assert items[..0] + items[1..] == items[1..];
    }
  }

  lemma IdsOfFirst(item: Item, rest: seq<Item>)
    ensures ItemIds([item] + rest) == [item.id] + ItemIds(rest)
  {
  }

  /** A job that goes on as long as it has a row due announces them all, in order, and
      nothing else. */
  lemma {:induction false} DueCanBeAnnounced(acts: seq<Act>, process: nat, job: nat) returns (more: seq<Act>)
    requires process !in Run(acts).pending
    ensures forall a :: a in more ==> a == Announce(process, job)
    ensures var s, t := Run(acts), Run(acts + more);
      && Of(t.due, job) == [] && t.held == s.held && t.lost == s.lost
      && t.sent == s.sent + ItemIds(Of(s.due, job))
    decreases |Of(Run(acts).due, job)|
  {
    hide *;
    var s := Run(acts);
    var i := FirstDue(s.due, job);
    FirstOf(s.due, job);
    more := [];
    if i == |s.due| {
      assert acts + [] == acts && ItemIds(Of(s.due, job)) == [] && s.sent + [] == s.sent;
    } else {
      var a := Announce(process, job);
      RunSnoc(acts, a);
      AnnouncesFirst(s, process, job);
      IdsOfFirst(s.due[i], Of(s.due[..i] + s.due[i + 1..], job));
      var rest := DueCanBeAnnounced(acts + [a], process, job);
      more := [a] + rest;
      assert acts + [a] + rest == acts + more;
      Chain(s.sent, s.due[i].id, ItemIds(Of(s.due[..i] + s.due[i + 1..], job)));
    }
  }

  lemma Chain(sent: seq<nat>, id: nat, rest: seq<nat>)
    ensures sent + [id] + rest == sent + ([id] + rest)
  {
  }

  lemma AnnouncesFirst(s: Shared, process: nat, job: nat)
    requires process !in s.pending && FirstDue(s.due, job) < |s.due|
    ensures var i, t := FirstDue(s.due, job), Next(s, Announce(process, job));
      && t.due == s.due[..i] + s.due[i + 1..] && t.sent == s.sent + [s.due[i].id]
      && t.held == s.held && t.lost == s.lost && t.pending == s.pending
  {
    hide Step;
  }

  lemma EndsDetector(s: Shared, job: nat)
    ensures var t := Next(s, EndDetector(job));
      t == s.(held := Rest(s.held, job), due := s.due + Of(s.held, job))
  {
  }

  /** In any state: a job can end its detector and announce every row it has opened and
      not lost, those due before first, and then has none left. */
  lemma JobCanFinish(acts: seq<Act>, process: nat, job: nat) returns (more: seq<Act>)
    requires process !in Run(acts).pending
    ensures forall a :: a in more ==> a == EndDetector(job) || a == Announce(process, job)
    ensures var s, t := Run(acts), Run(acts + more);
      && Of(t.held, job) == [] == Of(t.due, job) && t.lost == s.lost
      && t.sent == s.sent + ItemIds(Of(s.due, job) + Of(s.held, job))
  {
    var s := Run(acts);
    hide *;
    RunSnoc(acts, EndDetector(job));
    EndsDetector(s, job);
    NoneOfRest(s.held, job);
    OfSum(s.due, Of(s.held, job), job);
    var rest := DueCanBeAnnounced(acts + [EndDetector(job)], process, job);
    more := [EndDetector(job)] + rest;
    assert acts + [EndDetector(job)] + rest == acts + more;
  }
}
