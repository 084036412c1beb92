/** The alert watcher's polling cursor (notifier.py). */
module AlertCursor {

  /** A high or critical alert of the index. */
  datatype Alert = Alert(id: nat, ts: int)

  const PAGE := 20

  /** Alerts later than the cursor, in index order. */
  function Pending(index: seq<Alert>, cursor: int): (p: seq<Alert>)
    ensures |p| <= |index|
  {
    if index == [] then []
    else (if index[0].ts > cursor then [index[0]] else []) + Pending(index[1..], cursor)
  }

  lemma {:induction false} PendingMembers(index: seq<Alert>, cursor: int)
    ensures forall a :: a in Pending(index, cursor) <==> a in index && a.ts > cursor
  {
    if index != [] {
      PendingMembers(index[1..], cursor);
      assert index == [index[0]] + index[1..];
    }
  }

  predicate SortedByTime(s: seq<Alert>) {
    forall i, j :: 0 <= i < j < |s| ==> s[i].ts <= s[j].ts
  }

  /** The search: the first page of pending alerts by ascending time. The index is
      kept sorted, ties in some fixed order. */
  function Hits(index: seq<Alert>, cursor: int): seq<Alert> {
    var p := Pending(index, cursor);
    if |p| <= PAGE then p else p[..PAGE]
  }

  /** `sent` is what was passed to notify_alert, in order. */
  datatype Watcher = Watcher(cursor: int, sent: seq<Alert>)

  function Poll(w: Watcher, index: seq<Alert>): Watcher {
    var hits := Hits(index, w.cursor);
    if hits == [] then w else Watcher(hits[|hits| - 1].ts, w.sent + hits)
  }

  /** Each poll sees its own index: alerts come, and may come late. */
  function Run(w: Watcher, indexes: seq<seq<Alert>>): Watcher {
    if indexes == [] then w else Poll(Run(w, indexes[..|indexes| - 1]), indexes[|indexes| - 1])
  }

  predicate Distinct(s: seq<Alert>) {
    forall i, j :: 0 <= i < j < |s| ==> s[i] != s[j]
  }

  // ---- nothing twice ---------------------------------------------------------

  lemma {:induction false} PendingKeepsOrder(index: seq<Alert>, cursor: int)
    ensures SortedByTime(index) ==> SortedByTime(Pending(index, cursor))
    ensures Distinct(index) ==> Distinct(Pending(index, cursor))
  {
    if index != [] {
      var rest := index[1..];
      PendingKeepsOrder(rest, cursor);
      PendingMembers(rest, cursor);
      var p := Pending(rest, cursor);
      assert Pending(index, cursor) == if index[0].ts > cursor then [index[0]] + p else p;
      HeadBeforeRest(index, p);
      hide Pending;
      hide SortedByTime, Distinct;
      ConsKeepsOrder(index[0], p);
      RestKeepsOrder(index);
    }
  }

  lemma RestKeepsOrder(s: seq<Alert>)
    requires s != []
    ensures SortedByTime(s) ==> SortedByTime(s[1..])
    ensures Distinct(s) ==> Distinct(s[1..])
  {
  }

  lemma HeadBeforeRest(s: seq<Alert>, p: seq<Alert>)
    requires s != [] && forall a :: a in p ==> a in s[1..]
    ensures forall a :: a in p ==> (SortedByTime(s) ==> s[0].ts <= a.ts) && (Distinct(s) ==> s[0] != a)
  {
    forall a | a in p ensures (SortedByTime(s) ==> s[0].ts <= a.ts) && (Distinct(s) ==> s[0] != a) {
      var k :| 0 <= k < |s[1..]| && s[1..][k] == a;
      assert s[k + 1] == a;
    }
  }

  lemma ConsKeepsOrder(a: Alert, p: seq<Alert>)
    ensures SortedByTime(p) && (forall b :: b in p ==> a.ts <= b.ts) ==> SortedByTime([a] + p)
    ensures Distinct(p) && a !in p ==> Distinct([a] + p)
  {
  }

  /** Everything sent lies at or before the cursor. */
  ghost predicate Behind(w: Watcher) {
    Distinct(w.sent) && forall a :: a in w.sent ==> a.ts <= w.cursor
  }

  lemma HitsAreNew(index: seq<Alert>, cursor: int)
    requires SortedByTime(index) && Distinct(index)
    ensures Distinct(Hits(index, cursor)) && SortedByTime(Hits(index, cursor))
    ensures forall a :: a in Hits(index, cursor) ==> a in index && a.ts > cursor
  {
    PendingKeepsOrder(index, cursor);
    PendingMembers(index, cursor);
    var p := Pending(index, cursor);
    assert forall a :: a in Hits(index, cursor) ==> a in p;
    hide Pending;
  }

  lemma PollKeepsBehind(w: Watcher, index: seq<Alert>)
    requires Behind(w) && SortedByTime(index) && Distinct(index)
    ensures Behind(Poll(w, index)) && Poll(w, index).cursor >= w.cursor
  {
    HitsAreNew(index, w.cursor);
    var hits := Hits(index, w.cursor);
    hide Hits;
    if hits != [] {
      var last := hits[|hits| - 1];
      assert last in hits;
      forall a | a in hits ensures a.ts <= last.ts && a !in w.sent {
        var k :| 0 <= k < |hits| && hits[k] == a;
      }
      DistinctSum(w.sent, hits);
    }
  }

  lemma DistinctSum(a: seq<Alert>, b: seq<Alert>)
    requires Distinct(a) && Distinct(b) && forall x :: x in b ==> x !in a
    ensures Distinct(a + b)
  {
    forall i, j | 0 <= i < j < |a + b| ensures (a + b)[i] != (a + b)[j] {
      if i < |a| && j >= |a| {
        assert b[j - |a|] in b;
        assert a[i] in a;
      }
    }
  }

  /** Over any run of polls, whatever each finds in the index, no alert is sent
      twice, every alert sent is at or before the cursor, and the cursor never
      goes back. */
  lemma {:induction false} NothingTwice(w: Watcher, indexes: seq<seq<Alert>>)
    requires Behind(w)
    requires forall k :: 0 <= k < |indexes| ==> SortedByTime(indexes[k]) && Distinct(indexes[k])
    ensures Behind(Run(w, indexes)) && Run(w, indexes).cursor >= w.cursor
    ensures w.sent <= Run(w, indexes).sent
  {
    if indexes != [] {
      var n := |indexes| - 1;
      NothingTwice(w, indexes[..n]);
      PollKeepsBehind(Run(w, indexes[..n]), indexes[n]);
      hide Behind, Hits;
    }
  }

  // ---- nothing lost, and how soon --------------------------------------------

  predicate StrictlySorted(s: seq<Alert>) {
    forall i, j :: 0 <= i < j < |s| ==> s[i].ts < s[j].ts
  }

  /** Raising the cursor to a pending alert's time drops it and all before it. */
  lemma {:induction false} PendingAfter(index: seq<Alert>, low: int, high: int)
    requires low <= high
    ensures Pending(index, high) == Pending(Pending(index, low), high)
  {
    if index != [] {
      PendingAfter(index[1..], low, high);
      var rest := Pending(index[1..], low);
      if index[0].ts > low {
        assert ([index[0]] + rest)[1..] == rest;
      } else {
        assert [] + rest == rest;
      }
    }
  }

  lemma {:induction false} PendingOfStrict(s: seq<Alert>, k: nat)
    requires StrictlySorted(s) && k < |s|
    ensures Pending(s, s[k].ts) == s[k + 1..]
  {
    if k == 0 {
      AllPending(s[1..], s[0].ts);
      assert Pending(s, s[0].ts) == [] + Pending(s[1..], s[0].ts);
    } else {
      PendingOfStrict(s[1..], k - 1);
      assert s[1..][k - 1..][0] == s[k];
      assert s[0].ts < s[k].ts;
      assert Pending(s, s[k].ts) == [] + Pending(s[1..], s[k].ts);
      assert s[1..][k..] == s[k + 1..];
    }
  }

  lemma {:induction false} AllPending(s: seq<Alert>, cursor: int)
    requires forall i :: 0 <= i < |s| ==> s[i].ts > cursor
    ensures Pending(s, cursor) == s
  {
    if s != [] {
      AllPending(s[1..], cursor);
    }
  }

  function Take(p: seq<Alert>, k: nat): seq<Alert>
    requires k <= |p|
  {
    p[..k]
  }

  function Drop(p: seq<Alert>, k: nat): (r: seq<Alert>)
    requires k <= |p|
    ensures |r| == |p| - k
  {
    p[k..]
  }

  function PageSize(pending: nat): (n: nat)
    ensures n <= pending
  {
    if pending <= PAGE then pending else PAGE
  }

  lemma PollIs(w: Watcher, index: seq<Alert>)
    ensures var p := Pending(index, w.cursor); var n := PageSize(|p|);
      Poll(w, index) == if n == 0 then w else Watcher(p[n - 1].ts, w.sent + Take(p, n))
  {
    hide Pending;
    var p := Pending(index, w.cursor);
    assert Hits(index, w.cursor) == Take(p, PageSize(|p|));
  }

  lemma PendingIsLater(index: seq<Alert>, cursor: int, k: nat)
    requires k < |Pending(index, cursor)|
    ensures Pending(index, cursor)[k].ts > cursor
  {
    PendingMembers(index, cursor);
    assert Pending(index, cursor)[k] in Pending(index, cursor);
    hide Pending;
  }

  lemma DropIs(p: seq<Alert>, sent: seq<Alert>, n: nat)
    requires n <= |p|
    ensures Drop(p, n) == p[n..]
    ensures n == 0 ==> Drop(p, n) == p && sent + Take(p, n) == sent
  {
  }

  lemma PageSizeOf(pending: nat)
    ensures PageSize(pending) == 0 <==> pending == 0
  {
  }

  /** With distinct times a poll takes the first page of what is pending and
      leaves the rest. */
  lemma PollTakesPage(w: Watcher, index: seq<Alert>)
    requires StrictlySorted(Pending(index, w.cursor))
    ensures Pending(index, Poll(w, index).cursor) == Drop(Pending(index, w.cursor), PageSize(|Pending(index, w.cursor)|))
    ensures Poll(w, index).sent == w.sent + Take(Pending(index, w.cursor), PageSize(|Pending(index, w.cursor)|))
  {
    hide *;
    var p := Pending(index, w.cursor);
    var n := PageSize(|p|);
    PollIs(w, index);
    DropIs(p, w.sent, n);
    PageSizeOf(|p|);
    if n > 0 {
      PendingIsLater(index, w.cursor, n - 1);
      PendingAfter(index, w.cursor, p[n - 1].ts);
      PendingOfStrict(p, n - 1);
    }
  }

  function Polls(w: Watcher, index: seq<Alert>, n: nat): Watcher {
    if n == 0 then w else Poll(Polls(w, index, n - 1), index)
  }

  /** How many of these n polls reach. */
  function Reached(pending: nat, n: nat): (k: nat)
    ensures k <= pending
  {
    if n == 0 then 0
    else
      var k := Reached(pending, n - 1);
      k + PageSize(pending - k)
  }

  lemma {:induction false} ReachedIs(pending: nat, n: nat)
    ensures Reached(pending, n) == if pending <= 20 * n then pending else 20 * n
  {
    if n > 0 {
      ReachedIs(pending, n - 1);
    }
  }

  /** Exactly the first k of the alerts pending at `w` have been sent since. */
  ghost predicate Sent(w: Watcher, index: seq<Alert>, later: Watcher, k: nat) {
    && k <= |Pending(index, w.cursor)|
    && Pending(index, later.cursor) == Drop(Pending(index, w.cursor), k)
    && later.sent == w.sent + Take(Pending(index, w.cursor), k)
  }

  /** While no new alert arrives, n polls send the first 20 n pending alerts, in
      time order, and leave the others pending. */
  lemma {:induction false} PollsTakePages(w: Watcher, index: seq<Alert>, n: nat)
    requires StrictlySorted(Pending(index, w.cursor))
    ensures Sent(w, index, Polls(w, index, n), Reached(|Pending(index, w.cursor)|, n))
  {
    hide Sent, Pending, Take, Drop, Poll, StrictlySorted;
    if n == 0 {
      NoPoll(w, index);
    } else {
      PollsTakePages(w, index, n - 1);
      var before, pending := Polls(w, index, n - 1), |Pending(index, w.cursor)|;
      var k := Reached(pending, n - 1);
      assert Polls(w, index, n) == Poll(before, index);
      assert Reached(pending, n) == k + PageSize(pending - k);
      OnePollMore(w, before, index, k);
    }
  }

  lemma NoPoll(w: Watcher, index: seq<Alert>)
    ensures Sent(w, index, w, 0)
  {
    hide Pending;
  }

  lemma OnePollMore(w: Watcher, before: Watcher, index: seq<Alert>, k: nat)
    requires StrictlySorted(Pending(index, w.cursor)) && Sent(w, index, before, k)
    ensures k + PageSize(|Pending(index, w.cursor)| - k) <= |Pending(index, w.cursor)|
    ensures Sent(w, index, Poll(before, index), k + PageSize(|Pending(index, w.cursor)| - k))
  {
    hide *;
    var p, later := Pending(index, w.cursor), Poll(before, index);
    SentIs(w, index, before, k);
    StrictTail(p, k);
    PollTakesPage(before, index);
    var m := PageSize(|p| - k);
    DropTwice(w.sent, p, k, m);
    IsSent(w, index, later, k + m);
  }

  lemma SentIs(w: Watcher, index: seq<Alert>, later: Watcher, k: nat)
    requires Sent(w, index, later, k)
    ensures k <= |Pending(index, w.cursor)|
    ensures Pending(index, later.cursor) == Drop(Pending(index, w.cursor), k)
    ensures later.sent == w.sent + Take(Pending(index, w.cursor), k)
  {
    hide Pending, Drop, Take;
  }

  lemma IsSent(w: Watcher, index: seq<Alert>, later: Watcher, k: nat)
    requires k <= |Pending(index, w.cursor)|
    requires Pending(index, later.cursor) == Drop(Pending(index, w.cursor), k)
    requires later.sent == w.sent + Take(Pending(index, w.cursor), k)
    ensures Sent(w, index, later, k)
  {
    hide Pending, Drop, Take;
  }

  lemma DropTwice(sent: seq<Alert>, p: seq<Alert>, k: nat, m: nat)
    requires k + m <= |p|
    ensures Drop(Drop(p, k), m) == Drop(p, k + m)
    ensures sent + Take(p, k) + Take(Drop(p, k), m) == sent + Take(p, k + m)
  {
    assert Take(p, k) + Take(Drop(p, k), m) == Take(p, k + m);
  }

  lemma StrictTail(p: seq<Alert>, k: nat)
    requires StrictlySorted(p) && k <= |p|
    ensures StrictlySorted(Drop(p, k))
  {
  }

  /** All of them are sent after n polls iff there are at most 20 n. */
  lemma AllSentIff(w: Watcher, index: seq<Alert>, n: nat)
    requires StrictlySorted(Pending(index, w.cursor))
    ensures Polls(w, index, n).sent == w.sent + Pending(index, w.cursor) <==> |Pending(index, w.cursor)| <= 20 * n
  {
    PollsTakePages(w, index, n);
    ReachedIs(|Pending(index, w.cursor)|, n);
    var p, k := Pending(index, w.cursor), Reached(|Pending(index, w.cursor)|, n);
    hide Pending, Polls, StrictlySorted, Reached;
    if k < |p| {
      assert |w.sent + p[..k]| < |w.sent + p|;
    } else {
      assert p[..k] == p;
    }
  }

  // ---- what a tie at the page boundary loses ---------------------------------

  /** Pending before the poll, neither sent by it nor pending after it. */
  predicate Skipped(w: Watcher, index: seq<Alert>, a: Alert) {
    a in Pending(index, w.cursor) && a !in Hits(index, w.cursor) && a.ts <= Poll(w, index).cursor
  }

  /** A poll skips an alert iff its page is full and the next pending alert bears
      the time of the page's last. */
  lemma PollSkipsIff(w: Watcher, index: seq<Alert>)
    requires SortedByTime(index) && Distinct(index)
    ensures (exists a :: Skipped(w, index, a))
       <==> |Pending(index, w.cursor)| > PAGE && Pending(index, w.cursor)[PAGE].ts == Pending(index, w.cursor)[PAGE - 1].ts
  {
    PendingKeepsOrder(index, w.cursor);
    PendingMembers(index, w.cursor);
    var p, hits := Pending(index, w.cursor), Hits(index, w.cursor);
    if |p| > PAGE {
      assert forall k :: 0 <= k < PAGE ==> p[k] == hits[k] && p[k] in hits;
      forall a | Skipped(w, index, a) ensures p[PAGE].ts == p[PAGE - 1].ts {
        var k :| 0 <= k < |p| && p[k] == a;
      }
      if p[PAGE].ts == p[PAGE - 1].ts {
        NotInPage(p);
        assert p[PAGE] in p;
        assert Skipped(w, index, p[PAGE]);
      }
    }
  }

  lemma NotInPage(p: seq<Alert>)
    requires Distinct(p) && |p| > PAGE
    ensures p[PAGE] !in p[..PAGE]
  {
  }

  /** And a skipped alert is never sent: not in this poll, not in any later one. */
  lemma {:induction false} SkippedForGood(w: Watcher, index: seq<Alert>, a: Alert, later: seq<seq<Alert>>)
    requires Skipped(w, index, a) && Behind(w) && SortedByTime(index) && Distinct(index)
    requires forall k :: 0 <= k < |later| ==> SortedByTime(later[k]) && Distinct(later[k])
    ensures a !in Run(Poll(w, index), later).sent
  {
    PollKeepsBehind(w, index);
    if later == [] {
      PendingMembers(index, w.cursor);
      assert a !in w.sent;
    } else {
      var n := |later| - 1;
      SkippedForGood(w, index, a, later[..n]);
      var w' := Run(Poll(w, index), later[..n]);
      NothingTwice(Poll(w, index), later[..n]);
      HitsAreNew(later[n], w'.cursor);
      hide Hits, Pending, Behind;
    }
  }

  // ---- alerts that arrive between polls, or late ---------------------------------

  /** The alert is in no index before poll j and in every one from then on. */
  predicate ArrivesAt(indexes: seq<seq<Alert>>, j: nat, a: Alert) {
    j <= |indexes| && forall k :: 0 <= k < |indexes| ==> (a in indexes[k] <==> j <= k)
  }

  predicate SkippedAt(w: Watcher, indexes: seq<seq<Alert>>, k: nat, a: Alert)
    requires k < |indexes|
  {
    Skipped(Run(w, indexes[..k]), indexes[k], a)
  }

  /** The watcher had passed the alert's time when it arrived, or a poll skipped it. */
  ghost predicate Missed(w: Watcher, indexes: seq<seq<Alert>>, j: nat, a: Alert)
    requires j <= |indexes|
  {
    || a.ts <= Run(w, indexes[..j]).cursor
    || exists k :: j <= k < |indexes| && SkippedAt(w, indexes, k, a)
  }

  predicate Regular(indexes: seq<seq<Alert>>) {
    forall k :: 0 <= k < |indexes| ==> SortedByTime(indexes[k]) && Distinct(indexes[k])
  }

  lemma {:induction false} NotSentBefore(w: Watcher, indexes: seq<seq<Alert>>, a: Alert)
    requires Regular(indexes) && a !in w.sent && forall k :: 0 <= k < |indexes| ==> a !in indexes[k]
    ensures a !in Run(w, indexes).sent
  {
    if indexes != [] {
      var n := |indexes| - 1;
      NotSentBefore(w, indexes[..n], a);
      HitsAreNew(indexes[n], Run(w, indexes[..n]).cursor);
      hide Hits;
    }
  }

  lemma SkippedInPrefix(w: Watcher, indexes: seq<seq<Alert>>, n: nat, k: nat, a: Alert)
    requires k < n <= |indexes|
    ensures SkippedAt(w, indexes[..n], k, a) <==> SkippedAt(w, indexes, k, a)
  {
    hide Run, Skipped;
    assert indexes[..n][..k] == indexes[..k];
  }

  lemma MissedSnoc(w: Watcher, indexes: seq<seq<Alert>>, j: nat, a: Alert)
    requires j < |indexes|
    ensures var n := |indexes| - 1;
      Missed(w, indexes, j, a) <==> Missed(w, indexes[..n], j, a) || SkippedAt(w, indexes, n, a)
  {
    hide SkippedAt, Run;
    var n := |indexes| - 1;
    assert indexes[..n][..j] == indexes[..j];
    forall k | j <= k < n ensures SkippedAt(w, indexes[..n], k, a) <==> SkippedAt(w, indexes, k, a) {
      SkippedInPrefix(w, indexes, n, k, a);
    }
  }

  /** One poll of an index that holds the alert. */
  lemma PollPasses(w: Watcher, index: seq<Alert>, a: Alert)
    requires Behind(w) && SortedByTime(index) && Distinct(index) && a in index
    ensures var w' := Poll(w, index);
      (a !in w'.sent && a.ts <= w'.cursor) <==> (a !in w.sent && a.ts <= w.cursor) || Skipped(w, index, a)
  {
    PendingMembers(index, w.cursor);
    HitsAreNew(index, w.cursor);
    PollKeepsBehind(w, index);
    hide Pending, Hits, SortedByTime, Distinct;
  }

  lemma {:induction false} PassedOverIff(w: Watcher, indexes: seq<seq<Alert>>, j: nat, a: Alert)
    requires Behind(w) && Regular(indexes) && a !in w.sent && ArrivesAt(indexes, j, a)
    ensures a !in Run(w, indexes).sent && a.ts <= Run(w, indexes).cursor <==> Missed(w, indexes, j, a)
  {
    var n := |indexes| - 1;
    if j == |indexes| {
      NotSentBefore(w, indexes, a);
      assert indexes[..j] == indexes;
    } else {
      PassedOverIff(w, indexes[..n], j, a);
      MissedSnoc(w, indexes, j, a);
      NothingTwice(w, indexes[..n]);
      PollPasses(Run(w, indexes[..n]), indexes[n], a);
      hide Missed, Skipped, Behind, Poll;
    }
  }

  /** Whenever an alert arrives, in time order or late: it has been sent iff the cursor
      is past its time, was not when it arrived, and no full page ended in a tie with
      it left out. */
  lemma ArrivalIsSentIff(w: Watcher, indexes: seq<seq<Alert>>, j: nat, a: Alert)
    requires Behind(w) && Regular(indexes) && a !in w.sent && ArrivesAt(indexes, j, a)
    ensures a in Run(w, indexes).sent <==> a.ts <= Run(w, indexes).cursor && !Missed(w, indexes, j, a)
  {
    PassedOverIff(w, indexes, j, a);
    NothingTwice(w, indexes);
    hide Missed, Run;
  }

  class AlertWatcher {
    var lastTs: int
    ghost var sent: seq<Alert>

    constructor (now: int)
      ensures lastTs == now && sent == []
    {
      lastTs, sent := now, [];
    }

    /** One _check: the alerts handed to notify_alert, in order. */
    method Check(index: seq<Alert>) returns (notified: seq<Alert>)
      modifies this
      ensures Poll(Watcher(old(lastTs), old(sent)), index) == Watcher(lastTs, sent)
      ensures sent == old(sent) + notified
    {
      var hits := Hits(index, lastTs);
      if hits != [] {
        lastTs := hits[|hits| - 1].ts;
      }
      notified := [];
      for i := 0 to |hits|
        invariant notified == hits[..i] && sent == old(sent) + notified
        invariant lastTs == if hits != [] then hits[|hits| - 1].ts else old(lastTs)
      {
        notified := notified + [hits[i]];
        sent := sent + [hits[i]];
      }
    }
  }
}
