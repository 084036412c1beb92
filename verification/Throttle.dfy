/** Email and chat notifications, throttled by rule and agent. */
module Throttle {
  import opened Wrappers

  /** The two ids as they print; None is a missing one, which counts as "?". */
  datatype Notice = Notice(ruleId: Option<string>, agentId: Option<string>, level: int)

  type Key = string

  function KeyOf(n: Notice): Key {
    (match n.ruleId case Some(r) => r case None => "?") + ":" + (match n.agentId case Some(a) => a case None => "?")
  }

  function Shown(id: Option<string>): string {
    match id case Some(s) => s case None => "?"
  }

  /** Notices share a slot iff rule and agent print alike, as long as no rule id has a
      colon: notices of different agents do not wait for each other. */
  lemma SameSlotIff(a: Notice, b: Notice)
    requires ':' !in Shown(a.ruleId) && ':' !in Shown(b.ruleId)
    ensures KeyOf(a) == KeyOf(b) <==> Shown(a.ruleId) == Shown(b.ruleId) && Shown(a.agentId) == Shown(b.agentId)
  {
    FirstColon(Shown(a.ruleId), Shown(a.agentId));
    FirstColon(Shown(b.ruleId), Shown(b.agentId));
    var k, l := KeyOf(a), KeyOf(b);
    if k == l {
      assert |Shown(a.ruleId)| == |Shown(b.ruleId)|;
      assert Shown(a.ruleId) == k[..|Shown(a.ruleId)|] && Shown(a.agentId) == k[|Shown(a.ruleId)| + 1..];
      assert Shown(b.ruleId) == l[..|Shown(b.ruleId)|] && Shown(b.agentId) == l[|Shown(b.ruleId)| + 1..];
    }
  }

  /** With a colon in a rule id they may: the key does not say where the rule ends. */
  lemma ColonsCollide(x: string, y: string, z: string)
    ensures KeyOf(Notice(Some(x + ":" + y), Some(z), 8)) == KeyOf(Notice(Some(x), Some(y + ":" + z), 8))
  {
    assert (x + ":" + y) + ":" + z == x + ":" + (y + ":" + z);
  }

  lemma FirstColon(rule: string, agent: string)
    requires ':' !in rule
    ensures var k := rule + ":" + agent;
      k[|rule|] == ':' && k[..|rule|] == rule && k[|rule| + 1..] == agent && forall i :: 0 <= i < |rule| ==> k[i] != ':'
  {
  }

  type Sent = map<Key, real>

  /** Zero stands for never. */
  function LastOf(s: Sent, k: Key): real {
    if k in s then s[k] else 0.0
  }

  /** _should_send; `window` is the throttle in seconds. */
  predicate Passes(s: Sent, n: Notice, now: real, window: real) {
    window <= 0.0 || now - LastOf(s, KeyOf(n)) >= window
  }

  function Next(s: Sent, n: Notice, now: real, window: real): Sent {
    if window > 0.0 && Passes(s, n, now, window) then s[KeyOf(n) := now] else s
  }

  /** notify_alert checks the level only after the throttle slot is taken. */
  predicate Delivered(s: Sent, n: Notice, now: real, window: real) {
    Passes(s, n, now, window) && n.level >= 8
  }

  datatype Call = Call(n: Notice, now: real)

  function Run(calls: seq<Call>, window: real): Sent {
    if calls == [] then map[]
    else Next(Run(calls[..|calls| - 1], window), calls[|calls| - 1].n, calls[|calls| - 1].now, window)
  }

  predicate PassesAt(calls: seq<Call>, i: nat, window: real)
    requires i < |calls|
  {
    Passes(Run(calls[..i], window), calls[i].n, calls[i].now, window)
  }

  predicate DeliveredAt(calls: seq<Call>, i: nat, window: real)
    requires i < |calls|
  {
    Delivered(Run(calls[..i], window), calls[i].n, calls[i].now, window)
  }

  /** The clock starts at zero and never goes back. */
  predicate Timely(calls: seq<Call>) {
    && (forall i :: 0 <= i < |calls| ==> calls[i].now >= 0.0)
    && (forall i, j :: 0 <= i < j < |calls| ==> calls[i].now <= calls[j].now)
  }

  predicate PassedUnder(calls: seq<Call>, i: nat, k: Key, window: real)
    requires i < |calls|
  {
    KeyOf(calls[i].n) == k && PassesAt(calls, i, window)
  }

  /** Index of the last call of the key that passed; the number of calls if none
      did. */
  function LastPass(calls: seq<Call>, k: Key, window: real): (i: nat)
    ensures i <= |calls|
  {
    if calls == [] then 0
    else
      var n := |calls| - 1;
      if PassedUnder(calls, n, k, window) then n
      else
        var i := LastPass(calls[..n], k, window);
        if i == n then n + 1 else i
  }

  lemma PassedInPrefix(calls: seq<Call>, n: nat, i: nat, k: Key, window: real)
    requires i < n <= |calls|
    ensures PassedUnder(calls[..n], i, k, window) <==> PassedUnder(calls, i, k, window)
  {
    assert calls[..n][..i] == calls[..i];
  }

  lemma {:induction false} LastPassIsLast(calls: seq<Call>, k: Key, window: real)
    ensures var l := LastPass(calls, k, window);
      && (l < |calls| ==> PassedUnder(calls, l, k, window))
      && (forall i :: 0 <= i < |calls| && PassedUnder(calls, i, k, window) ==> i <= l < |calls|)
  {
    if calls != [] {
      var n := |calls| - 1;
      LastPassIsLast(calls[..n], k, window);
      forall i | 0 <= i < n ensures PassedUnder(calls[..n], i, k, window) <==> PassedUnder(calls, i, k, window) {
        PassedInPrefix(calls, n, i, k, window);
      }
      hide PassedUnder;
    }
  }

  /** What the table holds for a key: the time of its last passing call, and zero
      before any. */
  lemma {:induction false} LastIsLastPass(calls: seq<Call>, k: Key, window: real)
    requires window > 0.0
    ensures LastOf(Run(calls, window), k)
         == if LastPass(calls, k, window) < |calls| then calls[LastPass(calls, k, window)].now else 0.0
  {
    if calls != [] {
      var n := |calls| - 1;
      LastIsLastPass(calls[..n], k, window);
      hide KeyOf;
    }
  }

  /** A notice is delivered iff its level is at least 8, the clock has reached the
      window, and every earlier notice of its key that passed is a window old. */
  lemma DeliveredIff(calls: seq<Call>, i: nat, window: real)
    requires i < |calls| && Timely(calls)
    ensures DeliveredAt(calls, i, window)
       <==> calls[i].n.level >= 8 && (window <= 0.0 || (calls[i].now >= window && Clear(calls, i, window)))
  {
    if window > 0.0 {
      var before, k, now := calls[..i], KeyOf(calls[i].n), calls[i].now;
      var l := LastPass(before, k, window);
      LastIsLastPass(before, k, window);
      LastPassIsLast(before, k, window);
      forall j | 0 <= j < i ensures PassedUnder(before, j, k, window) <==> PassedUnder(calls, j, k, window) {
        PassedInPrefix(calls, i, j, k, window);
      }
      if l < i {
        PassedLate(before, l, k, window);
      }
      hide KeyOf, LastPass, PassedUnder, Run;
      assert PassesAt(calls, i, window) <==> now - (if l < i then calls[l].now else 0.0) >= window;
      if l < i && now - calls[l].now >= window {
        forall j | 0 <= j < i && PassedUnder(calls, j, k, window) ensures now - calls[j].now >= window {
          assert j <= l;
          assert j < l ==> calls[j].now <= calls[l].now;
        }
      }
    }
  }

  predicate Clear(calls: seq<Call>, i: nat, window: real)
    requires i < |calls|
  {
    forall j :: 0 <= j < i && PassedUnder(calls, j, KeyOf(calls[i].n), window) ==> calls[i].now - calls[j].now >= window
  }

  /** Nothing passes before the clock has reached the window. */
  lemma PassedLate(calls: seq<Call>, i: nat, k: Key, window: real)
    requires i < |calls| && window > 0.0 && Timely(calls) && PassedUnder(calls, i, k, window)
    ensures calls[i].now >= window
  {
    LastIsLastPass(calls[..i], k, window);
    hide KeyOf, Run;
  }

  /** Two notices of one key that both pass are at least the window apart. */
  lemma PassesAreApart(calls: seq<Call>, i: nat, j: nat, window: real)
    requires window > 0.0 && Timely(calls)
    requires i < j < |calls| && KeyOf(calls[i].n) == KeyOf(calls[j].n)
    requires PassesAt(calls, i, window) && PassesAt(calls, j, window)
    ensures calls[j].now - calls[i].now >= window
  {
    var k, before := KeyOf(calls[j].n), calls[..j];
    LastIsLastPass(before, k, window);
    LastPassIsLast(before, k, window);
    PassedInPrefix(calls, j, i, k, window);
    var l := LastPass(before, k, window);
    hide KeyOf, Run, LastPass;
    assert PassedUnder(before, i, k, window);
    assert calls[i].now <= calls[l].now;
  }

  /** A notice that passed, delivered or too low to be, takes its key's slot for the
      window: no later notice of the key is delivered within it. */
  lemma SlotIsTaken(calls: seq<Call>, i: nat, j: nat, window: real)
    requires window > 0.0 && Timely(calls)
    requires i < j < |calls| && KeyOf(calls[i].n) == KeyOf(calls[j].n)
    requires PassesAt(calls, i, window) && calls[j].now - calls[i].now < window
    ensures !DeliveredAt(calls, j, window)
  {
    DeliveredIff(calls, j, window);
    assert PassedUnder(calls, i, KeyOf(calls[j].n), window);
  }

  /** The notices of two incidents of the silent-source monitor, or of one
      correlation detector, carry a rule id and no agent id: of two within the
      window the second is not delivered. */
  lemma SecondIncidentIsSwallowed(calls: seq<Call>, i: nat, j: nat, rule: string, window: real)
    requires window > 0.0 && Timely(calls) && i < j < |calls|
    requires calls[i].n.ruleId == calls[j].n.ruleId == Some(rule) && calls[i].n.agentId == calls[j].n.agentId == None
    requires DeliveredAt(calls, i, window) && calls[j].now - calls[i].now < window
    ensures !DeliveredAt(calls, j, window)
  {
    SlotIsTaken(calls, i, j, window);
  }
}
