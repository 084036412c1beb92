/** The per-address token bucket (app.py), over exact times. */
module RateLimiter {

  type Address = string

  datatype Bucket = Bucket(tokens: real, last: real)

  /** Refill rate in tokens a second and burst capacity. */
  datatype Limits = Limits(rps: nat, burst: nat)

  type Buckets = map<Address, Bucket>

  datatype Request = Request(ip: Address, now: real)

  /** Tokens gained in this time, before the cap. */
  function Growth(dt: real, l: Limits): real {
    dt * l.rps as real
  }

  function Refilled(b: Bucket, now: real, l: Limits): real {
    var t := b.tokens + Growth(now - b.last, l);
    if t < l.burst as real then t else l.burst as real
  }

  predicate Allowed(s: Buckets, r: Request, l: Limits) {
    r.ip !in s || Refilled(s[r.ip], r.now, l) >= 1.0
  }

  function Next(s: Buckets, r: Request, l: Limits): Buckets {
    if r.ip !in s then s[r.ip := Bucket(l.burst as real, r.now)]
    else
      var t := Refilled(s[r.ip], r.now, l);
      s[r.ip := Bucket(if t < 1.0 then t else t - 1.0, r.now)]
  }

  function Run(s: Buckets, reqs: seq<Request>, l: Limits): Buckets {
    if reqs == [] then s else Next(Run(s, reqs[..|reqs| - 1], l), reqs[|reqs| - 1], l)
  }

  /** Requests of this address the limiter let through. */
  function Admitted(s: Buckets, reqs: seq<Request>, ip: Address, l: Limits): nat {
    if reqs == [] then 0
    else
      var n := |reqs| - 1;
      Admitted(s, reqs[..n], ip, l) + (if reqs[n].ip == ip && Allowed(Run(s, reqs[..n], l), reqs[n], l) then 1 else 0)
  }

  /** The clock never goes back. */
  predicate Monotone(start: real, reqs: seq<Request>) {
    if reqs == [] then true
    else
      var n := |reqs| - 1;
      Monotone(start, reqs[..n]) && (if n == 0 then start else reqs[n - 1].now) <= reqs[n].now
  }

  function Clock(start: real, reqs: seq<Request>): real {
    if reqs == [] then start else reqs[|reqs| - 1].now
  }

  /** Tokens stay between zero and the burst, and no bucket is ahead of the
      clock. */
  ghost predicate Sound(s: Buckets, clock: real, l: Limits) {
    forall ip :: ip in s ==> 0.0 <= s[ip].tokens <= l.burst as real && s[ip].last <= clock
  }

  lemma RefillIsBounded(b: Bucket, now: real, l: Limits)
    requires 0.0 <= b.tokens <= l.burst as real && b.last <= now
    ensures b.tokens <= Refilled(b, now, l) <= l.burst as real
    ensures Refilled(b, now, l) <= b.tokens + Growth(now - b.last, l)
  {
    GrowthIsNonNegative(now - b.last, l);
    hide Growth;
  }

  lemma GrowthIsNonNegative(dt: real, l: Limits)
    requires dt >= 0.0
    ensures Growth(dt, l) >= 0.0
  {
  }

  lemma NextKeepsSound(s: Buckets, clock: real, r: Request, l: Limits)
    requires Sound(s, clock, l) && clock <= r.now
    ensures Sound(Next(s, r, l), r.now, l)
  {
    if r.ip in s {
      RefillIsBounded(s[r.ip], r.now, l);
    }
    hide Refilled;
  }

  lemma {:induction false} RunKeepsSound(s: Buckets, clock: real, reqs: seq<Request>, l: Limits)
    requires Sound(s, clock, l) && Monotone(clock, reqs)
    ensures Sound(Run(s, reqs, l), Clock(clock, reqs), l)
  {
    if reqs != [] {
      var n := |reqs| - 1;
      RunKeepsSound(s, clock, reqs[..n], l);
      assert Clock(clock, reqs[..n]) == if n == 0 then clock else reqs[n - 1].now;
      hide Sound, Next;
      NextKeepsSound(Run(s, reqs[..n], l), Clock(clock, reqs[..n]), reqs[n], l);
    }
  }

  /** The most a window of this length may admit. */
  function Allowance(l: Limits, length: real, isNew: bool): real {
    l.burst as real + Growth(length, l) + (if isNew then 1.0 else 0.0)
  }

  /** While a window runs: either the address has not asked yet, or what it was
      admitted and what it still holds stay within the allowance so far. */
  ghost predicate WithinAllowance(s: Buckets, s': Buckets, admitted: nat, ip: Address, start: real, l: Limits) {
    if ip !in s' then admitted == 0 && ip !in s
    else if admitted == 0 && ip in s && s'[ip] == s[ip] then true
    else
      && s'[ip].last >= start
      && admitted as real + s'[ip].tokens <= Allowance(l, s'[ip].last - start, ip !in s)
  }

  lemma AllowanceGrows(l: Limits, from: real, to: real, isNew: bool)
    requires from <= to
    ensures Allowance(l, from, isNew) + Growth(to - from, l) == Allowance(l, to, isNew)
    ensures Allowance(l, from, isNew) <= Allowance(l, to, isNew)
  {
    GrowthIsNonNegative(to - from, l);
    hide Growth;
    assert from + (to - from) == to;
  }

  lemma AllowanceFromBurst(l: Limits, length: real, isNew: bool)
    requires 0.0 <= length
    ensures l.burst as real + (if isNew then 1.0 else 0.0) <= Allowance(l, length, isNew)
  {
    GrowthIsNonNegative(length, l);
    hide Growth;
  }

  lemma OwnRequestKeepsAllowance(s: Buckets, s': Buckets, admitted: nat, r: Request, start: real, l: Limits)
    requires WithinAllowance(s, s', admitted, r.ip, start, l)
    requires Sound(s', r.now, l) && start <= r.now
    ensures WithinAllowance(s, Next(s', r, l), admitted + (if Allowed(s', r, l) then 1 else 0), r.ip, start, l)
  {
    var ip := r.ip;
    AllowanceFromBurst(l, r.now - start, ip !in s);
    hide Growth;
    if ip in s' {
      RefillIsBounded(s'[ip], r.now, l);
      if s'[ip].last >= start {
        AllowanceGrows(l, s'[ip].last - start, r.now - start, ip !in s);
        assert (r.now - start) - (s'[ip].last - start) == r.now - s'[ip].last;
      }
      hide Refilled, Allowance;
    }
  }

  lemma {:induction false} AllowanceHolds(s: Buckets, clock: real, reqs: seq<Request>, ip: Address, start: real, l: Limits)
    requires Sound(s, clock, l) && Monotone(clock, reqs)
    requires reqs != [] ==> start == reqs[0].now
    ensures WithinAllowance(s, Run(s, reqs, l), Admitted(s, reqs, ip, l), ip, start, l)
    ensures reqs != [] ==> start <= Clock(clock, reqs)
  {
    if reqs != [] {
      var n := |reqs| - 1;
      AllowanceHolds(s, clock, reqs[..n], ip, start, l);
      RunKeepsSound(s, clock, reqs[..n], l);
      var s' := Run(s, reqs[..n], l);
      assert Run(s, reqs, l) == Next(s', reqs[n], l);
      assert Admitted(s, reqs, ip, l)
          == Admitted(s, reqs[..n], ip, l) + (if reqs[n].ip == ip && Allowed(s', reqs[n], l) then 1 else 0);
      hide Run, Admitted, Refilled, Monotone, Sound, Growth, Allowance;
      if reqs[n].ip == ip {
        hide WithinAllowance, Next, Allowed;
        OwnRequestKeepsAllowance(s, s', Admitted(s, reqs[..n], ip, l), reqs[n], start, l);
      }
    }
  }

  /** From any reachable state, the requests of one address admitted in a window
      of length T are at most BURST + RPS * T, and one more if the window holds
      the address's first request. Requests of other addresses change nothing. */
  lemma WindowBound(s: Buckets, clock: real, reqs: seq<Request>, ip: Address, l: Limits)
    requires Sound(s, clock, l) && Monotone(clock, reqs) && reqs != []
    ensures Admitted(s, reqs, ip, l) as real <= Allowance(l, reqs[|reqs| - 1].now - reqs[0].now, ip !in s)
  {
    var start := reqs[0].now;
    AllowanceHolds(s, clock, reqs, ip, start, l);
    RunKeepsSound(s, clock, reqs, l);
    var s' := Run(s, reqs, l);
    hide Run, Admitted, Monotone;
    AllowanceFromBurst(l, reqs[|reqs| - 1].now - start, ip !in s);
    hide Growth;
    if ip in s' && s'[ip].last >= start {
      AllowanceGrows(l, s'[ip].last - start, reqs[|reqs| - 1].now - start, ip !in s);
    }
  }

  /** Each request of the address comes at least 1/RPS after the last time its
      bucket was touched. */
  predicate Spaced(s: Buckets, reqs: seq<Request>, ip: Address, l: Limits) {
    if reqs == [] then true
    else
      var n := |reqs| - 1;
      && Spaced(s, reqs[..n], ip, l)
      && (reqs[n].ip == ip && ip in Run(s, reqs[..n], l) ==>
            Growth(reqs[n].now - LastRequest(s, reqs[..n], ip), l) >= 1.0)
  }

  /** When the address last asked; its bucket's time, if not in these requests. */
  function LastRequest(s: Buckets, reqs: seq<Request>, ip: Address): real {
    if reqs == [] then (if ip in s then s[ip].last else 0.0)
    else if reqs[|reqs| - 1].ip == ip then reqs[|reqs| - 1].now
    else LastRequest(s, reqs[..|reqs| - 1], ip)
  }

  function Asked(reqs: seq<Request>, ip: Address): nat {
    if reqs == [] then 0
    else Asked(reqs[..|reqs| - 1], ip) + (if reqs[|reqs| - 1].ip == ip then 1 else 0)
  }

  lemma {:induction false} BucketTimeIsLastRequest(s: Buckets, reqs: seq<Request>, ip: Address, l: Limits)
    ensures ip in Run(s, reqs, l) ==> Run(s, reqs, l)[ip].last == LastRequest(s, reqs, ip)
    ensures ip in Run(s, reqs, l) <==> ip in s || Asked(reqs, ip) > 0
  {
    if reqs != [] {
      BucketTimeIsLastRequest(s, reqs[..|reqs| - 1], ip, l);
    }
  }

  lemma SpacedRefills(b: Bucket, now: real, l: Limits)
    requires b.tokens >= 0.0 && Growth(now - b.last, l) >= 1.0 && l.burst >= 1
    ensures Refilled(b, now, l) >= 1.0
  {
    hide Growth;
  }

  /** With a burst of at least one, an address that keeps 1/RPS between its
      requests is never refused, whatever the other addresses do. */
  lemma {:induction false} SpacedIsNeverRefused(s: Buckets, clock: real, reqs: seq<Request>, ip: Address, l: Limits)
    requires Sound(s, clock, l) && Monotone(clock, reqs) && l.burst >= 1
    requires Spaced(s, reqs, ip, l)
    ensures Admitted(s, reqs, ip, l) == Asked(reqs, ip)
  {
    if reqs != [] {
      var n := |reqs| - 1;
      SpacedIsNeverRefused(s, clock, reqs[..n], ip, l);
      RunKeepsSound(s, clock, reqs[..n], l);
      BucketTimeIsLastRequest(s, reqs[..n], ip, l);
      var s' := Run(s, reqs[..n], l);
      if reqs[n].ip == ip && ip in s' {
        SpacedRefills(s'[ip], reqs[n].now, l);
        hide Refilled, Growth;
      }
    }
  }

  function Burst(ip: Address, now: real, n: nat): (reqs: seq<Request>)
    ensures |reqs| == n && forall i :: 0 <= i < n ==> reqs[i] == Request(ip, now)
  {
    if n == 0 then [] else Burst(ip, now, n - 1) + [Request(ip, now)]
  }

  /** Whole tokens left after n requests of a new address at one instant. */
  function Left(n: nat, l: Limits): nat {
    if n <= l.burst + 1 then l.burst + 1 - n else 0
  }

  lemma BurstStep(s: Buckets, ip: Address, now: real, left: nat, l: Limits)
    requires ip in s && s[ip] == Bucket(left as real, now) && left <= l.burst
    ensures Allowed(s, Request(ip, now), l) <==> left > 0
    ensures ip in Next(s, Request(ip, now), l)
    ensures Next(s, Request(ip, now), l)[ip] == Bucket((if left > 0 then left - 1 else 0) as real, now)
  {
    NoTimeNoRefill(s[ip], now, l);
    hide Refilled;
  }

  /** The bound is met: of n requests a new address sends at one instant, exactly
      BURST + 1 pass (or all n, if fewer). */
  lemma {:induction false} NewAddressBurst(s: Buckets, ip: Address, now: real, n: nat, l: Limits)
    requires ip !in s
    ensures Admitted(s, Burst(ip, now, n), ip, l) == if n <= l.burst + 1 then n else l.burst + 1
    ensures n == 0 ==> ip !in Run(s, Burst(ip, now, n), l)
    ensures n > 0 ==> ip in Run(s, Burst(ip, now, n), l)
    ensures n > 0 ==> Run(s, Burst(ip, now, n), l)[ip] == Bucket(Left(n, l) as real, now)
  {
    if n > 0 {
      NewAddressBurst(s, ip, now, n - 1, l);
      var reqs := Burst(ip, now, n);
      assert reqs[..|reqs| - 1] == Burst(ip, now, n - 1);
      var before := Run(s, Burst(ip, now, n - 1), l);
      assert reqs[n - 1] == Request(ip, now);
      assert Run(s, reqs, l) == Next(before, reqs[n - 1], l);
      assert Admitted(s, reqs, ip, l)
          == Admitted(s, Burst(ip, now, n - 1), ip, l) + (if Allowed(before, reqs[n - 1], l) then 1 else 0);
      hide Run, Admitted, Burst, Refilled;
      if n > 1 {
        hide Next, Allowed;
        BurstStep(before, ip, now, Left(n - 1, l), l);
      }
    }
  }

  lemma NoTimeNoRefill(b: Bucket, now: real, l: Limits)
    requires b.last == now && b.tokens <= l.burst as real
    ensures Refilled(b, now, l) == b.tokens
  {
    assert now - b.last == 0.0;
    assert Growth(0.0, l) == 0.0;
    hide Growth;
  }

  // ---- exactly when a request is admitted ----------------------------------------

  const NOBODY: Buckets := map[]

  /** The requests of the address let through from index j on, its first one free. */
  function Charged(reqs: seq<Request>, j: nat, ip: Address, l: Limits): nat {
    if |reqs| <= j then 0
    else
      var before, r := reqs[..|reqs| - 1], reqs[|reqs| - 1];
      var s := Run(NOBODY, before, l);
      Charged(before, j, ip, l) + (if r.ip == ip && ip in s && Allowed(s, r, l) then 1 else 0)
  }

  /** What the window from request j to time t leaves of its allowance. */
  function Remaining(reqs: seq<Request>, j: nat, ip: Address, t: real, l: Limits): real
    requires j < |reqs|
  {
    l.burst as real + Growth(t - reqs[j].now, l) - Charged(reqs, j, ip, l) as real
  }

  predicate Asks(reqs: seq<Request>, j: nat, ip: Address) {
    j < |reqs| && reqs[j].ip == ip
  }

  /** The tokens at a time are the least that the burst and the windows leave. */
  ghost predicate IsLeast(x: real, reqs: seq<Request>, ip: Address, t: real, l: Limits) {
    && x <= l.burst as real
    && (forall j: nat :: Asks(reqs, j, ip) ==> x <= Remaining(reqs, j, ip, t, l))
    && (x == l.burst as real || exists j: nat :: Asks(reqs, j, ip) && x == Remaining(reqs, j, ip, t, l))
  }

  lemma GrowthAdds(a: real, b: real, l: Limits)
    ensures Growth(a, l) + Growth(b, l) == Growth(a + b, l)
  {
  }

  /** The windows one request and some time later. */
  lemma RemainingLater(reqs: seq<Request>, j: nat, ip: Address, t: real, l: Limits)
    requires j < |reqs| - 1
    ensures var before, r := reqs[..|reqs| - 1], reqs[|reqs| - 1]; var s := Run(NOBODY, before, l);
      Remaining(reqs, j, ip, t, l)
      == Remaining(before, j, ip, r.now, l) + Growth(t - r.now, l)
         - if r.ip == ip && ip in s && Allowed(s, r, l) then 1.0 else 0.0
  {
    var r := reqs[|reqs| - 1];
    hide Growth, Run, Allowed;
    GrowthAdds(r.now - reqs[j].now, t - r.now, l);
    assert r.now - reqs[j].now + (t - r.now) == t - reqs[j].now;
  }

  lemma NewestWindow(reqs: seq<Request>, ip: Address, t: real, l: Limits)
    requires reqs != []
    ensures var before, r := reqs[..|reqs| - 1], reqs[|reqs| - 1]; var s := Run(NOBODY, before, l);
      Remaining(reqs, |reqs| - 1, ip, t, l)
      == l.burst as real + Growth(t - r.now, l) - if r.ip == ip && ip in s && Allowed(s, r, l) then 1.0 else 0.0
  {
    hide Growth, Run, Allowed;
    assert Charged(reqs[..|reqs| - 1], |reqs| - 1, ip, l) == 0;
  }

  lemma KnownIfAsked(reqs: seq<Request>, ip: Address, l: Limits)
    ensures ip in Run(NOBODY, reqs, l) <==> exists j: nat :: Asks(reqs, j, ip)
  {
    if reqs != [] {
      var n := |reqs| - 1;
      KnownIfAsked(reqs[..n], ip, l);
      hide Run, Refilled;
      RunUnfolds(NOBODY, reqs, l);
      if reqs[n].ip == ip {
        assert Asks(reqs, n, ip);
      }
      forall j: nat | j < n ensures Asks(reqs[..n], j, ip) <==> Asks(reqs, j, ip) {
      }
      assert forall j: nat :: Asks(reqs, j, ip) && j != n ==> Asks(reqs[..n], j, ip);
    }
  }

  lemma RunUnfolds(s: Buckets, reqs: seq<Request>, l: Limits)
    requires reqs != []
    ensures Run(s, reqs, l) == Next(Run(s, reqs[..|reqs| - 1], l), reqs[|reqs| - 1], l)
  {
  }

  /** The requests are in order of time, none after t. */
  predicate InOrder(reqs: seq<Request>, t: real) {
    && (forall i, j :: 0 <= i < j < |reqs| ==> reqs[i].now <= reqs[j].now)
    && (forall i :: 0 <= i < |reqs| ==> reqs[i].now <= t)
  }

  /** A request of another address. */
  lemma OtherKeepsLeast(x: real, reqs: seq<Request>, ip: Address, t: real, l: Limits)
    requires reqs != [] && reqs[|reqs| - 1].ip != ip && IsLeast(x, reqs[..|reqs| - 1], ip, t, l)
    ensures IsLeast(x, reqs, ip, t, l)
  {
    var before := reqs[..|reqs| - 1];
    hide Run, Growth, Allowed;
    forall j: nat | Asks(reqs, j, ip)
      ensures Asks(before, j, ip) && Remaining(reqs, j, ip, t, l) == Remaining(before, j, ip, t, l)
    {
    }
    if x != l.burst as real {
      var j: nat :| Asks(before, j, ip) && x == Remaining(before, j, ip, t, l);
      assert Asks(reqs, j, ip);
    }
  }

  /** The address asks, having asked before: its tokens were x, and are then what is
      left of them, grown till t. */
  lemma AskingKeepsLeast(x: real, reqs: seq<Request>, ip: Address, t: real, l: Limits)
    requires reqs != [] && reqs[|reqs| - 1].ip == ip && ip in Run(NOBODY, reqs[..|reqs| - 1], l)
    requires IsLeast(x, reqs[..|reqs| - 1], ip, reqs[|reqs| - 1].now, l)
    ensures var r, s := reqs[|reqs| - 1], Run(NOBODY, reqs[..|reqs| - 1], l);
      var y := x - (if Allowed(s, r, l) then 1.0 else 0.0) + Growth(t - r.now, l);
      IsLeast(if y < l.burst as real then y else l.burst as real, reqs, ip, t, l)
  {
    var n := |reqs| - 1;
    var before, r := reqs[..n], reqs[n];
    var taken := if Allowed(Run(NOBODY, before, l), r, l) then 1.0 else 0.0;
    var y := x - taken + Growth(t - r.now, l);
    NewestWindow(reqs, ip, t, l);
    hide Run, Growth, Allowed, Charged;
    forall j: nat | Asks(reqs, j, ip) ensures y <= Remaining(reqs, j, ip, t, l) {
      if j < n {
        assert Asks(before, j, ip);
        RemainingLater(reqs, j, ip, t, l);
      }
    }
    if y < l.burst as real {
      assert Asks(reqs, n, ip);
      if x != l.burst as real {
        var j: nat :| Asks(before, j, ip) && x == Remaining(before, j, ip, r.now, l);
        RemainingLater(reqs, j, ip, t, l);
        assert Asks(reqs, j, ip);
      }
    }
  }

  lemma FirstIsLeast(reqs: seq<Request>, ip: Address, t: real, l: Limits)
    requires reqs != [] && reqs[|reqs| - 1].ip == ip && ip !in Run(NOBODY, reqs[..|reqs| - 1], l)
    requires reqs[|reqs| - 1].now <= t
    ensures IsLeast(l.burst as real, reqs, ip, t, l)
  {
    var n := |reqs| - 1;
    NewestWindow(reqs, ip, t, l);
    GrowthIsNonNegative(t - reqs[n].now, l);
    KnownIfAsked(reqs[..n], ip, l);
    hide Run, Growth, Remaining;
    forall j: nat | j < n ensures Asks(reqs, j, ip) == Asks(reqs[..n], j, ip) {
    }
  }

  lemma {:induction false} TokensAre(reqs: seq<Request>, ip: Address, t: real, l: Limits)
    requires InOrder(reqs, t) && ip in Run(NOBODY, reqs, l)
    ensures IsLeast(Refilled(Run(NOBODY, reqs, l)[ip], t, l), reqs, ip, t, l)
  {
    var n := |reqs| - 1;
    var before, r := reqs[..n], reqs[n];
    var s := Run(NOBODY, before, l);
    RunUnfolds(NOBODY, reqs, l);
    hide Run, IsLeast, Growth;
    if r.ip != ip {
      TokensAre(before, ip, t, l);
      OtherKeepsLeast(Refilled(s[ip], t, l), reqs, ip, t, l);
    } else if ip in s {
      TokensAre(before, ip, r.now, l);
      AskingKeepsLeast(Refilled(s[ip], r.now, l), reqs, ip, t, l);
    } else {
      FirstIsLeast(reqs, ip, t, l);
      GrowthIsNonNegative(t - r.now, l);
    }
  }

  /** The limiter admits exactly what its windows allow: a request is let through iff
      its address asks for the first time, or the burst is at least one and no window
      from an earlier request of the address has used up its allowance. */
  lemma AdmittedIff(reqs: seq<Request>, ip: Address, t: real, l: Limits)
    requires InOrder(reqs, t)
    ensures Allowed(Run(NOBODY, reqs, l), Request(ip, t), l)
       <==> || (forall j: nat :: !Asks(reqs, j, ip))
            || (l.burst >= 1 && forall j: nat :: Asks(reqs, j, ip) ==> Remaining(reqs, j, ip, t, l) >= 1.0)
  {
    KnownIfAsked(reqs, ip, l);
    if ip in Run(NOBODY, reqs, l) {
      TokensAre(reqs, ip, t, l);
      hide Run, Remaining, Refilled;
    }
  }

  class Limiter {
    const limits: Limits
    var buckets: Buckets

    constructor (l: Limits)
      ensures limits == l && buckets == map[]
    {
      limits := l;
      buckets := map[];
    }

    method RateLimitCheck(ip: Address, now: real) returns (allowed: bool)
      modifies this
      ensures allowed <==> Allowed(old(buckets), Request(ip, now), limits)
      ensures buckets == Next(old(buckets), Request(ip, now), limits)
    {
      if ip !in buckets {
        buckets := buckets[ip := Bucket(limits.burst as real, now)];
        return true;
      }
      var tokens := Refilled(buckets[ip], now, limits);
      if tokens < 1.0 {
        buckets := buckets[ip := Bucket(tokens, now)];
        return false;
      }
      buckets := buckets[ip := Bucket(tokens - 1.0, now)];
      return true;
    }
  }
}
