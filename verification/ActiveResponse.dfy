/** The agent's active response (commands.go): blocking and unblocking addresses,
    isolating and releasing the host, and the timers that undo both. Commands and
    timers are atomic steps and every firewall call succeeds. */
module ActiveResponse {
  import opened Wrappers
  import opened Firewall

  /** When a block or an isolation was placed, and the TTL in force then. */
  datatype Placed = Placed(at: int, ttl: int)

  datatype Timer = UnblockAt(due: int, ip: Address) | UnisolateAt(due: int)

  datatype Host = Host(
    filter: Filter,
    blocks: map<Address, Placed>,     // activeBlocks
    isolated: bool,
    isolationIps: seq<Address>,
    isolatedFor: Placed,
    safelist: set<Address>,
    ttl: int,                         // BlockTTLSecs
    now: int,
    timers: seq<Timer>)

  /** Manager commands; the addresses are what the manager's name resolves to
      when the command runs. */
  datatype Command =
    | FirewallDrop(ip: Address)
    | FirewallUnblock(ip: Address)
    | IsolateHost(manager: seq<Address>)
    | UnisolateHost(manager: seq<Address>)

  function DoDrop(h: Host, ip: Address): Host {
    if ip in h.safelist || ip in h.blocks then h
    else h.(filter := Block(h.filter, ip), blocks := h.blocks[ip := Placed(h.now, h.ttl)],
            timers := if h.ttl > 0 then h.timers + [UnblockAt(h.now + h.ttl, ip)] else h.timers)
  }

  function DoUnblock(h: Host, ip: Address): Host {
    h.(filter := Unblock(h.filter, ip), blocks := h.blocks - {ip})
  }

  /** Without an address for the manager the host is not isolated. */
  function DoIsolate(h: Host, manager: seq<Address>): Host {
    if h.isolated || manager == [] then h
    else h.(filter := Isolate(h.filter, manager), isolated := true, isolationIps := manager,
            isolatedFor := Placed(h.now, h.ttl),
            timers := if h.ttl > 0 then h.timers + [UnisolateAt(h.now + h.ttl)] else h.timers)
  }

  function DoUnisolate(h: Host, manager: seq<Address>): Host {
    h.(filter := Unisolate(h.filter, if h.isolationIps == [] then manager else h.isolationIps),
       isolated := false, isolationIps := [])
  }

  function Do(h: Host, c: Command): Host {
    match c
    case FirewallDrop(ip) => DoDrop(h, ip)
    case FirewallUnblock(ip) => DoUnblock(h, ip)
    case IsolateHost(manager) => DoIsolate(h, manager)
    case UnisolateHost(manager) => DoUnisolate(h, manager)
  }

  function DoAll(h: Host, commands: seq<Command>): Host {
    if commands == [] then h
    else Do(DoAll(h, commands[..|commands| - 1]), commands[|commands| - 1])
  }

  // ---- isolation and blocking commute ---------------------------------------

  predicate OnlyBlocking(commands: seq<Command>) {
    forall i :: 0 <= i < |commands| ==> commands[i].FirewallDrop? || commands[i].FirewallUnblock?
  }

  /** Drops and unblocks on the isolated host keep it the isolated form of what
      they would have made of the open one. */
  lemma {:induction false} BlockingUnderIsolation(h: Host, manager: seq<Address>, commands: seq<Command>)
    requires !h.isolated && manager != [] && OnlyBlocking(commands)
    ensures var inside, outside := DoAll(DoIsolate(h, manager), commands), DoAll(h, commands);
            && inside.filter == Isolated(outside.filter, manager)
            && inside.blocks == outside.blocks && inside.safelist == outside.safelist
            && inside.isolated && inside.isolationIps == manager
            && inside.now == outside.now && inside.ttl == outside.ttl
            && outside.filter.inputAccepts == h.filter.inputAccepts
            && outside.filter.outputAccepts == h.filter.outputAccepts
  {
    hide Isolated, Isolate;
    if commands == [] {
      IsolateGives(h.filter, manager);
    } else {
      var n := |commands| - 1;
      BlockingUnderIsolation(h, manager, commands[..n]);
      BlockWhileIsolated(DoAll(h, commands[..n]).filter, manager, commands[n].ip);
    }
  }

  /** Isolate, any drops and unblocks, then release: the chains are exactly what
      the drops and unblocks alone would have left, whatever rules were there
      before and whatever the manager resolves to; the policies are ACCEPT. So
      nothing at all remains of the isolation iff both policies were ACCEPT. */
  lemma IsolationLeavesNoTraceIff(h: Host, manager: seq<Address>, later: seq<Address>, commands: seq<Command>)
    requires !h.isolated && manager != [] && OnlyBlocking(commands)
    ensures var released := DoUnisolate(DoAll(DoIsolate(h, manager), commands), later);
            var alone := DoAll(h, commands);
            && released.filter == alone.filter.(inputAccepts := true, outputAccepts := true)
            && released.blocks == alone.blocks && !released.isolated
            && (released.filter == alone.filter <==> h.filter.inputAccepts && h.filter.outputAccepts)
  {
    BlockingUnderIsolation(h, manager, commands);
    UnisolateUndoes(DoAll(h, commands).filter, manager);
    hide DoAll, Isolated, Unisolate, DoIsolate;
  }

  /** While isolated, whatever is dropped or unblocked: a packet gets through iff
      it is to or from a lifeline address, loopback or part of an established
      flow, or a rule of the host's own chain accepts it. */
  lemma LifelineHolds(h: Host, manager: seq<Address>, commands: seq<Command>, p: Packet)
    requires !h.isolated && manager != [] && OnlyBlocking(commands)
    ensures var inside, own := DoAll(DoIsolate(h, manager), commands).filter, DoAll(h, commands).filter;
            && (InputPasses(inside, p)
                <==> p.src in manager || p.established || p.loopback || Verdict(own.input, p) == Some(true))
            && (OutputPasses(inside, p)
                <==> p.dst in manager || p.established || p.loopback || Verdict(own.output, p) == Some(true))
  {
    BlockingUnderIsolation(h, manager, commands);
    IsolatedPasses(DoAll(h, commands).filter, manager, p);
    hide DoAll, Isolated, DoIsolate, InputPasses, OutputPasses, Verdict;
  }

  /** unisolate-host is carried out whether or not the host is isolated. On a
      host that is not, it is harmless iff both policies are ACCEPT and the
      operator has none of the rules it deletes. */
  lemma StrayReleaseIsHarmlessIff(h: Host, manager: seq<Address>)
    requires !h.isolated && h.isolationIps == []
    ensures DoUnisolate(h, manager).filter == h.filter
       <==> && h.filter.inputAccepts && h.filter.outputAccepts
            && (forall i :: 0 <= i < |manager| ==>
                  SrcAccept(manager[i]) !in h.filter.input && DstAccept(manager[i]) !in h.filter.output)
            && EstAccept !in h.filter.input && LoAccept !in h.filter.input
            && EstAccept !in h.filter.output && LoAccept !in h.filter.output
  {
    var f := h.filter.(inputAccepts := true, outputAccepts := true);
    RevokeDeletesEach(f, manager);
    StrayChain(f.input, SrcList(manager));
    StrayChain(f.output, DstList(manager));
    ListedRules(manager);
    hide Revoke, DeleteEach, DeleteFirst, SrcList, DstList;
  }

  lemma StrayChain(chain: seq<Rule>, rules: seq<Rule>)
    ensures DeleteFirst(DeleteFirst(DeleteEach(chain, rules), EstAccept), LoAccept) == chain
       <==> && (forall i :: 0 <= i < |rules| ==> rules[i] !in chain)
            && EstAccept !in chain && LoAccept !in chain
  {
    DeleteEachShrinks(chain, rules);
    hide DeleteEach;
  }

  lemma {:induction false} ListedRules(ips: seq<Address>)
    ensures |SrcList(ips)| == |DstList(ips)| == |ips|
    ensures forall i :: 0 <= i < |ips| ==> SrcList(ips)[i] == SrcAccept(ips[i]) && DstList(ips)[i] == DstAccept(ips[i])
  {
    if ips != [] {
      ListedRules(ips[..|ips| - 1]);
    }
  }

  // ---- time -----------------------------------------------------------------

  datatype Event =
    | Run(c: Command)
    | Pass(seconds: nat)
    | SetTtl(ttl: int)
    | Fire(k: nat)

  /** A timer goes off: its address is unblocked, or the host released if it is
      still isolated. The effect does not ask which block the timer was for. */
  function FireTimer(h: Host, k: nat): Host
    requires k < |h.timers|
  {
    var rest := h.(timers := h.timers[..k] + h.timers[k + 1..]);
    match h.timers[k]
    case UnblockAt(_, ip) => DoUnblock(rest, ip)
    case UnisolateAt(_) => if rest.isolated then DoUnisolate(rest, []) else rest
  }

  function Next(h: Host, e: Event): Host {
    match e
    case Run(c) => Do(h, c)
    case Pass(seconds) => h.(now := h.now + seconds)
    case SetTtl(ttl) => h.(ttl := ttl)
    case Fire(k) => if k < |h.timers| && h.timers[k].due <= h.now then FireTimer(h, k) else h
  }

  function NextAll(h: Host, events: seq<Event>): Host {
    if events == [] then h
    else Next(NextAll(h, events[..|events| - 1]), events[|events| - 1])
  }

  /** The seconds that have gone by, and the TTL configured last. */
  function Elapsed(events: seq<Event>): nat {
    if events == [] then 0
    else Elapsed(events[1..]) + if events[0].Pass? then events[0].seconds else 0
  }

  function LastTtl(events: seq<Event>, ttl: int): int {
    if events == [] then ttl else LastTtl(events[1..], if events[0].SetTtl? then events[0].ttl else ttl)
  }

  lemma {:induction false} ElapsedSnoc(events: seq<Event>, e: Event, ttl: int)
    ensures Elapsed(events + [e]) == Elapsed(events) + if e.Pass? then e.seconds else 0
    ensures LastTtl(events + [e], ttl) == if e.SetTtl? then e.ttl else LastTtl(events, ttl)
  {
    if events != [] {
      assert (events + [e])[1..] == events[1..] + [e];
      ElapsedSnoc(events[1..], e, if events[0].SetTtl? then events[0].ttl else ttl);
    } else {
      assert [] + [e] == [e] && [e][1..] == [];
    }
  }

  /** In any run only passing time moves the clock, and only the configuration the TTL. */
  lemma {:induction false} ClockAndTtl(h: Host, events: seq<Event>)
    ensures NextAll(h, events).now == h.now + Elapsed(events)
    ensures NextAll(h, events).ttl == LastTtl(events, h.ttl) && NextAll(h, events).safelist == h.safelist
  {
    if events != [] {
      var before, e := events[..|events| - 1], events[|events| - 1];
      ClockAndTtl(h, before);
      ElapsedSnoc(before, e, h.ttl);
      assert events == before + [e];
      hide Elapsed, LastTtl, Block, Unblock, Isolate, Unisolate;
    }
  }

  predicate HasUnblock(timers: seq<Timer>, ip: Address, limit: int) {
    exists k :: 0 <= k < |timers| && timers[k].UnblockAt? && timers[k].ip == ip && timers[k].due <= limit
  }

  predicate HasUnisolate(timers: seq<Timer>, limit: int) {
    exists k :: 0 <= k < |timers| && timers[k].UnisolateAt? && timers[k].due <= limit
  }

  /** Every block and isolation with a TTL has a timer that ends it in time. */
  ghost predicate Covered(h: Host) {
    && (forall ip :: ip in h.blocks && h.blocks[ip].ttl > 0 ==>
          HasUnblock(h.timers, ip, h.blocks[ip].at + h.blocks[ip].ttl))
    && (h.isolated && h.isolatedFor.ttl > 0 ==> HasUnisolate(h.timers, h.isolatedFor.at + h.isolatedFor.ttl))
  }

  /** How many rules of the chain drop this source address. */
  function DropRules(chain: seq<Rule>, ip: Address): nat {
    multiset(chain)[SrcDrop(ip)]
  }

  /** Only an active block accounts for a drop rule that was not there before,
      and only an isolation for a closed policy. */
  ghost predicate Accounted(h: Host, original: seq<Rule>) {
    && (h.isolated <==> h.isolationIps != [])
    && (!h.isolated ==> h.filter.inputAccepts && h.filter.outputAccepts)
    && (forall ip :: DropRules(h.filter.input, ip) <= DropRules(original, ip) + (if ip in h.blocks then 1 else 0))
  }

  lemma MoreTimers(timers: seq<Timer>, t: Timer)
    ensures forall ip, limit :: HasUnblock(timers, ip, limit) ==> HasUnblock(timers + [t], ip, limit)
    ensures forall limit :: HasUnisolate(timers, limit) ==> HasUnisolate(timers + [t], limit)
    ensures t.UnblockAt? ==> HasUnblock(timers + [t], t.ip, t.due)
    ensures t.UnisolateAt? ==> HasUnisolate(timers + [t], t.due)
  {
    var more := timers + [t];
    assert more[|timers|] == t;
    assert forall k :: 0 <= k < |timers| ==> more[k] == timers[k];
  }

  /** Without one of its timers an address other than that timer's is still
      covered. */
  lemma OtherTimers(timers: seq<Timer>, k: nat)
    requires k < |timers|
    ensures var rest := timers[..k] + timers[k + 1..];
            && (forall ip, limit :: HasUnblock(timers, ip, limit) && timers[k] != UnblockAt(timers[k].due, ip) ==> HasUnblock(rest, ip, limit))
            && (forall limit :: HasUnisolate(timers, limit) && !timers[k].UnisolateAt? ==> HasUnisolate(rest, limit))
  {
    var rest := timers[..k] + timers[k + 1..];
    assert forall j :: 0 <= j < k ==> rest[j] == timers[j];
    assert forall j :: k < j < |timers| ==> rest[j - 1] == timers[j];
  }

  lemma NextKeepsCovered(h: Host, e: Event)
    requires Covered(h)
    ensures Covered(Next(h, e))
  {
    hide Block, Unblock, Isolate, Unisolate, HasUnblock, HasUnisolate;
    MoreTimers(h.timers, if e.Run? && e.c.FirewallDrop? then UnblockAt(h.now + h.ttl, e.c.ip) else UnisolateAt(h.now + h.ttl));
    if e.Fire? && e.k < |h.timers| {
      OtherTimers(h.timers, e.k);
    }
  }

  // ---- rule accounting ------------------------------------------------------

  lemma OtherRule(chain: seq<Rule>, r: Rule, ip: Address)
    requires r != SrcDrop(ip)
    ensures DropRules(InsertTop(chain, r), ip) == DropRules(chain, ip)
    ensures DropRules(DeleteFirst(chain, r), ip) == DropRules(chain, ip)
  {
  }

  lemma {:induction false} AllowKeepsDrops(f: Filter, ips: seq<Address>, ip: Address)
    ensures DropRules(Allow(f, ips).input, ip) == DropRules(f.input, ip)
  {
    hide DropRules, InsertTop;
    if ips != [] {
      var n := |ips| - 1;
      AllowKeepsDrops(f, ips[..n], ip);
      OtherRule(Allow(f, ips[..n]).input, SrcAccept(ips[n]), ip);
    }
  }

  lemma {:induction false} RevokeKeepsDrops(f: Filter, ips: seq<Address>, ip: Address)
    ensures DropRules(Revoke(f, ips).input, ip) == DropRules(f.input, ip)
  {
    hide DropRules, DeleteFirst;
    if ips != [] {
      var n := |ips| - 1;
      RevokeKeepsDrops(f, ips[..n], ip);
      OtherRule(Revoke(f, ips[..n]).input, SrcAccept(ips[n]), ip);
    }
  }

  lemma IsolationKeepsDrops(f: Filter, ips: seq<Address>, ip: Address)
    ensures DropRules(Isolate(f, ips).input, ip) == DropRules(f.input, ip)
    ensures DropRules(Unisolate(f, ips).input, ip) == DropRules(f.input, ip)
    ensures Unisolate(f, ips).inputAccepts && Unisolate(f, ips).outputAccepts
  {
    hide DropRules, InsertTop, DeleteFirst, Allow, Revoke;
    var base := f.(input := InsertTop(InsertTop(f.input, LoAccept), EstAccept),
                   output := InsertTop(InsertTop(f.output, LoAccept), EstAccept));
    OtherRule(f.input, LoAccept, ip);
    OtherRule(InsertTop(f.input, LoAccept), EstAccept, ip);
    AllowKeepsDrops(base, ips, ip);
    var open := f.(inputAccepts := true, outputAccepts := true);
    RevokeKeepsDrops(open, ips, ip);
    RevokeKeepsPolicies(open, ips);
    OtherRule(Revoke(open, ips).input, EstAccept, ip);
    OtherRule(DeleteFirst(Revoke(open, ips).input, EstAccept), LoAccept, ip);
  }

  lemma {:induction false} RevokeKeepsPolicies(f: Filter, ips: seq<Address>)
    ensures Revoke(f, ips).inputAccepts == f.inputAccepts && Revoke(f, ips).outputAccepts == f.outputAccepts
  {
    if ips != [] {
      RevokeKeepsPolicies(f, ips[..|ips| - 1]);
    }
  }

  lemma BlockingCounts(f: Filter, ip: Address)
    ensures forall other :: DropRules(Block(f, ip).input, other) == DropRules(f.input, other) + (if other == ip then 1 else 0)
    ensures forall other ::
              DropRules(Unblock(f, ip).input, other)
              == DropRules(f.input, other) - (if other == ip && DropRules(f.input, ip) > 0 then 1 else 0)
    ensures Block(f, ip) == f.(input := Block(f, ip).input) && Unblock(f, ip) == f.(input := Unblock(f, ip).input)
  {
    hide DeleteFirst;
    assert SrcDrop(ip) in f.input <==> SrcDrop(ip) in multiset(f.input);
  }

  lemma DropKeepsAccounted(h: Host, ip: Address, original: seq<Rule>)
    requires Accounted(h, original)
    ensures Accounted(DoDrop(h, ip), original)
    ensures Accounted(DoUnblock(h, ip), original)
  {
    BlockingCounts(h.filter, ip);
    hide DropRules, Block, Unblock;
  }

  lemma IsolateKeepsAccounted(h: Host, manager: seq<Address>, original: seq<Rule>)
    requires Accounted(h, original)
    ensures Accounted(DoIsolate(h, manager), original)
    ensures Accounted(DoUnisolate(h, manager), original)
  {
    IsolationKeepsAllDrops(h.filter, manager);
    IsolationKeepsAllDrops(h.filter, if h.isolationIps == [] then manager else h.isolationIps);
    hide DropRules, Isolate, Unisolate;
  }

  lemma IsolationKeepsAllDrops(f: Filter, ips: seq<Address>)
    ensures forall ip :: DropRules(Isolate(f, ips).input, ip) == DropRules(f.input, ip)
    ensures forall ip :: DropRules(Unisolate(f, ips).input, ip) == DropRules(f.input, ip)
    ensures Unisolate(f, ips).inputAccepts && Unisolate(f, ips).outputAccepts
  {
    forall ip
      ensures DropRules(Isolate(f, ips).input, ip) == DropRules(f.input, ip)
      ensures DropRules(Unisolate(f, ips).input, ip) == DropRules(f.input, ip)
    {
      IsolationKeepsDrops(f, ips, ip);
    }
    IsolationKeepsDrops(f, ips, "");
  }

  lemma NextKeepsAccounted(h: Host, e: Event, original: seq<Rule>)
    requires Accounted(h, original)
    ensures Accounted(Next(h, e), original)
  {
    hide DropRules, DoDrop, DoUnblock, DoIsolate, DoUnisolate;
    match e
    case Run(FirewallDrop(ip)) => DropKeepsAccounted(h, ip, original);
    case Run(FirewallUnblock(ip)) => DropKeepsAccounted(h, ip, original);
    case Run(IsolateHost(manager)) => IsolateKeepsAccounted(h, manager, original);
    case Run(UnisolateHost(manager)) => IsolateKeepsAccounted(h, manager, original);
    case Fire(k) =>
      if k < |h.timers| && h.timers[k].due <= h.now {
        var rest := h.(timers := h.timers[..k] + h.timers[k + 1..]);
        DropKeepsAccounted(rest, if h.timers[k].UnblockAt? then h.timers[k].ip else "", original);
        IsolateKeepsAccounted(rest, [], original);
      }
    case _ =>
  }

  /** An agent that has just started on an open host. */
  predicate Idle(h: Host) {
    h.blocks == map[] && !h.isolated && h.isolationIps == [] && h.filter.inputAccepts && h.filter.outputAccepts
  }

  lemma {:induction false} RunKeepsBoth(h: Host, events: seq<Event>)
    requires Idle(h)
    ensures Covered(NextAll(h, events)) && Accounted(NextAll(h, events), h.filter.input)
  {
    hide Next, Covered, Accounted;
    if events == [] {
      IdleIsCovered(h);
    } else {
      var n := |events| - 1;
      RunKeepsBoth(h, events[..n]);
      NextKeepsCovered(NextAll(h, events[..n]), events[n]);
      NextKeepsAccounted(NextAll(h, events[..n]), events[n], h.filter.input);
    }
  }

  lemma IdleIsCovered(h: Host)
    requires Idle(h)
    ensures Covered(h) && Accounted(h, h.filter.input)
  {
  }

  /** Self-healing, in any run of commands, TTL changes, passing time and timers:
      once no due timer is waiting, no block or isolation is older than the TTL
      it was placed under, every address without an active block has no more drop
      rules than at the start, and a host that is not isolated has both policies
      open. */
  lemma NothingOutlivesItsTtl(h: Host, events: seq<Event>)
    requires Idle(h)
    requires var r := NextAll(h, events); forall k :: 0 <= k < |r.timers| ==> r.timers[k].due > r.now
    ensures var r := NextAll(h, events);
            && (forall ip :: ip in r.blocks && r.blocks[ip].ttl > 0 ==> r.now < r.blocks[ip].at + r.blocks[ip].ttl)
            && (r.isolated && r.isolatedFor.ttl > 0 ==> r.now < r.isolatedFor.at + r.isolatedFor.ttl)
            && (forall ip :: ip !in r.blocks ==>
                  DropRules(r.filter.input, ip) <= DropRules(h.filter.input, ip))
            && (!r.isolated ==> r.filter.inputAccepts && r.filter.outputAccepts)
  {
    RunKeepsBoth(h, events);
    hide NextAll;
  }

  // ---- what blocks and the safelist mean for packets ----------------------------

  /** An address in activeBlocks has its drop rule, and none of the safelist is
      there. */
  ghost predicate Guarded(h: Host, safelist: set<Address>) {
    && (forall ip :: ip in h.blocks ==> DropRules(h.filter.input, ip) >= 1)
    && h.safelist == safelist && (forall ip :: ip in safelist ==> ip !in h.blocks)
  }

  lemma DropKeepsGuarded(h: Host, ip: Address, safelist: set<Address>)
    requires Guarded(h, safelist)
    ensures Guarded(DoDrop(h, ip), safelist) && Guarded(DoUnblock(h, ip), safelist)
  {
    BlockingCounts(h.filter, ip);
    hide DropRules, Block, Unblock;
  }

  lemma IsolateKeepsGuarded(h: Host, manager: seq<Address>, safelist: set<Address>)
    requires Guarded(h, safelist)
    ensures Guarded(DoIsolate(h, manager), safelist) && Guarded(DoUnisolate(h, manager), safelist)
  {
    IsolationKeepsAllDrops(h.filter, manager);
    IsolationKeepsAllDrops(h.filter, if h.isolationIps == [] then manager else h.isolationIps);
    hide DropRules, Isolate, Unisolate;
  }

  lemma NextKeepsGuarded(h: Host, e: Event, safelist: set<Address>)
    requires Guarded(h, safelist)
    ensures Guarded(Next(h, e), safelist)
  {
    hide DropRules, DoDrop, DoUnblock, DoIsolate, DoUnisolate;
    match e
    case Run(FirewallDrop(ip)) => DropKeepsGuarded(h, ip, safelist);
    case Run(FirewallUnblock(ip)) => DropKeepsGuarded(h, ip, safelist);
    case Run(IsolateHost(manager)) => IsolateKeepsGuarded(h, manager, safelist);
    case Run(UnisolateHost(manager)) => IsolateKeepsGuarded(h, manager, safelist);
    case Fire(k) =>
      if k < |h.timers| && h.timers[k].due <= h.now {
        var rest := h.(timers := h.timers[..k] + h.timers[k + 1..]);
        DropKeepsGuarded(rest, if h.timers[k].UnblockAt? then h.timers[k].ip else "", safelist);
        IsolateKeepsGuarded(rest, [], safelist);
      }
    case _ =>
  }

  lemma {:induction false} RunKeepsGuarded(h: Host, events: seq<Event>)
    requires Idle(h)
    ensures Guarded(NextAll(h, events), h.safelist)
  {
    hide Next, Guarded;
    if events == [] {
      IdleIsGuarded(h);
    } else {
      RunKeepsGuarded(h, events[..|events| - 1]);
      NextKeepsGuarded(NextAll(h, events[..|events| - 1]), events[|events| - 1], h.safelist);
    }
  }

  lemma IdleIsGuarded(h: Host)
    requires Idle(h)
    ensures Guarded(h, h.safelist)
  {
  }

  /** In any run: a packet from a blocked address is refused unless a rule before its
      drop rule accepts it. */
  lemma BlockedIsRefused(h: Host, events: seq<Event>, p: Packet) returns (k: nat)
    requires Idle(h) && p.src in NextAll(h, events).blocks
    ensures var f := NextAll(h, events).filter;
      && k < |f.input| && f.input[k] == SrcDrop(p.src)
      && (InputPasses(f, p) <==> Verdict(f.input[..k], p) == Some(true))
  {
    var f := NextAll(h, events).filter;
    RunKeepsGuarded(h, events);
    hide NextAll, InputPasses, Verdict;
    assert DropRules(f.input, p.src) >= 1;
    assert SrcDrop(p.src) in multiset(f.input);
    k :| 0 <= k < |f.input| && f.input[k] == SrcDrop(p.src);
    DropDecides(f, k, p);
  }

  /** In any run an address on the safelist is never blocked, and never gains a drop
      rule; a drop command for one changes nothing. */
  lemma SafelistedIsLeftAlone(h: Host, events: seq<Event>, ip: Address)
    requires Idle(h) && ip in h.safelist
    ensures var r := NextAll(h, events);
      && ip !in r.blocks
      && DropRules(r.filter.input, ip) <= DropRules(h.filter.input, ip)
      && Next(r, Run(FirewallDrop(ip))) == r
  {
    RunKeepsGuarded(h, events);
    RunKeepsBoth(h, events);
    hide NextAll, DropRules;
  }

  /** A drop command for an address neither safelisted nor blocked refuses its packets
      where no earlier rule decides, and records it; all other packets fare as
      before. */
  lemma DropTakesEffect(h: Host, ip: Address, p: Packet)
    requires ip !in h.safelist && ip !in h.blocks
    ensures var r := DoDrop(h, ip);
      && r.blocks == h.blocks[ip := Placed(h.now, h.ttl)]
      && (InputPasses(r.filter, p)
          <==> if Verdict(h.filter.input, p).Some? || p.src != ip then InputPasses(h.filter, p) else false)
      && (OutputPasses(r.filter, p) <==> OutputPasses(h.filter, p))
  {
    BlockRefuses(h.filter, ip, p);
    hide Verdict, Block;
    assert DoDrop(h, ip).filter == Block(h.filter, ip);
    assert Block(h.filter, ip).inputAccepts == h.filter.inputAccepts by {
      BlockingCounts(h.filter, ip);
    }
  }

  // ---- and how long it does last --------------------------------------------

  /** The first timer that is due, if there is one. */
  function FirstDue(timers: seq<Timer>, now: int): (k: nat)
    ensures k <= |timers|
    ensures k < |timers| ==> timers[k].due <= now
    ensures forall i :: 0 <= i < k ==> timers[i].due > now
  {
    if timers == [] || timers[0].due <= now then 0 else 1 + FirstDue(timers[1..], now)
  }

  /** All due timers go off. */
  function FireDue(h: Host): Host
    decreases |h.timers|
  {
    var k := FirstDue(h.timers, h.now);
    if k == |h.timers| then h else FireDue(FireTimer(h, k))
  }

  lemma NextAllAppend(h: Host, a: seq<Event>, b: seq<Event>)
    ensures NextAll(h, a + b) == NextAll(NextAll(h, a), b)
    decreases |b|
  {
    hide Next;
    if b == [] {
      assert a + b == a;
    } else {
      var n := |b| - 1;
      assert (a + b)[..|a| + n] == a + b[..n];
      NextAllAppend(h, a, b[..n]);
    }
  }

  /** Timers going off is a run like any other, and leaves none that is due. */
  lemma {:induction false} FireDueIsARun(h: Host) returns (events: seq<Event>)
    ensures (forall e :: e in events ==> e.Fire?) && NextAll(h, events) == FireDue(h)
    ensures forall t :: t in FireDue(h).timers ==> t.due > h.now
    decreases |h.timers|
  {
    hide Unblock, Unisolate, NextAll;
    var k := FirstDue(h.timers, h.now);
    events := [];
    if k < |h.timers| {
      var rest := FireDueIsARun(FireTimer(h, k));
      events := [Fire(k)] + rest;
      NextAllAppend(h, [Fire(k)], rest);
    }
    OneEvent(h, Fire(k));
  }

  lemma OneEvent(h: Host, e: Event)
    ensures NextAll(h, []) == h && NextAll(h, [e]) == Next(h, e)
  {
    hide Next;
    assert [e][..0] == [];
  }

  /** A timer goes off when it is due, once, and not before: an address is no longer
      blocked, or the host no longer isolated, and nothing else is lifted. */
  lemma DueTimerGoesOff(h: Host, k: nat)
    requires k < |h.timers|
    ensures var r, t := Next(h, Fire(k)), h.timers[k];
      if t.due > h.now then r == h
      else
        && r.timers == h.timers[..k] + h.timers[k + 1..]
        && r.blocks == (if t.UnblockAt? then h.blocks - {t.ip} else h.blocks)
        && (r.isolated <==> h.isolated && t.UnblockAt?)
  {
    hide Unblock, Unisolate;
  }

  /** Without a TTL there is no timer, and what a command placed only a command lifts. */
  lemma {:induction false} WithoutTtlNoTimer(h: Host, events: seq<Event>)
    requires h.timers == [] && h.ttl <= 0 && forall e :: e in events && e.SetTtl? ==> e.ttl <= 0
    ensures NextAll(h, events).timers == [] && NextAll(h, events).ttl <= 0
  {
    hide Next;
    if events != [] {
      var before, last := events[..|events| - 1], events[|events| - 1];
      assert last in events && forall e :: e in before ==> e in events;
      WithoutTtlNoTimer(h, before);
      StillNoTimer(NextAll(h, before), last);
    }
  }

  lemma StillNoTimer(h: Host, e: Event)
    requires h.timers == [] && h.ttl <= 0 && (e.SetTtl? ==> e.ttl <= 0)
    ensures Next(h, e).timers == [] && Next(h, e).ttl <= 0
  {
    hide Block, Unblock, Isolate, Unisolate;
  }

  /** Isolating an open host with an address for its manager lets nothing through but
      the lifeline and what the host's own rules accept; otherwise it does nothing. */
  lemma IsolateTakesEffect(h: Host, manager: seq<Address>, p: Packet)
    ensures var r := Next(h, Run(IsolateHost(manager)));
      && (r.isolated <==> h.isolated || manager != []) && r.blocks == h.blocks
      && if h.isolated || manager == [] then r == h
         else InputPasses(r.filter, p)
              <==> p.src in manager || p.established || p.loopback || Verdict(h.filter.input, p) == Some(true)
  {
    hide Isolate, InputPasses, Verdict, Isolated;
    if !h.isolated && manager != [] {
      IsolateGives(h.filter, manager);
      IsolatedPasses(h.filter, manager, p);
    }
  }

  /** Releasing opens both policies and lifts no block; unblocking lifts the one of its
      address. */
  lemma ReleaseTakesEffect(h: Host, manager: seq<Address>, ip: Address)
    ensures var r := Next(h, Run(UnisolateHost(manager)));
      !r.isolated && r.blocks == h.blocks && r.filter.inputAccepts && r.filter.outputAccepts
    ensures Next(h, Run(FirewallUnblock(ip))).blocks == h.blocks - {ip}
  {
    hide Unblock, Unisolate;
    ReleaseOpens(h.filter, if h.isolationIps == [] then manager else h.isolationIps);
  }

  lemma ReleaseOpens(f: Filter, ips: seq<Address>)
    ensures Unisolate(f, ips).inputAccepts && Unisolate(f, ips).outputAccepts
  {
    RevokeKeepsPolicies(f.(inputAccepts := true, outputAccepts := true), ips);
    hide Revoke;
  }

  lemma {:induction false} SurvivesIffNoTimerDue(h: Host, ip: Address)
    ensures ip in FireDue(h).blocks <==> ip in h.blocks && !HasUnblock(h.timers, ip, h.now)
    decreases |h.timers|
  {
    hide Unblock, Unisolate;
    var k := FirstDue(h.timers, h.now);
    if k < |h.timers| {
      var t := h.timers[k];
      SurvivesIffNoTimerDue(FireTimer(h, k), ip);
      OtherTimers(h.timers, k);
      FewerTimers(h.timers, k, ip, h.now);
    }
  }

  lemma FewerTimers(timers: seq<Timer>, k: nat, ip: Address, limit: int)
    requires k < |timers|
    ensures HasUnblock(timers[..k] + timers[k + 1..], ip, limit) ==> HasUnblock(timers, ip, limit)
    ensures timers[k].UnblockAt? && timers[k].ip == ip && timers[k].due <= limit ==> HasUnblock(timers, ip, limit)
  {
    var rest := timers[..k] + timers[k + 1..];
    assert forall j :: 0 <= j < |rest| ==> rest[j] == timers[if j < k then j else j + 1];
  }

  /** A timer is never cancelled: a block placed now still stands at a later time
      within its TTL iff no timer left over from an earlier block of the same
      address is due by then, and never stands once its TTL is over. */
  lemma BlockLastsIff(h: Host, ip: Address, later: int)
    requires ip !in h.blocks && ip !in h.safelist && h.ttl > 0 && later >= h.now
    ensures var r := FireDue(DoDrop(h, ip).(now := later));
            ip in r.blocks <==> later < h.now + h.ttl && !HasUnblock(h.timers, ip, later)
  {
    var placed := DoDrop(h, ip).(now := later);
    SurvivesIffNoTimerDue(placed, ip);
    hide FireDue;
    var mine := UnblockAt(h.now + h.ttl, ip);
    MoreTimers(h.timers, mine);
    var more := h.timers + [mine];
    assert forall k :: 0 <= k < |more| ==> more[k] == if k < |h.timers| then h.timers[k] else mine;
  }

  lemma FewerReleases(timers: seq<Timer>, k: nat, limit: int)
    requires k < |timers|
    ensures HasUnisolate(timers[..k] + timers[k + 1..], limit) ==> HasUnisolate(timers, limit)
    ensures timers[k].UnisolateAt? && timers[k].due <= limit ==> HasUnisolate(timers, limit)
  {
    var rest := timers[..k] + timers[k + 1..];
    assert forall j :: 0 <= j < |rest| ==> rest[j] == timers[if j < k then j else j + 1];
  }

  lemma {:induction false} IsolatedIffNoTimerDue(h: Host)
    ensures FireDue(h).isolated <==> h.isolated && !HasUnisolate(h.timers, h.now)
    decreases |h.timers|
  {
    hide Unblock, Unisolate;
    var k := FirstDue(h.timers, h.now);
    if k < |h.timers| {
      IsolatedIffNoTimerDue(FireTimer(h, k));
      OtherTimers(h.timers, k);
      FewerReleases(h.timers, k, h.now);
    }
  }

  /** The same for an isolation: a timer left over from an earlier one, released by
      hand before its TTL was over, ends this one when it comes due. */
  lemma IsolationLastsIff(h: Host, manager: seq<Address>, later: int)
    requires !h.isolated && manager != [] && h.ttl > 0 && later >= h.now
    ensures var r := FireDue(DoIsolate(h, manager).(now := later));
            r.isolated <==> later < h.now + h.ttl && !HasUnisolate(h.timers, later)
  {
    var placed := DoIsolate(h, manager).(now := later);
    IsolatedIffNoTimerDue(placed);
    hide FireDue;
    var mine := UnisolateAt(h.now + h.ttl);
    MoreTimers(h.timers, mine);
    var more := h.timers + [mine];
    assert forall k :: 0 <= k < |more| ==> more[k] == if k < |h.timers| then h.timers[k] else mine;
  }

  // ---- the agent ------------------------------------------------------------

  datatype Outcome = Executed | Safelisted | ManagerUnknown

  /** The package state of commands.go and the filter it edits call by call. */
  class Agent {
    var input: seq<Rule>
    var output: seq<Rule>
    var inputAccepts: bool
    var outputAccepts: bool
    var activeBlocks: map<Address, Placed>
    var isolationActive: bool
    var isolationIPs: seq<Address>
    var isolatedFor: Placed
    var safelist: set<Address>
    var ttl: int
    var now: int
    var timers: seq<Timer>

    ghost function Table(): Filter
      reads this
    {
      Filter(input, output, inputAccepts, outputAccepts)
    }

    ghost function Snapshot(): Host
      reads this
    {
      Host(Table(), activeBlocks, isolationActive, isolationIPs, isolatedFor, safelist, ttl, now, timers)
    }

    constructor (filter: Filter, blockTtl: int, safe: set<Address>, clock: int)
      ensures Idle(Snapshot()) <==> filter.inputAccepts && filter.outputAccepts
      ensures Snapshot() == Host(filter, map[], false, [], Placed(clock, blockTtl), safe, blockTtl, clock, [])
    {
      input, output := filter.input, filter.output;
      inputAccepts, outputAccepts := filter.inputAccepts, filter.outputAccepts;
      activeBlocks, isolationActive, isolationIPs := map[], false, [];
      isolatedFor, safelist, ttl, now, timers := Placed(clock, blockTtl), safe, blockTtl, clock, [];
    }

    method ExecuteDrop(ip: Address) returns (r: Outcome)
      modifies this
      ensures Snapshot() == DoDrop(old(Snapshot()), ip)
      ensures r == if ip in old(safelist) then Safelisted else Executed
    {
      if ip in safelist {
        return Safelisted;
      }
      if ip in activeBlocks {
        return Executed;
      }
      input := input + [SrcDrop(ip)];
      activeBlocks := activeBlocks[ip := Placed(now, ttl)];
      if ttl > 0 {
        timers := timers + [UnblockAt(now + ttl, ip)];
      }
      r := Executed;
    }

    method ExecuteUnblock(ip: Address)
      modifies this
      ensures Snapshot() == DoUnblock(old(Snapshot()), ip)
    {
      input := DeleteFirst(input, SrcDrop(ip));
      activeBlocks := activeBlocks - {ip};
    }

    /** isolateNetwork: one insert per rule, the policies last. */
    method IsolateNetwork(manager: seq<Address>)
      modifies this`input, this`output, this`inputAccepts, this`outputAccepts
      ensures Table() == Isolate(old(Table()), manager)
    {
      input := InsertTop(input, LoAccept);
      output := InsertTop(output, LoAccept);
      input := InsertTop(input, EstAccept);
      output := InsertTop(output, EstAccept);
      ghost var base := Table();
      for i := 0 to |manager|
        invariant Table() == Allow(base, manager[..i])
      {
        assert manager[..i + 1][..i] == manager[..i];
        output := InsertTop(output, DstAccept(manager[i]));
        input := InsertTop(input, SrcAccept(manager[i]));
      }
      assert manager[..|manager|] == manager;
      inputAccepts := false;
      outputAccepts := false;
    }

    /** unisolateNetwork: the policies first, then one delete per rule. */
    method UnisolateNetwork(ips: seq<Address>)
      modifies this`input, this`output, this`inputAccepts, this`outputAccepts
      ensures Table() == Unisolate(old(Table()), ips)
    {
      hide DeleteFirst;
      inputAccepts := true;
      outputAccepts := true;
      ghost var base := Table();
      for i := 0 to |ips|
        invariant Table() == Revoke(base, ips[..i])
      {
        assert ips[..i + 1][..i] == ips[..i];
        output := DeleteFirst(output, DstAccept(ips[i]));
        input := DeleteFirst(input, SrcAccept(ips[i]));
      }
      assert ips[..|ips|] == ips;
      input := DeleteFirst(input, EstAccept);
      output := DeleteFirst(output, EstAccept);
      input := DeleteFirst(input, LoAccept);
      output := DeleteFirst(output, LoAccept);
    }

    method RunIsolateHost(manager: seq<Address>) returns (r: Outcome)
      modifies this
      ensures Snapshot() == DoIsolate(old(Snapshot()), manager)
      ensures r == if old(isolationActive) || manager != [] then Executed else ManagerUnknown
    {
      hide Isolate;
      if isolationActive {
        return Executed;
      }
      if manager == [] {
        return ManagerUnknown;
      }
      IsolateNetwork(manager);
      isolationActive := true;
      isolationIPs := manager;
      isolatedFor := Placed(now, ttl);
      if ttl > 0 {
        timers := timers + [UnisolateAt(now + ttl)];
      }
      r := Executed;
    }

    method RunUnisolateHost(manager: seq<Address>)
      modifies this
      ensures Snapshot() == DoUnisolate(old(Snapshot()), manager)
    {
      var ips := isolationIPs;
      if ips == [] {
        ips := manager;
      }
      UnisolateNetwork(ips);
      isolationActive := false;
      isolationIPs := [];
    }

    /** A sleeping scheduleUnblock or scheduleUnisolate wakes up. */
    method TimerFires(k: nat)
      requires k < |timers| && timers[k].due <= now
      modifies this
      ensures Snapshot() == Next(old(Snapshot()), Fire(k))
    {
      hide Unblock, Unisolate;
      var t := timers[k];
      timers := timers[..k] + timers[k + 1..];
      match t {
        case UnblockAt(_, ip) => ExecuteUnblock(ip);
        case UnisolateAt(_) =>
          if isolationActive {
            RunUnisolateHost([]);
          }
      }
    }
  }
}
