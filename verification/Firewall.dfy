/** The Linux packet filter as active response edits it: two ordered rule chains
    with first-match semantics and a default policy each. */
module Firewall {
  import opened Wrappers

  /** A source or destination address, one spelling per address. */
  type Address = string

  datatype Match =
    | Loopback
    | Established
    | Src(ip: Address)
    | Dst(ip: Address)
    | Custom(id: nat)

  datatype Target = ACCEPT | DROP | REJECT | LOG

  datatype Rule = Rule(m: Match, target: Target)

  /** `custom` names the operator's own match conditions this packet meets. */
  datatype Packet = Packet(loopback: bool, established: bool, src: Address, dst: Address, custom: set<nat>)

  /** The part of the filter table that active response touches. */
  datatype Filter = Filter(input: seq<Rule>, output: seq<Rule>, inputAccepts: bool, outputAccepts: bool)

  predicate Matches(m: Match, p: Packet) {
    match m
    case Loopback => p.loopback
    case Established => p.established
    case Src(ip) => p.src == ip
    case Dst(ip) => p.dst == ip
    case Custom(id) => id in p.custom
  }

  /** The verdict of the first matching rule that gives one. */
  function Verdict(chain: seq<Rule>, p: Packet): Option<bool> {
    if chain == [] then None
    else if chain[0].target != LOG && Matches(chain[0].m, p) then Some(chain[0].target == ACCEPT)
    else Verdict(chain[1..], p)
  }

  predicate InputPasses(f: Filter, p: Packet) {
    match Verdict(f.input, p) case Some(b) => b case None => f.inputAccepts
  }

  predicate OutputPasses(f: Filter, p: Packet) {
    match Verdict(f.output, p) case Some(b) => b case None => f.outputAccepts
  }

  // ---- iptables -------------------------------------------------------------

  /** -I chain 1 */
  function InsertTop(chain: seq<Rule>, r: Rule): seq<Rule> {
    [r] + chain
  }

  /** -D chain: the first rule equal to the given one, if there is one. */
  function DeleteFirst(chain: seq<Rule>, r: Rule): (c: seq<Rule>)
    ensures r !in chain ==> c == chain
    ensures r in chain ==> |c| == |chain| - 1
    ensures r in chain ==> multiset(c) == multiset(chain) - multiset{r}
  {
    if chain == [] then []
    else if chain[0] == r then
      assert chain == [chain[0]] + chain[1..];
      chain[1..]
    else
      assert chain == [chain[0]] + chain[1..];
      [chain[0]] + DeleteFirst(chain[1..], r)
  }

  function SrcAccept(ip: Address): Rule { Rule(Src(ip), ACCEPT) }
  function DstAccept(ip: Address): Rule { Rule(Dst(ip), ACCEPT) }
  function SrcDrop(ip: Address): Rule { Rule(Src(ip), DROP) }
  const LoAccept := Rule(Loopback, ACCEPT)
  const EstAccept := Rule(Established, ACCEPT)

  /** Inserting the manager rules, one address after the other. */
  function Allow(f: Filter, ips: seq<Address>): Filter {
    if ips == [] then f
    else
      var g, ip := Allow(f, ips[..|ips| - 1]), ips[|ips| - 1];
      g.(input := InsertTop(g.input, SrcAccept(ip)), output := InsertTop(g.output, DstAccept(ip)))
  }

  /** isolateNetwork with every call succeeding. */
  function Isolate(f: Filter, ips: seq<Address>): Filter {
    var base := f.(input := InsertTop(InsertTop(f.input, LoAccept), EstAccept),
                   output := InsertTop(InsertTop(f.output, LoAccept), EstAccept));
    Allow(base, ips).(inputAccepts := false, outputAccepts := false)
  }

  /** Deleting the manager rules, one address after the other. */
  function Revoke(f: Filter, ips: seq<Address>): Filter {
    if ips == [] then f
    else
      var g, ip := Revoke(f, ips[..|ips| - 1]), ips[|ips| - 1];
      g.(input := DeleteFirst(g.input, SrcAccept(ip)), output := DeleteFirst(g.output, DstAccept(ip)))
  }

  /** unisolateNetwork with every call succeeding. */
  function Unisolate(f: Filter, ips: seq<Address>): Filter {
    var g := Revoke(f.(inputAccepts := true, outputAccepts := true), ips);
    g.(input := DeleteFirst(DeleteFirst(g.input, EstAccept), LoAccept),
       output := DeleteFirst(DeleteFirst(g.output, EstAccept), LoAccept))
  }

  function Block(f: Filter, ip: Address): Filter {
    f.(input := f.input + [SrcDrop(ip)])
  }

  function Unblock(f: Filter, ip: Address): Filter {
    f.(input := DeleteFirst(f.input, SrcDrop(ip)))
  }

  // ---- chains of the isolated host ------------------------------------------

  /** The manager's accept rules as they stand in INPUT and OUTPUT. */
  function SrcRules(ips: seq<Address>): (r: seq<Rule>)
    ensures |r| == |ips| && forall i :: 0 <= i < |r| ==> r[i] == SrcAccept(ips[|ips| - 1 - i])
  {
    if ips == [] then [] else [SrcAccept(ips[|ips| - 1])] + SrcRules(ips[..|ips| - 1])
  }

  function DstRules(ips: seq<Address>): (r: seq<Rule>)
    ensures |r| == |ips| && forall i :: 0 <= i < |r| ==> r[i] == DstAccept(ips[|ips| - 1 - i])
  {
    if ips == [] then [] else [DstAccept(ips[|ips| - 1])] + DstRules(ips[..|ips| - 1])
  }

  /** A host isolated for these manager addresses whose own rules are `own`. */
  function Isolated(own: Filter, ips: seq<Address>): Filter {
    Filter(SrcRules(ips) + ([EstAccept, LoAccept] + own.input),
           DstRules(ips) + ([EstAccept, LoAccept] + own.output), false, false)
  }

  lemma {:induction false} AllowPrepends(f: Filter, ips: seq<Address>)
    ensures Allow(f, ips) == f.(input := SrcRules(ips) + f.input, output := DstRules(ips) + f.output)
  {
    if ips == [] {
      assert SrcRules(ips) + f.input == f.input && DstRules(ips) + f.output == f.output;
    } else {
      var n := |ips| - 1;
      AllowPrepends(f, ips[..n]);
      assert [SrcAccept(ips[n])] + (SrcRules(ips[..n]) + f.input) == SrcRules(ips) + f.input;
      assert [DstAccept(ips[n])] + (DstRules(ips[..n]) + f.output) == DstRules(ips) + f.output;
    }
  }

  lemma IsolateGives(f: Filter, ips: seq<Address>)
    ensures Isolate(f, ips) == Isolated(f, ips)
  {
    var base := f.(input := InsertTop(InsertTop(f.input, LoAccept), EstAccept),
                   output := InsertTop(InsertTop(f.output, LoAccept), EstAccept));
    AllowPrepends(base, ips);
    assert base.input == [EstAccept, LoAccept] + f.input;
    assert base.output == [EstAccept, LoAccept] + f.output;
  }

  lemma HeadAndRest(front: seq<Rule>, back: seq<Rule>)
    requires front != []
    ensures front + back != [] && (front + back)[0] == front[0] && (front + back)[1..] == front[1..] + back
    ensures front == [front[0]] + front[1..]
  {
  }

  lemma {:induction false} DeleteInside(front: seq<Rule>, back: seq<Rule>, r: Rule)
    requires r in front
    ensures DeleteFirst(front + back, r) == DeleteFirst(front, r) + back
  {
    var first, rest := front[0], front[1..];
    assert first == r || r in rest;
    DeleteUnfolds(front, r);
    HeadAndRest(front, back);
    DeleteUnfolds(front + back, r);
    hide *;
    if first != r {
      DeleteInside(rest, back, r);
      Regroup([first], DeleteFirst(rest, r), back);
    }
  }

  lemma {:induction false} DeleteBehind(front: seq<Rule>, back: seq<Rule>, r: Rule)
    requires r !in front
    ensures DeleteFirst(front + back, r) == front + DeleteFirst(back, r)
  {
    if front == [] {
      assert front + back == back && front + DeleteFirst(back, r) == DeleteFirst(back, r);
    } else {
      var first, rest := front[0], front[1..];
      HeadAndRest(front, back);
      HeadAndRest(front, DeleteFirst(back, r));
      DeleteUnfolds(front + back, r);
      hide *;
      DeleteBehind(rest, back, r);
      Regroup([first], rest, DeleteFirst(back, r));
    }
  }

  /** Deleting a rule that the front part holds leaves the back part alone, and
      one that it does not hold leaves the front part alone. */
  lemma DeleteInFront(front: seq<Rule>, back: seq<Rule>, r: Rule)
    ensures r in front ==> DeleteFirst(front + back, r) == DeleteFirst(front, r) + back
    ensures r !in front ==> DeleteFirst(front + back, r) == front + DeleteFirst(back, r)
  {
    hide *;
    if r in front {
      DeleteInside(front, back, r);
    } else {
      DeleteBehind(front, back, r);
    }
  }

  lemma Regroup(a: seq<Rule>, b: seq<Rule>, c: seq<Rule>)
    ensures a + (b + c) == a + b + c
  {
  }

  lemma DeleteUnfolds(chain: seq<Rule>, r: Rule)
    requires chain != []
    ensures DeleteFirst(chain, r) == if chain[0] == r then chain[1..] else [chain[0]] + DeleteFirst(chain[1..], r)
  {
  }

  /** Blocks and unblocks on an isolated host act on its own rules. */
  lemma BlockWhileIsolated(own: Filter, ips: seq<Address>, ip: Address)
    ensures Block(Isolated(own, ips), ip) == Isolated(Block(own, ip), ips)
    ensures Unblock(Isolated(own, ips), ip) == Isolated(Unblock(own, ip), ips)
  {
    var front := SrcRules(ips) + [EstAccept, LoAccept];
    assert forall c: seq<Rule> :: SrcRules(ips) + ([EstAccept, LoAccept] + c) == front + c;
    assert front + own.input + [SrcDrop(ip)] == front + (own.input + [SrcDrop(ip)]);
    DeleteInFront(front, own.input, SrcDrop(ip));
  }

  /** Deleting rules one after the other. */
  function DeleteEach(chain: seq<Rule>, rules: seq<Rule>): seq<Rule> {
    if rules == [] then chain
    else DeleteFirst(DeleteEach(chain, rules[..|rules| - 1]), rules[|rules| - 1])
  }

  /** The accept rules in the order unisolateNetwork deletes them. */
  function SrcList(ips: seq<Address>): seq<Rule> {
    if ips == [] then [] else SrcList(ips[..|ips| - 1]) + [SrcAccept(ips[|ips| - 1])]
  }

  function DstList(ips: seq<Address>): seq<Rule> {
    if ips == [] then [] else DstList(ips[..|ips| - 1]) + [DstAccept(ips[|ips| - 1])]
  }

  lemma {:induction false} RevokeDeletesEach(f: Filter, ips: seq<Address>)
    ensures Revoke(f, ips) == f.(input := DeleteEach(f.input, SrcList(ips)), output := DeleteEach(f.output, DstList(ips)))
  {
    if ips != [] {
      var n := |ips| - 1;
      RevokeDeletesEach(f, ips[..n]);
      assert SrcList(ips)[..|SrcList(ips)| - 1] == SrcList(ips[..n]);
      assert DstList(ips)[..|DstList(ips)| - 1] == DstList(ips[..n]);
    }
  }

  lemma {:induction false} SameRules(ips: seq<Address>)
    ensures multiset(SrcList(ips)) == multiset(SrcRules(ips))
    ensures multiset(DstList(ips)) == multiset(DstRules(ips))
  {
    if ips != [] {
      SameRules(ips[..|ips| - 1]);
    }
  }

  /** As long as the front part holds them all, deletions never reach the back. */
  lemma {:induction false} DeleteEachInFront(front: seq<Rule>, back: seq<Rule>, rules: seq<Rule>)
    returns (left: seq<Rule>)
    requires multiset(rules) <= multiset(front)
    ensures DeleteEach(front + back, rules) == left + back
    ensures multiset(left) == multiset(front) - multiset(rules)
  {
    if rules == [] {
      left := front;
    } else {
      var n, r := |rules| - 1, rules[|rules| - 1];
      assert rules == rules[..n] + [r];
      var mid := DeleteEachInFront(front, back, rules[..n]);
      assert r in multiset(mid);
      DeleteInFront(mid, back, r);
      left := DeleteFirst(mid, r);
    }
  }

  lemma DeleteWholeFront(front: seq<Rule>, back: seq<Rule>, rules: seq<Rule>)
    requires multiset(rules) == multiset(front)
    ensures DeleteEach(front + back, rules) == back
  {
    var left := DeleteEachInFront(front, back, rules);
    assert |left| == |multiset(left)|;
    assert left + back == back;
  }

  lemma DeleteInsertedPair(own: seq<Rule>)
    ensures DeleteFirst(DeleteFirst([EstAccept, LoAccept] + own, EstAccept), LoAccept) == own
  {
    assert ([EstAccept, LoAccept] + own)[1..] == [LoAccept] + own;
    assert ([LoAccept] + own)[1..] == own;
  }

  /** Lifting isolation takes out exactly what isolating put in, duplicates and
      equal rules of the operator's own included, and opens both policies. */
  lemma UnisolateUndoes(own: Filter, ips: seq<Address>)
    ensures Unisolate(Isolated(own, ips), ips) == own.(inputAccepts := true, outputAccepts := true)
  {
    SameRules(ips);
    RevokeDeletesEach(Isolated(own, ips).(inputAccepts := true, outputAccepts := true), ips);
    DeleteWholeFront(SrcRules(ips), [EstAccept, LoAccept] + own.input, SrcList(ips));
    DeleteWholeFront(DstRules(ips), [EstAccept, LoAccept] + own.output, DstList(ips));
    DeleteInsertedPair(own.input);
    DeleteInsertedPair(own.output);
    hide Revoke, DeleteEach, DeleteFirst, SrcRules, DstRules, SrcList, DstList;
  }

  // ---- what an isolated host lets through -----------------------------------

  /** A front part of accept rules decides for the packets it matches. */
  lemma {:induction false} AcceptFront(front: seq<Rule>, back: seq<Rule>, p: Packet)
    requires forall i :: 0 <= i < |front| ==> front[i].target == ACCEPT
    ensures Verdict(front + back, p)
         == if exists i :: 0 <= i < |front| && Matches(front[i].m, p) then Some(true) else Verdict(back, p)
  {
    if front == [] {
      assert front + back == back;
    } else {
      assert (front + back)[1..] == front[1..] + back;
      AcceptFront(front[1..], back, p);
      if exists i :: 0 <= i < |front| && Matches(front[i].m, p) {
        var i :| 0 <= i < |front| && Matches(front[i].m, p);
        assert i == 0 || front[1..][i - 1] == front[i];
      }
      if exists i :: 0 <= i < |front[1..]| && Matches(front[1..][i].m, p) {
        var i :| 0 <= i < |front[1..]| && Matches(front[1..][i].m, p);
        assert front[i + 1] == front[1..][i];
      }
    }
  }

  /** Exactly what passes an isolated host: the lifeline addresses, loopback,
      established flows, and what a rule of the host's own accepts. */
  lemma IsolatedPasses(own: Filter, ips: seq<Address>, p: Packet)
    ensures InputPasses(Isolated(own, ips), p)
       <==> p.src in ips || p.established || p.loopback || Verdict(own.input, p) == Some(true)
    ensures OutputPasses(Isolated(own, ips), p)
       <==> p.dst in ips || p.established || p.loopback || Verdict(own.output, p) == Some(true)
  {
    AcceptFront(SrcRules(ips), [EstAccept, LoAccept] + own.input, p);
    AcceptFront(DstRules(ips), [EstAccept, LoAccept] + own.output, p);
    AcceptFront([EstAccept, LoAccept], own.input, p);
    AcceptFront([EstAccept, LoAccept], own.output, p);
    var pair := [EstAccept, LoAccept];
    assert pair[0] == EstAccept && pair[1] == LoAccept;
    ListedRule(ips, p);
    hide Verdict, SrcRules, DstRules;
  }

  lemma ListedRule(ips: seq<Address>, p: Packet)
    ensures p.src in ips ==> SrcAccept(p.src) in SrcRules(ips)
    ensures p.dst in ips ==> DstAccept(p.dst) in DstRules(ips)
  {
    hide SrcRules, DstRules;
    if p.src in ips {
      var k :| 0 <= k < |ips| && ips[k] == p.src;
      assert SrcRules(ips)[|ips| - 1 - k] == SrcAccept(p.src);
    }
    if p.dst in ips {
      var k :| 0 <= k < |ips| && ips[k] == p.dst;
      assert DstRules(ips)[|ips| - 1 - k] == DstAccept(p.dst);
    }
  }

  // ---- what a block does to packets ------------------------------------------

  /** The front part of a chain decides where it can. */
  lemma {:induction false} VerdictOfSum(front: seq<Rule>, back: seq<Rule>, p: Packet)
    ensures Verdict(front + back, p) == if Verdict(front, p).Some? then Verdict(front, p) else Verdict(back, p)
  {
    if front == [] {
      assert front + back == back;
    } else {
      assert (front + back)[1..] == front[1..] + back;
      VerdictOfSum(front[1..], back, p);
    }
  }

  /** A blocked address is refused where no earlier rule decides; every other packet
      fares as before. */
  lemma BlockRefuses(f: Filter, ip: Address, p: Packet)
    ensures Verdict(Block(f, ip).input, p)
         == if Verdict(f.input, p).Some? then Verdict(f.input, p) else if p.src == ip then Some(false) else None
    ensures OutputPasses(Block(f, ip), p) <==> OutputPasses(f, p)
  {
    VerdictOfSum(f.input, [SrcDrop(ip)], p);
    assert [SrcDrop(ip)][1..] == [];
  }

  /** Lifting a block changes nothing for packets of other addresses. */
  lemma {:induction false} UnblockSpares(chain: seq<Rule>, ip: Address, p: Packet)
    requires p.src != ip
    ensures Verdict(DeleteFirst(chain, SrcDrop(ip)), p) == Verdict(chain, p)
  {
    if chain != [] {
      UnblockSpares(chain[1..], ip, p);
      if chain[0] != SrcDrop(ip) {
        assert ([chain[0]] + DeleteFirst(chain[1..], SrcDrop(ip)))[1..] == DeleteFirst(chain[1..], SrcDrop(ip));
      }
    }
  }

  /** A packet whose source has a drop rule at place k passes iff a rule before it
      accepts it. */
  lemma DropDecides(f: Filter, k: nat, p: Packet)
    requires k < |f.input| && f.input[k] == SrcDrop(p.src)
    ensures InputPasses(f, p) <==> Verdict(f.input[..k], p) == Some(true)
  {
    assert f.input == f.input[..k] + f.input[k..];
    VerdictOfSum(f.input[..k], f.input[k..], p);
    assert Verdict(f.input[k..], p) == Some(false);
  }

  // ---- lifting an isolation that is not there -------------------------------

  lemma {:induction false} DeleteEachShrinks(chain: seq<Rule>, rules: seq<Rule>)
    ensures |DeleteEach(chain, rules)| <= |chain|
    ensures DeleteEach(chain, rules) == chain <==> forall i :: 0 <= i < |rules| ==> rules[i] !in chain
  {
    if rules != [] {
      var n := |rules| - 1;
      DeleteEachShrinks(chain, rules[..n]);
      if DeleteEach(chain, rules) == chain {
        assert DeleteEach(chain, rules[..n]) == chain;
        assert forall i :: 0 <= i < n ==> rules[i] == rules[..n][i];
      }
    }
  }
}
