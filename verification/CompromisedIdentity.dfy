/** The compromised-identity detector (correlations.py): one user seen in at
    least two of the endpoint, identity and cloud telemetry domains. */
module CompromisedIdentity {
  import opened Entities
  import opened Aggregation

  datatype Domain = Domain(name: string, data: map<string, Rec>)

  /** What the detector hands to _record_incident. */
  datatype Finding = Finding(domains: seq<string>, severity: string, risk: nat, first: int, last: int)

  /** One telemetry domain: the documents its query matches in the window, and
      the aggregations it answers with. */
  datatype Telemetry = Telemetry(name: string, docs: seq<Doc>, search: Search)

  ghost predicate Answers(t: Telemetry, start: int, now: int) {
    Ideal(t.docs, AliasFields(User), t.search) && forall d :: d in t.docs ==> start <= d.ts <= now
  }

  /** The documents of the domain that name the user, in any alias field and any
      spelling. */
  function Namings(t: Telemetry, e: string): seq<Doc> {
    AllHits(t.docs, AliasFields(User), t.search, User, e)
  }

  function Sightings(domains: seq<Telemetry>, e: string): seq<Doc> {
    if domains == [] then []
    else Sightings(domains[..|domains| - 1], e) + Namings(domains[|domains| - 1], e)
  }

  /** The names of the domains in which the user occurs. */
  function SeenIn(domains: seq<Telemetry>, e: string): seq<string> {
    if domains == [] then []
    else
      SeenIn(domains[..|domains| - 1], e)
      + (if Namings(domains[|domains| - 1], e) != [] then [domains[|domains| - 1].name] else [])
  }

  /** What a finding says about the telemetry, when no document of the window is
      stamped zero. */
  ghost predicate Explains(f: Finding, domains: seq<Telemetry>, e: string, start: int) {
    && f.domains == SeenIn(domains, e)
    && |f.domains| >= 2
    && f.severity == (if |f.domains| >= 3 then "critical" else "high")
    && f.risk == 40 * |f.domains|
    && Sightings(domains, e) != []
    && (start > 0 ==> f.first == MinTs(Sightings(domains, e)) && f.last == MaxTs(Sightings(domains, e)))
  }

  /** The merged map of a domain, as _bucket_entity promises it. */
  ghost predicate Summarises(data: map<string, Rec>, t: Telemetry, start: int, now: int) {
    && "" !in data
    && (forall e :: e != "" ==> (e in data <==> Namings(t, e) != []))
    && (forall e :: e in data ==> Agrees(data[e], Namings(t, e), start, now))
  }

  lemma TrueTimes(data: map<string, Rec>, t: Telemetry, start: int, now: int, e: string)
    requires Answers(t, start, now) && Summarises(data, t, start, now) && e in data && start > 0
    ensures Namings(t, e) != []
    ensures data[e].first == MinTs(Namings(t, e)) && data[e].last == MaxTs(Namings(t, e))
  {
    HitsAreDocs(t.docs, AliasFields(User), t.search, User, e);
    hide AllHits, AliasFields, Ideal, MinTs, MaxTs;
    var hits := Namings(t, e);
    assert forall d :: d in hits ==> start <= d.ts;
    hide Namings;
    EndsAreTimes(hits);
    assert Agrees(data[e], hits, start, now);
    assert MinTs(hits) >= start && MaxTs(hits) >= start;
  }

  /** What the inner loop has found when these domains are done. */
  ghost predicate Surveyed(domains: seq<Telemetry>, ent: string, start: int, present: seq<string>, first: int, last: int) {
    && present == SeenIn(domains, ent)
    && (present != [] <==> Sightings(domains, ent) != [])
    && (present != [] && start > 0 ==>
          first == MinTs(Sightings(domains, ent)) && last == MaxTs(Sightings(domains, ent)))
  }

  lemma EndsOfSum(a: seq<Doc>, b: seq<Doc>)
    requires a != [] && b != []
    ensures MinTs(a + b) == Min(MinTs(a), MinTs(b)) && MaxTs(a + b) == Max(MaxTs(a), MaxTs(b))
  {
    hide MinTs, MaxTs;
  }

  lemma DomainUnfolds(domains: seq<Telemetry>, ent: string, i: nat)
    requires i < |domains|
    ensures Sightings(domains[..i + 1], ent) == Sightings(domains[..i], ent) + Namings(domains[i], ent)
    ensures SeenIn(domains[..i + 1], ent)
         == SeenIn(domains[..i], ent) + if Namings(domains[i], ent) != [] then [domains[i].name] else []
  {
    hide Namings;
    assert domains[..i + 1][..i] == domains[..i];
  }

  lemma NamedIff(data: map<string, Rec>, t: Telemetry, start: int, now: int, ent: string)
    requires Summarises(data, t, start, now) && ent != ""
    ensures ent in data <==> Namings(t, ent) != []
  {
    hide Namings;
  }

  lemma SkipsDomain(domains: seq<Telemetry>, ent: string, start: int, i: nat, present: seq<string>, first: int, last: int)
    requires i < |domains| && Surveyed(domains[..i], ent, start, present, first, last) && Namings(domains[i], ent) == []
    ensures Surveyed(domains[..i + 1], ent, start, present, first, last)
  {
    DomainUnfolds(domains, ent, i);
    hide Namings, SeenIn, Sightings, MinTs, MaxTs;
    assert Sightings(domains[..i], ent) + [] == Sightings(domains[..i], ent) && present + [] == present;
  }

  lemma AddsDomain(domains: seq<Telemetry>, ent: string, start: int, i: nat, present: seq<string>, first: int, last: int, d: Rec)
    requires i < |domains| && Surveyed(domains[..i], ent, start, present, first, last) && Namings(domains[i], ent) != []
    requires start > 0 ==> d.first == MinTs(Namings(domains[i], ent)) && d.last == MaxTs(Namings(domains[i], ent))
    ensures Surveyed(domains[..i + 1], ent, start, present + [domains[i].name],
                     if present == [] then d.first else Min(first, d.first), if present == [] then d.last else Max(last, d.last))
  {
    DomainUnfolds(domains, ent, i);
    var before, here := Sightings(domains[..i], ent), Namings(domains[i], ent);
    hide Namings, SeenIn, Sightings, MinTs, MaxTs;
    if before == [] {
      assert before + here == here;
    } else {
      EndsOfSum(before, here);
    }
  }

  /** The detector's inner loop over its domains, for one user. */
  method Survey(domains: seq<Telemetry>, summaries: seq<map<string, Rec>>, ent: string, ghost start: int, ghost now: int)
    returns (present: seq<string>, first: int, last: int)
    requires |summaries| == |domains| && ent != ""
    requires forall i :: 0 <= i < |domains| ==> Answers(domains[i], start, now)
    requires forall i :: 0 <= i < |domains| ==> Summarises(summaries[i], domains[i], start, now)
    ensures present == SeenIn(domains, ent)
    ensures present != [] <==> Sightings(domains, ent) != []
    ensures present != [] && start > 0 ==>
              first == MinTs(Sightings(domains, ent)) && last == MaxTs(Sightings(domains, ent))
  {
    present, first, last := [], 0, 0;
    assert Surveyed(domains[..0], ent, start, present, first, last) by { assert domains[..0] == []; }
    hide Namings, Answers, MinTs, MaxTs, Summarises, SeenIn, Sightings;
    assert domains[..|domains|] == domains;
    for i := 0 to |domains|
      invariant Surveyed(domains[..i], ent, start, present, first, last)
    {
      hide Surveyed;
      NamedIff(summaries[i], domains[i], start, now, ent);
      if ent in summaries[i] {
        var d := summaries[i][ent];
        if start > 0 {
          TrueTimes(summaries[i], domains[i], start, now, ent);
        }
        AddsDomain(domains, ent, start, i, present, first, last, d);
        if present == [] {
          first, last := d.first, d.last;
        } else {
          first, last := Min(first, d.first), Max(last, d.last);
        }
        present := present + [domains[i].name];
      } else {
        SkipsDomain(domains, ent, start, i, present, first, last);
      }
    }
  }

  /** The detector's outer loop, in whatever order the set yields the users. */
  method Sweep(domains: seq<Telemetry>, summaries: seq<map<string, Rec>>, entities: set<string>, ghost start: int, ghost now: int)
    returns (found: map<string, Finding>)
    requires |summaries| == |domains| && "" !in entities
    requires forall i :: 0 <= i < |domains| ==> Answers(domains[i], start, now)
    requires forall i :: 0 <= i < |domains| ==> Summarises(summaries[i], domains[i], start, now)
    ensures forall e :: e in found <==> e in entities && |SeenIn(domains, e)| >= 2
    ensures forall e :: e in found ==> Explains(found[e], domains, e, start)
  {
    hide Answers, Summarises, SeenIn, Sightings, MinTs, MaxTs, Explains;
    found := map[];
    var rest := entities;
    while rest != {}
      invariant rest <= entities
      invariant forall e :: e in found <==> e in entities && e !in rest && |SeenIn(domains, e)| >= 2
      invariant forall e :: e in found ==> Explains(found[e], domains, e, start)
      decreases |rest|
    {
      var ent :| ent in rest;
      rest := rest - {ent};
      var present, first, last := Survey(domains, summaries, ent, start, now);
      if |present| < 2 {
        continue;
      }
      var f := Finding(present, if |present| >= 3 then "critical" else "high", 40 * |present|, first, last);
      FindingExplains(f, domains, ent, start);
      found := found[ent := f];
    }
  }

  lemma FindingExplains(f: Finding, domains: seq<Telemetry>, e: string, start: int)
    requires f.domains == SeenIn(domains, e) && |f.domains| >= 2 && Sightings(domains, e) != []
    requires f.severity == (if |f.domains| >= 3 then "critical" else "high") && f.risk == 40 * |f.domains|
    requires start > 0 ==> f.first == MinTs(Sightings(domains, e)) && f.last == MaxTs(Sightings(domains, e))
    ensures Explains(f, domains, e, start)
  {
  }

  /** A user is reported iff it occurs in at least two domains, and as critical
      iff in all three; the finding's times are the true extremes. */
  method DetectCompromisedIdentity(endpoint: Telemetry, identity: Telemetry, cloud: Telemetry, start: int, now: int)
    returns (found: map<string, Finding>)
    requires Answers(endpoint, start, now) && Answers(identity, start, now) && Answers(cloud, start, now)
    ensures forall e :: e in found <==> e != "" && |SeenIn([endpoint, identity, cloud], e)| >= 2
    ensures forall e :: e in found ==> Explains(found[e], [endpoint, identity, cloud], e, start)
  {
    hide *;
    var inEndpoint := Summarise(endpoint, start, now);
    var inIdentity := Summarise(identity, start, now);
    var inCloud := Summarise(cloud, start, now);
    var domains := [endpoint, identity, cloud];
    var entities := inEndpoint.Keys + inIdentity.Keys + inCloud.Keys;
    OnlyTheseAreSeenTwice(endpoint, identity, cloud, inEndpoint, inIdentity, inCloud, start, now);
    found := Sweep(domains, [inEndpoint, inIdentity, inCloud], entities, start, now);
  }

  lemma OnlyTheseAreSeenTwice(a: Telemetry, b: Telemetry, c: Telemetry, inA: map<string, Rec>, inB: map<string, Rec>,
                              inC: map<string, Rec>, start: int, now: int)
    requires Summarises(inA, a, start, now) && Summarises(inB, b, start, now) && Summarises(inC, c, start, now)
    ensures "" !in inA.Keys + inB.Keys + inC.Keys
    ensures forall e :: e != "" && |SeenIn([a, b, c], e)| >= 2 ==> e in inA.Keys + inB.Keys + inC.Keys
  {
    hide *;
    SummaryTells(inA, a, start, now, "");
    SummaryTells(inB, b, start, now, "");
    SummaryTells(inC, c, start, now, "");
    forall e | e != "" && |SeenIn([a, b, c], e)| >= 2 ensures e in inA.Keys + inB.Keys + inC.Keys {
      SummaryTells(inA, a, start, now, e);
      SummaryTells(inB, b, start, now, e);
      SummaryTells(inC, c, start, now, e);
      ThreeDomains(a, b, c, e);
    }
  }

  method Summarise(t: Telemetry, start: int, now: int) returns (data: map<string, Rec>)
    requires Answers(t, start, now)
    ensures Summarises(data, t, start, now)
  {
    hide AllHits, Ideal, Agrees, AliasFields;
    data := BucketEntity(t.docs, t.search, User, start, now);
  }

  lemma SummaryTells(data: map<string, Rec>, t: Telemetry, start: int, now: int, e: string)
    requires Summarises(data, t, start, now)
    ensures e in data <==> e != "" && Namings(t, e) != []
  {
    hide Agrees, Namings;
  }

  /** Reported means seen in two of the three; critical means seen in all. */
  lemma ThreeDomains(a: Telemetry, b: Telemetry, c: Telemetry, e: string)
    ensures |SeenIn([a, b, c], e)|
         == (if Namings(a, e) != [] then 1 else 0) + (if Namings(b, e) != [] then 1 else 0) + (if Namings(c, e) != [] then 1 else 0)
  {
    hide Namings;
    assert [a, b, c][..2] == [a, b] && [a, b][..1] == [a] && [a][..0] == [];
    assert SeenIn([a], e) == if Namings(a, e) != [] then [a.name] else [];
    assert SeenIn([a, b], e) == SeenIn([a], e) + if Namings(b, e) != [] then [b.name] else [];
  }
}
