/** _bucket_entity and the compromised-identity detector (correlations.py): one
    terms aggregation per alias field, merged under normalised keys, against a
    direct count over the documents. */
module Aggregation {
  import opened Wrappers
  import opened Entities

  datatype Doc = Doc(ts: int, fields: map<string, string>)

  datatype Bucket = Bucket(key: string, count: nat, first: int, last: int)

  /** A merged record; the source's `sub` lists are not carried. */
  datatype Rec = Rec(count: nat, first: int, last: int, raw: string)

  /** The terms aggregation of one field; None is a search that raises. */
  type Search = string -> Option<seq<Bucket>>

  // ---- documents -------------------------------------------------------------

  predicate Carries(d: Doc, field: string, value: string) {
    field in d.fields && d.fields[field] == value
  }

  predicate Names(d: Doc, field: string, kind: Kind, e: string) {
    field in d.fields && Normalize(kind, d.fields[field]) == e
  }

  function Raw(docs: seq<Doc>, field: string, value: string): (r: seq<Doc>)
    ensures forall d :: d in r <==> d in docs && Carries(d, field, value)
  {
    if docs == [] then []
    else
      var d := docs[|docs| - 1];
      Raw(docs[..|docs| - 1], field, value) + (if Carries(d, field, value) then [d] else [])
  }

  /** The documents naming the entity in this field, in any spelling. */
  function Hits(docs: seq<Doc>, field: string, kind: Kind, e: string): (r: seq<Doc>)
    ensures forall d :: d in r <==> d in docs && Names(d, field, kind, e)
  {
    if docs == [] then []
    else
      var d := docs[|docs| - 1];
      Hits(docs[..|docs| - 1], field, kind, e) + (if Names(d, field, kind, e) then [d] else [])
  }

  function MinTs(docs: seq<Doc>): (m: int)
    requires docs != []
    ensures exists d :: d in docs && d.ts == m
    ensures forall d :: d in docs ==> m <= d.ts
  {
    var n := |docs| - 1;
    if n == 0 then docs[0].ts
    else if MinTs(docs[..n]) <= docs[n].ts then MinTs(docs[..n]) else docs[n].ts
  }

  function MaxTs(docs: seq<Doc>): (m: int)
    requires docs != []
    ensures exists d :: d in docs && d.ts == m
    ensures forall d :: d in docs ==> d.ts <= m
  {
    var n := |docs| - 1;
    if n == 0 then docs[0].ts
    else if MaxTs(docs[..n]) >= docs[n].ts then MaxTs(docs[..n]) else docs[n].ts
  }

  /** An untruncated terms aggregation with min and max of the timestamp, its
      buckets in any order. */
  ghost predicate IsTermsAgg(docs: seq<Doc>, field: string, bs: seq<Bucket>) {
    && (forall i, j :: 0 <= i < j < |bs| ==> bs[i].key != bs[j].key)
    && (forall i :: 0 <= i < |bs| ==>
          && Raw(docs, field, bs[i].key) != []
          && bs[i].count == |Raw(docs, field, bs[i].key)|
          && bs[i].first == MinTs(Raw(docs, field, bs[i].key))
          && bs[i].last == MaxTs(Raw(docs, field, bs[i].key)))
    && (forall d :: d in docs && field in d.fields ==> HasBucket(bs, d.fields[field]))
  }

  ghost predicate HasBucket(bs: seq<Bucket>, key: string) {
    exists i :: 0 <= i < |bs| && bs[i].key == key
  }

  ghost predicate Ideal(docs: seq<Doc>, fields: seq<string>, search: Search) {
    forall i :: 0 <= i < |fields| && search(fields[i]).Some? ==> IsTermsAgg(docs, fields[i], search(fields[i]).value)
  }

  /** Every naming of the entity in an answered field. A document that names it
      in two alias fields is here twice, as it is in the source's count. */
  function AllHits(docs: seq<Doc>, fields: seq<string>, search: Search, kind: Kind, e: string): seq<Doc> {
    if fields == [] then []
    else
      var f := fields[|fields| - 1];
      AllHits(docs, fields[..|fields| - 1], search, kind, e)
      + (if search(f).Some? then Hits(docs, f, kind, e) else [])
  }

  // ---- merging ---------------------------------------------------------------

  /** `value or default` for an integer. */
  function Stamp(value: int, default: int): int {
    if value == 0 then default else value
  }

  function Min(a: int, b: int): int { if a <= b then a else b }

  function Max(a: int, b: int): int { if a >= b then a else b }

  function MergeOne(out: map<string, Rec>, kind: Kind, b: Bucket, start: int, now: int): map<string, Rec> {
    var e := Normalize(kind, b.key);
    if e == "" then out
    else
      var r := if e in out then out[e] else Rec(0, now, start, b.key);
      out[e := Rec(r.count + b.count, Min(r.first, Stamp(b.first, now)), Max(r.last, Stamp(b.last, start)), r.raw)]
  }

  function MergeAll(kind: Kind, bs: seq<Bucket>, start: int, now: int): map<string, Rec> {
    if bs == [] then map[]
    else MergeOne(MergeAll(kind, bs[..|bs| - 1], start, now), kind, bs[|bs| - 1], start, now)
  }

  function AllBuckets(fields: seq<string>, search: Search): seq<Bucket> {
    if fields == [] then []
    else
      AllBuckets(fields[..|fields| - 1], search)
      + (match search(fields[|fields| - 1]) case Some(bs) => bs case None => [])
  }

  // ---- one entity's share of a bucket list -----------------------------------

  predicate Relevant(kind: Kind, b: Bucket, e: string) {
    Normalize(kind, b.key) == e
  }

  function SumCount(kind: Kind, bs: seq<Bucket>, e: string): nat {
    if bs == [] then 0
    else
      SumCount(kind, bs[..|bs| - 1], e) + (if Relevant(kind, bs[|bs| - 1], e) then bs[|bs| - 1].count else 0)
  }

  function LeastFirst(kind: Kind, bs: seq<Bucket>, e: string, now: int): int {
    if bs == [] then now
    else
      var m := LeastFirst(kind, bs[..|bs| - 1], e, now);
      if Relevant(kind, bs[|bs| - 1], e) then Min(m, Stamp(bs[|bs| - 1].first, now)) else m
  }

  function GreatestLast(kind: Kind, bs: seq<Bucket>, e: string, start: int): int {
    if bs == [] then start
    else
      var m := GreatestLast(kind, bs[..|bs| - 1], e, start);
      if Relevant(kind, bs[|bs| - 1], e) then Max(m, Stamp(bs[|bs| - 1].last, start)) else m
  }

  ghost predicate Present(kind: Kind, bs: seq<Bucket>, e: string) {
    exists i :: 0 <= i < |bs| && Relevant(kind, bs[i], e)
  }

  /** Merging treats entities independently. */
  lemma {:induction false} MergedEntity(kind: Kind, bs: seq<Bucket>, start: int, now: int, e: string)
    requires e != ""
    ensures e in MergeAll(kind, bs, start, now) <==> Present(kind, bs, e)
    ensures e in MergeAll(kind, bs, start, now) ==>
              && MergeAll(kind, bs, start, now)[e].count == SumCount(kind, bs, e)
              && MergeAll(kind, bs, start, now)[e].first == LeastFirst(kind, bs, e, now)
              && MergeAll(kind, bs, start, now)[e].last == GreatestLast(kind, bs, e, start)
    ensures !Present(kind, bs, e) ==>
              SumCount(kind, bs, e) == 0 && LeastFirst(kind, bs, e, now) == now && GreatestLast(kind, bs, e, start) == start
  {
    hide Normalize, Min, Max, Stamp;
    if bs != [] {
      var n := |bs| - 1;
      MergedEntity(kind, bs[..n], start, now, e);
      assert Present(kind, bs, e) <==> Present(kind, bs[..n], e) || Relevant(kind, bs[n], e);
    }
  }

  lemma {:induction false} NoEmptyKey(kind: Kind, bs: seq<Bucket>, start: int, now: int)
    ensures "" !in MergeAll(kind, bs, start, now)
  {
    hide Normalize;
    if bs != [] {
      NoEmptyKey(kind, bs[..|bs| - 1], start, now);
    }
  }

  lemma {:induction false} LeastFirstIs(kind: Kind, bs: seq<Bucket>, e: string, now: int)
    ensures LeastFirst(kind, bs, e, now) <= now
    ensures forall i :: 0 <= i < |bs| && Relevant(kind, bs[i], e) ==> LeastFirst(kind, bs, e, now) <= Stamp(bs[i].first, now)
    ensures LeastFirst(kind, bs, e, now) == now
         || exists i :: 0 <= i < |bs| && Relevant(kind, bs[i], e) && LeastFirst(kind, bs, e, now) == Stamp(bs[i].first, now)
  {
    hide Relevant, Stamp;
    if bs != [] {
      var n := |bs| - 1;
      LeastFirstIs(kind, bs[..n], e, now);
    }
  }

  lemma {:induction false} GreatestLastIs(kind: Kind, bs: seq<Bucket>, e: string, start: int)
    ensures GreatestLast(kind, bs, e, start) >= start
    ensures forall i :: 0 <= i < |bs| && Relevant(kind, bs[i], e) ==> GreatestLast(kind, bs, e, start) >= Stamp(bs[i].last, start)
    ensures GreatestLast(kind, bs, e, start) == start
         || exists i :: 0 <= i < |bs| && Relevant(kind, bs[i], e) && GreatestLast(kind, bs, e, start) == Stamp(bs[i].last, start)
  {
    hide Relevant, Stamp;
    if bs != [] {
      var n := |bs| - 1;
      GreatestLastIs(kind, bs[..n], e, start);
    }
  }

  // ---- counts ----------------------------------------------------------------

  function SumRaw(docs: seq<Doc>, field: string, kind: Kind, bs: seq<Bucket>, e: string): nat {
    if bs == [] then 0
    else
      SumRaw(docs, field, kind, bs[..|bs| - 1], e)
      + (if Relevant(kind, bs[|bs| - 1], e) then |Raw(docs, field, bs[|bs| - 1].key)| else 0)
  }

  /** One more document adds one to the sum iff its value has a bucket of e. */
  lemma {:induction false} SumRawOfSnoc(docs: seq<Doc>, d: Doc, field: string, kind: Kind, bs: seq<Bucket>, e: string)
    requires forall i, j :: 0 <= i < j < |bs| ==> bs[i].key != bs[j].key
    ensures SumRaw(docs + [d], field, kind, bs, e)
         == SumRaw(docs, field, kind, bs, e)
            + (if Names(d, field, kind, e) && HasBucket(bs, d.fields[field]) then 1 else 0)
  {
    hide Normalize;
    if bs != [] {
      var n := |bs| - 1;
      SumRawOfSnoc(docs, d, field, kind, bs[..n], e);
      assert (docs + [d])[..|docs|] == docs;
      if field in d.fields {
        assert HasBucket(bs, d.fields[field]) <==> HasBucket(bs[..n], d.fields[field]) || bs[n].key == d.fields[field];
      }
    }
  }

  lemma {:induction false} SumRawIsHits(docs: seq<Doc>, field: string, kind: Kind, bs: seq<Bucket>, e: string)
    requires forall i, j :: 0 <= i < j < |bs| ==> bs[i].key != bs[j].key
    requires forall d :: d in docs && field in d.fields ==> HasBucket(bs, d.fields[field])
    ensures SumRaw(docs, field, kind, bs, e) == |Hits(docs, field, kind, e)|
  {
    hide Normalize;
    if docs == [] {
      NoRaw(field, kind, bs, e);
    } else {
      var n := |docs| - 1;
      SumRawIsHits(docs[..n], field, kind, bs, e);
      SumRawOfSnoc(docs[..n], docs[n], field, kind, bs, e);
      assert docs[..n] + [docs[n]] == docs;
    }
  }

  lemma {:induction false} NoRaw(field: string, kind: Kind, bs: seq<Bucket>, e: string)
    ensures SumRaw([], field, kind, bs, e) == 0
  {
    if bs != [] {
      NoRaw(field, kind, bs[..|bs| - 1], e);
    }
  }

  lemma {:induction false} CountsAreRaw(docs: seq<Doc>, field: string, kind: Kind, bs: seq<Bucket>, e: string)
    requires forall i :: 0 <= i < |bs| ==> bs[i].count == |Raw(docs, field, bs[i].key)|
    ensures SumCount(kind, bs, e) == SumRaw(docs, field, kind, bs, e)
  {
    hide Relevant, Raw;
    if bs != [] {
      CountsAreRaw(docs, field, kind, bs[..|bs| - 1], e);
    }
  }

  lemma FieldCount(docs: seq<Doc>, field: string, kind: Kind, bs: seq<Bucket>, e: string)
    requires IsTermsAgg(docs, field, bs)
    ensures SumCount(kind, bs, e) == |Hits(docs, field, kind, e)|
  {
    CountsAreRaw(docs, field, kind, bs, e);
    SumRawIsHits(docs, field, kind, bs, e);
  }

  lemma {:induction false} SumCountOfSum(kind: Kind, a: seq<Bucket>, b: seq<Bucket>, e: string)
    ensures SumCount(kind, a + b, e) == SumCount(kind, a, e) + SumCount(kind, b, e)
  {
    hide Relevant;
    if b == [] {
      assert a + b == a;
    } else {
      var n := |b| - 1;
      SumCountOfSum(kind, a, b[..n], e);
      assert (a + b)[..|a + b| - 1] == a + b[..n];
    }
  }

  lemma AllBucketsSnoc(fields: seq<string>, search: Search)
    requires fields != []
    ensures AllBuckets(fields, search)
         == if search(fields[|fields| - 1]).Some?
            then AllBuckets(fields[..|fields| - 1], search) + search(fields[|fields| - 1]).value
            else AllBuckets(fields[..|fields| - 1], search)
  {
  }

  /** The merged count is the direct count. */
  lemma {:induction false} CountAgrees(docs: seq<Doc>, fields: seq<string>, search: Search, kind: Kind, e: string)
    requires Ideal(docs, fields, search)
    ensures SumCount(kind, AllBuckets(fields, search), e) == |AllHits(docs, fields, search, kind, e)|
  {
    if fields != [] {
      var n := |fields| - 1;
      CountAgrees(docs, fields[..n], search, kind, e);
      var done := AllBuckets(fields[..n], search);
      AllBucketsSnoc(fields, search);
      var hits := AllHits(docs, fields, search, kind, e);
      assert hits == AllHits(docs, fields[..n], search, kind, e)
                     + (if search(fields[n]).Some? then Hits(docs, fields[n], kind, e) else []);
      var answer := search(fields[n]);
      if answer.Some? {
        assert IsTermsAgg(docs, fields[n], answer.value);
        hide *;
        FieldCount(docs, fields[n], kind, answer.value, e);
        SumCountOfSum(kind, done, answer.value, e);
      }
    }
  }

  /** In how many answered fields the document names the entity. */
  function FieldsNaming(d: Doc, fields: seq<string>, search: Search, kind: Kind, e: string): nat {
    if fields == [] then 0
    else
      var f := fields[|fields| - 1];
      FieldsNaming(d, fields[..|fields| - 1], search, kind, e) + (if search(f).Some? && Names(d, f, kind, e) then 1 else 0)
  }

  /** The documents that name the entity at all. */
  function Namers(docs: seq<Doc>, fields: seq<string>, search: Search, kind: Kind, e: string): nat {
    if docs == [] then 0
    else
      var n := |docs| - 1;
      Namers(docs[..n], fields, search, kind, e) + (if FieldsNaming(docs[n], fields, search, kind, e) > 0 then 1 else 0)
  }

  lemma {:induction false} HitsOfSnoc(docs: seq<Doc>, d: Doc, fields: seq<string>, search: Search, kind: Kind, e: string)
    ensures |AllHits(docs + [d], fields, search, kind, e)|
         == |AllHits(docs, fields, search, kind, e)| + FieldsNaming(d, fields, search, kind, e)
  {
    hide Names;
    if fields != [] {
      HitsOfSnoc(docs, d, fields[..|fields| - 1], search, kind, e);
      assert (docs + [d])[..|docs|] == docs;
    }
  }

  lemma {:induction false} NoHits(fields: seq<string>, search: Search, kind: Kind, e: string)
    ensures AllHits([], fields, search, kind, e) == []
  {
    if fields != [] {
      NoHits(fields[..|fields| - 1], search, kind, e);
    }
  }

  /** The merged count is the number of documents naming the entity iff none names
      it in two alias fields; otherwise it is larger. */
  lemma {:induction false} CountsEachDocumentOnceIff(docs: seq<Doc>, fields: seq<string>, search: Search, kind: Kind, e: string)
    ensures Namers(docs, fields, search, kind, e) <= |AllHits(docs, fields, search, kind, e)|
    ensures Namers(docs, fields, search, kind, e) == |AllHits(docs, fields, search, kind, e)|
       <==> forall i :: 0 <= i < |docs| ==> FieldsNaming(docs[i], fields, search, kind, e) <= 1
  {
    hide FieldsNaming;
    if docs == [] {
      NoHits(fields, search, kind, e);
    } else {
      var n := |docs| - 1;
      CountsEachDocumentOnceIff(docs[..n], fields, search, kind, e);
      HitsOfSnoc(docs[..n], docs[n], fields, search, kind, e);
      assert docs[..n] + [docs[n]] == docs;
      hide AllHits;
    }
  }

  // ---- times -----------------------------------------------------------------

  ghost predicate HasTime(docs: seq<Doc>, t: int) {
    exists d :: d in docs && d.ts == t
  }

  /** Some bucket of the entity spans the time. */
  ghost predicate Spanned(kind: Kind, bs: seq<Bucket>, e: string, t: int) {
    exists i :: 0 <= i < |bs| && Relevant(kind, bs[i], e) && bs[i].first <= t <= bs[i].last
  }

  /** Buckets begin and end at times of hits, and every hit lies in a bucket. */
  ghost predicate Framed(kind: Kind, bs: seq<Bucket>, e: string, hits: seq<Doc>) {
    && (forall i :: 0 <= i < |bs| && Relevant(kind, bs[i], e) ==> HasTime(hits, bs[i].first) && HasTime(hits, bs[i].last))
    && (forall d :: d in hits ==> Spanned(kind, bs, e, d.ts))
  }

  lemma BucketEnds(docs: seq<Doc>, field: string, kind: Kind, b: Bucket, e: string)
    requires Raw(docs, field, b.key) != [] && Relevant(kind, b, e)
    ensures HasTime(Hits(docs, field, kind, e), MinTs(Raw(docs, field, b.key)))
    ensures HasTime(Hits(docs, field, kind, e), MaxTs(Raw(docs, field, b.key)))
  {
    hide Normalize;
    var raw, hits := Raw(docs, field, b.key), Hits(docs, field, kind, e);
    forall d | d in raw ensures d in hits {
      assert Carries(d, field, b.key);
    }
    hide Raw, Hits, MinTs, MaxTs, Relevant;
  }

  lemma DocHasBucket(docs: seq<Doc>, field: string, kind: Kind, bs: seq<Bucket>, e: string, d: Doc) returns (i: nat)
    requires IsTermsAgg(docs, field, bs) && d in Hits(docs, field, kind, e)
    ensures i < |bs| && Relevant(kind, bs[i], e) && d in Raw(docs, field, bs[i].key)
  {
    hide Normalize;
    assert Names(d, field, kind, e);
    assert HasBucket(bs, d.fields[field]);
    hide IsTermsAgg;
    i :| 0 <= i < |bs| && bs[i].key == d.fields[field];
    assert Carries(d, field, bs[i].key);
  }

  lemma FieldFramed(docs: seq<Doc>, field: string, kind: Kind, bs: seq<Bucket>, e: string)
    requires IsTermsAgg(docs, field, bs)
    ensures Framed(kind, bs, e, Hits(docs, field, kind, e))
  {
    hide Relevant, MinTs, MaxTs, Raw, Hits, HasTime;
    var hits := Hits(docs, field, kind, e);
    forall i | 0 <= i < |bs| && Relevant(kind, bs[i], e) ensures HasTime(hits, bs[i].first) && HasTime(hits, bs[i].last) {
      BucketEnds(docs, field, kind, bs[i], e);
    }
    forall d | d in hits ensures Spanned(kind, bs, e, d.ts) {
      var i := DocHasBucket(docs, field, kind, bs, e, d);
      assert bs[i].first <= d.ts <= bs[i].last;
    }
  }

  lemma FramedSum(kind: Kind, a: seq<Bucket>, b: seq<Bucket>, e: string, h: seq<Doc>, k: seq<Doc>)
    requires Framed(kind, a, e, h) && Framed(kind, b, e, k)
    ensures Framed(kind, a + b, e, h + k)
  {
    hide Relevant, HasTime, Spanned;
    forall i | 0 <= i < |a + b| && Relevant(kind, (a + b)[i], e)
      ensures HasTime(h + k, (a + b)[i].first) && HasTime(h + k, (a + b)[i].last)
    {
      var c := (a + b)[i];
      assert c == if i < |a| then a[i] else b[i - |a|];
      TimeInSum(h, k, c.first);
      TimeInSum(h, k, c.last);
    }
    forall d | d in h + k ensures Spanned(kind, a + b, e, d.ts) {
      assert d in h || d in k;
      SpannedInSum(kind, a, b, e, d.ts);
    }
  }

  lemma SpannedInSum(kind: Kind, a: seq<Bucket>, b: seq<Bucket>, e: string, t: int)
    requires Spanned(kind, a, e, t) || Spanned(kind, b, e, t)
    ensures Spanned(kind, a + b, e, t)
  {
    hide Relevant;
    if Spanned(kind, a, e, t) {
      var i :| 0 <= i < |a| && Relevant(kind, a[i], e) && a[i].first <= t <= a[i].last;
      assert (a + b)[i] == a[i];
    } else {
      var i :| 0 <= i < |b| && Relevant(kind, b[i], e) && b[i].first <= t <= b[i].last;
      assert (a + b)[|a| + i] == b[i];
    }
  }

  lemma TimeInSum(h: seq<Doc>, k: seq<Doc>, t: int)
    ensures HasTime(h, t) || HasTime(k, t) ==> HasTime(h + k, t)
  {
  }

  lemma {:induction false} AllFramed(docs: seq<Doc>, fields: seq<string>, search: Search, kind: Kind, e: string)
    requires Ideal(docs, fields, search)
    ensures Framed(kind, AllBuckets(fields, search), e, AllHits(docs, fields, search, kind, e))
  {
    if fields != [] {
      var n := |fields| - 1;
      AllFramed(docs, fields[..n], search, kind, e);
      hide IsTermsAgg, Framed;
      match search(fields[n])
      case Some(bs) =>
        FieldFramed(docs, fields[n], kind, bs, e);
        FramedSum(kind, AllBuckets(fields[..n], search), bs, e, AllHits(docs, fields[..n], search, kind, e), Hits(docs, fields[n], kind, e));
      case None =>
        assert AllBuckets(fields, search) == AllBuckets(fields[..n], search);
        assert AllHits(docs, fields, search, kind, e) == AllHits(docs, fields[..n], search, kind, e);
    }
  }

  lemma PresentIff(kind: Kind, bs: seq<Bucket>, e: string, hits: seq<Doc>)
    requires Framed(kind, bs, e, hits)
    ensures Present(kind, bs, e) <==> hits != []
  {
    hide Relevant;
    if hits != [] {
      assert Spanned(kind, bs, e, hits[0].ts);
    }
    if Present(kind, bs, e) {
      var i :| 0 <= i < |bs| && Relevant(kind, bs[i], e);
      assert HasTime(hits, bs[i].first);
    }
  }

  lemma TimesLieBetween(hits: seq<Doc>, t: int)
    requires hits != [] && HasTime(hits, t)
    ensures MinTs(hits) <= t <= MaxTs(hits)
  {
    hide MinTs, MaxTs;
  }

  lemma EndsAreTimes(hits: seq<Doc>)
    requires hits != []
    ensures HasTime(hits, MinTs(hits)) && HasTime(hits, MaxTs(hits))
  {
    hide MinTs, MaxTs;
  }

  lemma SpannedHas(kind: Kind, bs: seq<Bucket>, e: string, hits: seq<Doc>, t: int) returns (k: nat)
    requires Framed(kind, bs, e, hits) && HasTime(hits, t)
    ensures k < |bs| && Relevant(kind, bs[k], e) && bs[k].first <= t <= bs[k].last
  {
    hide Relevant;
    var d :| d in hits && d.ts == t;
    assert Spanned(kind, bs, e, d.ts);
    k :| 0 <= k < |bs| && Relevant(kind, bs[k], e) && bs[k].first <= t <= bs[k].last;
  }

  /** The merged extremes of the buckets, before zeros are replaced. */
  lemma BucketExtremes(kind: Kind, bs: seq<Bucket>, e: string, hits: seq<Doc>) returns (lo: nat, hi: nat)
    requires Framed(kind, bs, e, hits) && hits != []
    ensures lo < |bs| && Relevant(kind, bs[lo], e) && bs[lo].first == MinTs(hits)
    ensures hi < |bs| && Relevant(kind, bs[hi], e) && bs[hi].last == MaxTs(hits)
    ensures forall i :: 0 <= i < |bs| && Relevant(kind, bs[i], e) ==> MinTs(hits) <= bs[i].first && bs[i].last <= MaxTs(hits)
  {
    hide Relevant, MinTs, MaxTs, HasTime, Spanned;
    EndsAreTimes(hits);
    forall i | 0 <= i < |bs| && Relevant(kind, bs[i], e) ensures MinTs(hits) <= bs[i].first && bs[i].last <= MaxTs(hits) {
      TimesLieBetween(hits, bs[i].first);
      TimesLieBetween(hits, bs[i].last);
    }
    lo := SpannedHas(kind, bs, e, hits, MinTs(hits));
    hi := SpannedHas(kind, bs, e, hits, MaxTs(hits));
  }

  /** Zero is taken for a missing value, so the least stamp is the least time
      iff that is not zero (or the clock itself reads zero). */
  lemma LeastStamp(kind: Kind, bs: seq<Bucket>, e: string, now: int, m: int, lo: nat)
    requires m <= now && lo < |bs| && Relevant(kind, bs[lo], e) && bs[lo].first == m
    requires forall i :: 0 <= i < |bs| && Relevant(kind, bs[i], e) ==> m <= bs[i].first
    ensures LeastFirst(kind, bs, e, now) == m <==> m != 0 || now == 0
  {
    LeastFirstIs(kind, bs, e, now);
    hide Relevant, LeastFirst;
    var r := LeastFirst(kind, bs, e, now);
    assert r <= Stamp(bs[lo].first, now);
    if r != now {
      var i :| 0 <= i < |bs| && Relevant(kind, bs[i], e) && r == Stamp(bs[i].first, now);
    }
  }

  lemma GreatestStamp(kind: Kind, bs: seq<Bucket>, e: string, start: int, m: int, hi: nat)
    requires start <= m && hi < |bs| && Relevant(kind, bs[hi], e) && bs[hi].last == m
    requires forall i :: 0 <= i < |bs| && Relevant(kind, bs[i], e) ==> bs[i].last <= m
    ensures GreatestLast(kind, bs, e, start) == m <==> m != 0 || start == 0
  {
    GreatestLastIs(kind, bs, e, start);
    hide Relevant, GreatestLast;
    var r := GreatestLast(kind, bs, e, start);
    assert r >= Stamp(bs[hi].last, start);
    if r != start {
      var i :| 0 <= i < |bs| && Relevant(kind, bs[i], e) && r == Stamp(bs[i].last, start);
    }
  }

  lemma TimesAgreeIff(kind: Kind, bs: seq<Bucket>, e: string, hits: seq<Doc>, start: int, now: int)
    requires Framed(kind, bs, e, hits) && hits != []
    requires MinTs(hits) <= now && start <= MaxTs(hits)
    ensures LeastFirst(kind, bs, e, now) == MinTs(hits) <==> MinTs(hits) != 0 || now == 0
    ensures GreatestLast(kind, bs, e, start) == MaxTs(hits) <==> MaxTs(hits) != 0 || start == 0
  {
    var lo, hi := BucketExtremes(kind, bs, e, hits);
    hide *;
    LeastStamp(kind, bs, e, now, MinTs(hits), lo);
    GreatestStamp(kind, bs, e, start, MaxTs(hits), hi);
  }

  // ---- _bucket_entity --------------------------------------------------------

  /** An entity's record against the documents. */
  ghost predicate Agrees(r: Rec, hits: seq<Doc>, start: int, now: int) {
    && hits != []
    && r.count == |hits|
    && (r.first == MinTs(hits) <==> MinTs(hits) != 0 || now == 0)
    && (r.last == MaxTs(hits) <==> MaxTs(hits) != 0 || start == 0)
  }

  lemma {:induction false} HitsAreDocs(docs: seq<Doc>, fields: seq<string>, search: Search, kind: Kind, e: string)
    ensures forall d :: d in AllHits(docs, fields, search, kind, e) ==> d in docs
  {
    hide Normalize;
    if fields != [] {
      HitsAreDocs(docs, fields[..|fields| - 1], search, kind, e);
    }
  }

  /** The merged map against the direct count, entity by entity, in whatever
      order the buckets came. */
  lemma MergeAgrees(docs: seq<Doc>, fields: seq<string>, search: Search, kind: Kind, start: int, now: int, e: string)
    requires Ideal(docs, fields, search)
    requires forall d :: d in docs ==> start <= d.ts <= now
    requires e != ""
    ensures e in MergeAll(kind, AllBuckets(fields, search), start, now) <==> AllHits(docs, fields, search, kind, e) != []
    ensures e in MergeAll(kind, AllBuckets(fields, search), start, now) ==>
              Agrees(MergeAll(kind, AllBuckets(fields, search), start, now)[e], AllHits(docs, fields, search, kind, e), start, now)
  {
    var bs := AllBuckets(fields, search);
    var hits := AllHits(docs, fields, search, kind, e);
    MergedEntity(kind, bs, start, now, e);
    CountAgrees(docs, fields, search, kind, e);
    AllFramed(docs, fields, search, kind, e);
    HitsAreDocs(docs, fields, search, kind, e);
    hide AllBuckets, AllHits, MergeAll, Ideal, SumCount, LeastFirst, GreatestLast, MinTs, MaxTs;
    PresentIff(kind, bs, e, hits);
    if hits != [] {
      assert start <= MinTs(hits) <= now && start <= MaxTs(hits) <= now;
      TimesAgreeIff(kind, bs, e, hits, start, now);
    }
  }

  method BucketEntity(ghost docs: seq<Doc>, search: Search, kind: Kind, start: int, now: int) returns (out: map<string, Rec>)
    requires Ideal(docs, AliasFields(kind), search)
    requires forall d :: d in docs ==> start <= d.ts <= now
    ensures "" !in out
    ensures forall e :: e != "" ==> (e in out <==> AllHits(docs, AliasFields(kind), search, kind, e) != [])
    ensures forall e :: e in out ==> Agrees(out[e], AllHits(docs, AliasFields(kind), search, kind, e), start, now)
  {
    hide Ideal, Agrees, Normalize, AllHits, AliasFields, AllBuckets, MergeAll;
    var fields := AliasFields(kind);
    out := map[];
    NothingMerged(kind, fields, search, start, now);
    for i := 0 to |fields|
      invariant out == MergeAll(kind, AllBuckets(fields[..i], search), start, now)
    {
      ghost var done := AllBuckets(fields[..i], search);
      assert fields[..i + 1][..i] == fields[..i];
      AllBucketsSnoc(fields[..i + 1], search);
      var res := search(fields[i]);
      if res.None? {
        continue;
      }
      out := MergeBuckets(out, done, kind, res.value, start, now);
    }
    assert fields[..|fields|] == fields;
    NoEmptyKey(kind, AllBuckets(fields, search), start, now);
    forall e | e != ""
      ensures e in out <==> AllHits(docs, fields, search, kind, e) != []
      ensures e in out ==> Agrees(out[e], AllHits(docs, fields, search, kind, e), start, now)
    {
      MergeAgrees(docs, fields, search, kind, start, now, e);
    }
  }

  lemma NothingMerged(kind: Kind, fields: seq<string>, search: Search, start: int, now: int)
    ensures MergeAll(kind, AllBuckets(fields[..0], search), start, now) == map[]
  {
  }

  /** The inner loop over one field's buckets. */
  method MergeBuckets(before: map<string, Rec>, ghost done: seq<Bucket>, kind: Kind, bs: seq<Bucket>, start: int, now: int)
    returns (out: map<string, Rec>)
    requires before == MergeAll(kind, done, start, now)
    ensures out == MergeAll(kind, done + bs, start, now)
  {
    hide Normalize, Stamp, Min, Max, MergeAll, MergeOne;
    out := before;
    assert done + bs[..0] == done;
    for k := 0 to |bs|
      invariant out == MergeAll(kind, done + bs[..k], start, now)
    {
      MergeSnoc(kind, done + bs[..k], bs[k], start, now);
      assert done + bs[..k + 1] == (done + bs[..k]) + [bs[k]];
      out := MergeBucket(out, kind, bs[k], start, now);
    }
    assert done + bs[..|bs|] == done + bs;
  }

  method MergeBucket(before: map<string, Rec>, kind: Kind, b: Bucket, start: int, now: int) returns (out: map<string, Rec>)
    ensures out == MergeOne(before, kind, b, start, now)
  {
    hide Normalize;
    out := before;
    var e := Normalize(kind, b.key);
    if e == "" {
      return;
    }
    if e !in out {
      out := out[e := Rec(0, now, start, b.key)];
    }
    var r := out[e];
    r := r.(count := r.count + b.count);
    r := r.(first := Min(r.first, Stamp(b.first, now)));
    r := r.(last := Max(r.last, Stamp(b.last, start)));
    out := out[e := r];
  }

  lemma MergeSnoc(kind: Kind, bs: seq<Bucket>, b: Bucket, start: int, now: int)
    ensures MergeAll(kind, bs + [b], start, now) == MergeOne(MergeAll(kind, bs, start, now), kind, b, start, now)
  {
    hide MergeOne;
    assert (bs + [b])[..|bs|] == bs;
  }
}
