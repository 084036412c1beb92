/** The part of the search engine's query language the dashboard splices into,
    with its meaning over documents. */
module Query {
  import opened Wrappers
  import opened Decimal
  import opened Glob

  /** A stored field value. */
  datatype Val = Num(n: int) | Str(s: string)

  /** Each field holds any number of values. */
  type Doc = map<string, seq<Val>>

  /** must_not as the JSON holds it: no key (or an empty one), one object, or a
      list. */
  datatype Occur = Absent | Single(q: Query) | Many(qs: seq<Query>)

  /** `Other` stands for every clause kind the filters never build. */
  datatype Query =
    | MatchAll
    | Term(field: string, v: Val)
    | Terms(field: string, values: seq<string>)
    | Wildcard(field: string, pattern: string)
    | Regexp(field: string, pattern: string)
    | Other(id: nat)
    | Bool(must: seq<Query>, should: seq<Query>, filters: seq<Query>, mustNot: Occur, minShould: Option<nat>)

  /** What the model takes as given: regular expressions and other clauses. */
  datatype Engine = Engine(regexp: (string, string) -> bool, other: (nat, Doc) -> bool)

  /** A keyword field compares texts, a numeric field compares numbers. */
  predicate TermMatches(stored: Val, v: Val) {
    match (stored, v)
    case (Num(n), Num(m)) => n == m
    case (Str(s), Str(t)) => s == t
    case (Num(n), Str(t)) => IntValue(t) == Some(n)
    case (Str(s), Num(m)) => s == IntText(m)
  }

  /** A stored value meets a number that it is or prints as, and a text that it is or
      that is its numeral. */
  lemma TermMatchesIff(stored: Val, n: int, t: string)
    ensures TermMatches(stored, Num(n)) <==> stored == Num(n) || stored == Str(IntText(n))
    ensures TermMatches(stored, Str(t)) <==> stored == Str(t) || (stored.Num? && IntValue(t) == Some(stored.n))
  {
  }

  predicate AnyTerm(stored: seq<Val>, v: Val) {
    exists i :: 0 <= i < |stored| && TermMatches(stored[i], v)
  }

  predicate AnyText(stored: seq<Val>, f: string -> bool) {
    exists i :: 0 <= i < |stored| && stored[i].Str? && f(stored[i].s)
  }

  function Values(d: Doc, field: string): seq<Val> {
    if field in d then d[field] else []
  }

  predicate Eval(q: Query, d: Doc, e: Engine)
    decreases q, 0
  {
    match q
    case MatchAll => true
    case Term(f, v) => AnyTerm(Values(d, f), v)
    case Terms(f, vs) => exists i :: 0 <= i < |vs| && AnyTerm(Values(d, f), Str(vs[i]))
    case Wildcard(f, p) => AnyText(Values(d, f), s => Matches(Tokens(p), s))
    case Regexp(f, p) => AnyText(Values(d, f), s => e.regexp(p, s))
    case Other(id) => e.other(id, d)
    case Bool(must, should, filters, mustNot, minShould) =>
      && CountTrue(must, d, e) == |must|
      && CountTrue(filters, d, e) == |filters|
      && CountTrue(should, d, e) >= Needed(q)
      && (match mustNot
          case Absent => true
          case Single(x) => !Eval(x, d, e)
          case Many(xs) => CountTrue(xs, d, e) == 0)
  }

  function CountTrue(qs: seq<Query>, d: Doc, e: Engine): (n: nat)
    ensures n <= |qs|
    decreases qs, 1
  {
    if qs == [] then 0
    else (if Eval(qs[0], d, e) then 1 else 0) + CountTrue(qs[1..], d, e)
  }

  /** Without minimum_should_match, should clauses matter only when nothing else
      is required. */
  function Needed(q: Query): nat
    requires q.Bool?
  {
    if q.minShould.Some? then q.minShould.value
    else if q.should != [] && q.must == [] && q.filters == [] then 1
    else 0
  }

  predicate AnyTrue(qs: seq<Query>, d: Doc, e: Engine) {
    exists i :: 0 <= i < |qs| && Eval(qs[i], d, e)
  }

  lemma {:induction false} NoneCountsIff(qs: seq<Query>, d: Doc, e: Engine)
    ensures CountTrue(qs, d, e) == 0 <==> !AnyTrue(qs, d, e)
  {
    hide Eval;
    if qs != [] {
      NoneCountsIff(qs[1..], d, e);
      if Eval(qs[0], d, e) {
        assert AnyTrue(qs, d, e);
      } else if i :| 0 <= i < |qs| && Eval(qs[i], d, e) {
        assert Eval(qs[1..][i - 1], d, e);
      } else {
        assert forall i :: 0 <= i < |qs[1..]| ==> qs[1..][i] == qs[i + 1];
      }
    }
  }

  /** The meaning of a request body's query; a missing query matches all. */
  predicate BodyMatches(query: Option<Query>, d: Doc, e: Engine) {
    match query
    case None => true
    case Some(q) => Eval(q, d, e)
  }
}
