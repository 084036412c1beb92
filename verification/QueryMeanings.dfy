/** The two readings of a search query agree: Query's, over the clauses the filters
    build, and that of QueryTimestamps, over the JSON the dashboard sends. */
module QueryMeanings {
  import opened Wrappers
  import opened Decimal
  import opened Json
  import opened T = QueryTimestamps
  import Q = Query

  /** How a clause other than bool is written, as one member of a query object, and which
      document an index stands for. */
  datatype Writing = Writing(clause: Q.Query -> Member, doc: int -> Q.Doc)

  /** Such a clause is none of those the engine looks into, and the engine reads it as
      Query does. */
  ghost predicate Fits(w: Writing, e: T.Engine, qe: Q.Engine) {
    forall q: Q.Query :: !q.Bool? ==> ReadAlike(w, q, e, qe)
  }

  ghost predicate ReadAlike(w: Writing, q: Q.Query, e: T.Engine, qe: Q.Engine) {
    var m := w.clause(q);
    && m.key !in {"range", "bool", "constant_score", "function_score", "nested", "boosting", "dis_max"}
    && forall d :: e.leaf(m.key, m.val, d) <==> Q.Eval(q, w.doc(d), qe)
  }

  /** The query as JSON. */
  function Form(w: Writing, q: Q.Query): (r: Json)
    ensures r.JObj?
    decreases q, 0
  {
    match q
    case Bool(must, should, filters, mustNot, minShould) =>
      JObj([Member("bool", JObj(Three(Forms(w, must), Forms(w, should), Forms(w, filters))
                                + NotForm(w, mustNot) + Minimum(minShould)))])
    case _ => JObj([w.clause(q)])
  }

  function Forms(w: Writing, qs: seq<Q.Query>): (r: seq<Json>)
    ensures |r| == |qs|
    decreases qs, 1
  {
    if qs == [] then [] else [Form(w, qs[0])] + Forms(w, qs[1..])
  }

  function NotForm(w: Writing, mustNot: Q.Occur): seq<Member>
    decreases mustNot, 1
  {
    match mustNot
    case Absent => []
    case Single(x) => [Member("must_not", Form(w, x))]
    case Many(xs) => [Member("must_not", JArr(Forms(w, xs)))]
  }

  function Three(must: seq<Json>, should: seq<Json>, filters: seq<Json>): seq<Member> {
    [Member("must", JArr(must)), Member("should", JArr(should)), Member("filter", JArr(filters))]
  }

  function Minimum(minShould: Option<nat>): seq<Member> {
    match minShould
    case None => []
    case Some(n) => [Member("minimum_should_match", JNum(IntText(n)))]
  }

  /** Whatever a query is built of, at any depth: a document matches it to one reading
      iff it does to the other. */
  lemma {:induction false} ReadingsAgree(w: Writing, q: Q.Query, d: int, e: T.Engine, qe: Q.Engine)
    requires Fits(w, e, qe)
    ensures Holds(Form(w, q), d, e) <==> Q.Eval(q, w.doc(d), qe)
    decreases q, 0
  {
    hide Fits, Q.Eval, Holds, Form, CountHolding;
    if q.Bool? {
      CountsAgree(w, q.must, d, e, qe);
      CountsAgree(w, q.should, d, e, qe);
      CountsAgree(w, q.filters, d, e, qe);
      match q.mustNot {
        case Absent =>
        case Single(x) => ReadingsAgree(w, x, d, e, qe);
        case Many(xs) => CountsAgree(w, xs, d, e, qe);
      }
      BoolAgrees(w, q, d, e, qe);
    } else {
      ClauseAgrees(w, q, d, e, qe);
    }
  }

  lemma ClauseAgrees(w: Writing, q: Q.Query, d: int, e: T.Engine, qe: Q.Engine)
    requires Fits(w, e, qe) && !q.Bool?
    ensures Holds(Form(w, q), d, e) <==> Q.Eval(q, w.doc(d), qe)
  {
    assert ReadAlike(w, q, e, qe);
    hide Fits, Q.Eval;
    var m := w.clause(q);
    assert Form(w, q) == JObj([m]);
    OneClause(m, d, e);
  }

  lemma OneClause(m: Member, d: int, e: T.Engine)
    ensures Holds(JObj([m]), d, e) <==> ClauseHolds(m, d, e)
  {
    var ms := [m];
    assert Holds(JObj(ms), d, e) <==> forall i :: 0 <= i < |ms| ==> ClauseHolds(ms[i], d, e);
    assert ms[0] == m;
    hide ClauseHolds, Holds;
  }

  lemma {:induction false} CountsAgree(w: Writing, qs: seq<Q.Query>, d: int, e: T.Engine, qe: Q.Engine)
    requires Fits(w, e, qe)
    ensures CountHolding(Forms(w, qs), d, e) == Q.CountTrue(qs, w.doc(d), qe)
    decreases qs, 1
  {
    hide Fits, Form, Q.Eval, Holds;
    if qs != [] {
      ReadingsAgree(w, qs[0], d, e, qe);
      CountsAgree(w, qs[1..], d, e, qe);
      assert Forms(w, qs)[1..] == Forms(w, qs[1..]);
    }
  }

  // ---- one bool ----------------------------------------------------------------------

  ghost predicate AllOccur(ms: seq<Member>, needed: int, d: int, e: T.Engine) {
    forall i :: 0 <= i < |ms| ==> OccurHolds(ms[i], needed, d, e)
  }

  lemma AllOccurSum(a: seq<Member>, b: seq<Member>, needed: int, d: int, e: T.Engine)
    ensures AllOccur(a + b, needed, d, e) <==> AllOccur(a, needed, d, e) && AllOccur(b, needed, d, e)
  {
    hide OccurHolds;
    var ab := a + b;
    if AllOccur(ab, needed, d, e) {
      forall i | 0 <= i < |a| ensures OccurHolds(a[i], needed, d, e) {
        assert ab[i] == a[i];
      }
      forall i | 0 <= i < |b| ensures OccurHolds(b[i], needed, d, e) {
        assert ab[|a| + i] == b[i];
      }
    }
  }

  lemma {:induction false} FindSum(a: seq<Member>, b: seq<Member>, key: string)
    ensures Find(a + b, key) == if Find(a, key).Some? then Find(a, key) else Find(b, key)
  {
    if a == [] {
      assert a + b == b;
    } else {
      assert (a + b)[1..] == a[1..] + b;
      FindSum(a[1..], b, key);
    }
  }

  lemma FindOne(m: Member, key: string)
    ensures Find([m], key) == if m.key == key then Some(m.val) else None
    ensures Find([], key) == None
  {
    assert [m][1..] == [];
  }

  lemma FindThree(must: seq<Json>, should: seq<Json>, filters: seq<Json>)
    ensures var ms := Three(must, should, filters);
      && Find(ms, "must") == Some(JArr(must)) && Find(ms, "should") == Some(JArr(should))
      && Find(ms, "filter") == Some(JArr(filters)) && Find(ms, "minimum_should_match") == None
  {
    var a, b, c := Member("must", JArr(must)), Member("should", JArr(should)), Member("filter", JArr(filters));
    assert Three(must, should, filters) == [a] + ([b] + [c]);
    forall key ensures Find([a] + ([b] + [c]), key)
                    == if key == "must" then Some(a.val) else if key == "should" then Some(b.val)
                       else if key == "filter" then Some(c.val) else None
    {
      FindSum([a], [b] + [c], key);
      FindSum([b], [c], key);
      FindOne(a, key);
      FindOne(b, key);
      FindOne(c, key);
      hide Find;
    }
    hide Find;
  }

  lemma NeededAgrees(w: Writing, q: Q.Query)
    requires q.Bool?
    ensures var ms := Three(Forms(w, q.must), Forms(w, q.should), Forms(w, q.filters)) + NotForm(w, q.mustNot) + Minimum(q.minShould);
      ShouldNeeded(ms) == Q.Needed(q) && Find(ms, "should").Some?
  {
    var three := Three(Forms(w, q.must), Forms(w, q.should), Forms(w, q.filters));
    var not, low := NotForm(w, q.mustNot), Minimum(q.minShould);
    FindThree(Forms(w, q.must), Forms(w, q.should), Forms(w, q.filters));
    FindParts(three, not, low, "must");
    FindParts(three, not, low, "should");
    FindParts(three, not, low, "filter");
    FindParts(three, not, low, "minimum_should_match");
    NotFound(w, q.mustNot);
    LowFound(q.minShould);
    if q.minShould.Some? {
      IntValueRoundTrip(q.minShould.value);
    }
    hide Find, Three, NotForm, Minimum, Forms, IntValue, IntText;
  }

  lemma FindParts(a: seq<Member>, b: seq<Member>, c: seq<Member>, key: string)
    ensures Find(a + b + c, key)
         == if Find(a, key).Some? then Find(a, key) else if Find(b, key).Some? then Find(b, key) else Find(c, key)
  {
    FindSum(a + b, c, key);
    FindSum(a, b, key);
    hide Find;
  }

  lemma NotFound(w: Writing, mustNot: Q.Occur)
    ensures Find(NotForm(w, mustNot), "minimum_should_match") == None
  {
    hide Form, Forms;
    match mustNot
    case Absent =>
    case Single(x) => FindOne(Member("must_not", Form(w, x)), "minimum_should_match");
    case Many(xs) => FindOne(Member("must_not", JArr(Forms(w, xs))), "minimum_should_match");
  }

  lemma LowFound(minShould: Option<nat>)
    ensures Find(Minimum(minShould), "minimum_should_match")
         == match minShould case None => None case Some(n) => Some(JNum(IntText(n)))
  {
    if minShould.Some? {
      FindOne(Member("minimum_should_match", JNum(IntText(minShould.value))), "minimum_should_match");
    }
  }

  lemma ThreeOccur(must: seq<Json>, should: seq<Json>, filters: seq<Json>, needed: int, d: int, e: T.Engine)
    ensures AllOccur(Three(must, should, filters), needed, d, e)
       <==> && CountHolding(must, d, e) == |must| && CountHolding(filters, d, e) == |filters|
            && CountHolding(should, d, e) >= needed
  {
    hide CountHolding;
    var ms := Three(must, should, filters);
    assert OccurHolds(ms[0], needed, d, e) <==> CountHolding(must, d, e) == |must|;
    assert OccurHolds(ms[1], needed, d, e) <==> CountHolding(should, d, e) >= needed;
    assert OccurHolds(ms[2], needed, d, e) <==> CountHolding(filters, d, e) == |filters|;
  }

  lemma NotOccur(w: Writing, mustNot: Q.Occur, needed: int, d: int, e: T.Engine)
    ensures AllOccur(NotForm(w, mustNot), needed, d, e)
       <==> && (mustNot.Single? ==> !Holds(Form(w, mustNot.q), d, e))
            && (mustNot.Many? ==> CountHolding(Forms(w, mustNot.qs), d, e) == 0)
  {
    hide CountHolding, Holds, Form, Forms;
    if mustNot.Single? {
      assert OccurHolds(NotForm(w, mustNot)[0], needed, d, e) <==> !Holds(Form(w, mustNot.q), d, e);
    } else if mustNot.Many? {
      assert OccurHolds(NotForm(w, mustNot)[0], needed, d, e) <==> CountHolding(Forms(w, mustNot.qs), d, e) == 0;
    }
  }

  lemma LowOccur(minShould: Option<nat>, needed: int, d: int, e: T.Engine)
    ensures AllOccur(Minimum(minShould), needed, d, e)
  {
  }

  lemma BoolHolds(ms: seq<Member>, d: int, e: T.Engine)
    requires Find(ms, "should").Some?
    ensures Holds(JObj([Member("bool", JObj(ms))]), d, e) <==> AllOccur(ms, ShouldNeeded(ms), d, e)
  {
    hide OccurHolds, ShouldNeeded, Find;
    OneClause(Member("bool", JObj(ms)), d, e);
  }

  lemma BoolAgrees(w: Writing, q: Q.Query, d: int, e: T.Engine, qe: Q.Engine)
    requires q.Bool?
    requires CountHolding(Forms(w, q.must), d, e) == Q.CountTrue(q.must, w.doc(d), qe)
    requires CountHolding(Forms(w, q.should), d, e) == Q.CountTrue(q.should, w.doc(d), qe)
    requires CountHolding(Forms(w, q.filters), d, e) == Q.CountTrue(q.filters, w.doc(d), qe)
    requires q.mustNot.Single? ==> (Holds(Form(w, q.mustNot.q), d, e) <==> Q.Eval(q.mustNot.q, w.doc(d), qe))
    requires q.mustNot.Many? ==> CountHolding(Forms(w, q.mustNot.qs), d, e) == Q.CountTrue(q.mustNot.qs, w.doc(d), qe)
    ensures Holds(Form(w, q), d, e) <==> Q.Eval(q, w.doc(d), qe)
  {
    var three := Three(Forms(w, q.must), Forms(w, q.should), Forms(w, q.filters));
    var not, low := NotForm(w, q.mustNot), Minimum(q.minShould);
    var ms := three + not + low;
    FormOfBool(w, q);
    hide *;
    NeededAgrees(w, q);
    BoolHolds(ms, d, e);
    var n := ShouldNeeded(ms);
    AllOccurSum(three + not, low, n, d, e);
    AllOccurSum(three, not, n, d, e);
    ThreeOccur(Forms(w, q.must), Forms(w, q.should), Forms(w, q.filters), n, d, e);
    NotOccur(w, q.mustNot, n, d, e);
    LowOccur(q.minShould, n, d, e);
    EvalOfBool(q, w.doc(d), qe);
  }

  lemma FormOfBool(w: Writing, q: Q.Query)
    requires q.Bool?
    ensures Form(w, q) == JObj([Member("bool", JObj(Three(Forms(w, q.must), Forms(w, q.should), Forms(w, q.filters))
                                                   + NotForm(w, q.mustNot) + Minimum(q.minShould)))])
  {
    hide Three, Minimum, Forms;
  }

  lemma EvalOfBool(q: Q.Query, d: Q.Doc, e: Q.Engine)
    requires q.Bool?
    ensures Q.Eval(q, d, e)
       <==> && Q.CountTrue(q.must, d, e) == |q.must| && Q.CountTrue(q.filters, d, e) == |q.filters|
            && Q.CountTrue(q.should, d, e) >= Q.Needed(q)
            && (q.mustNot.Single? ==> !Q.Eval(q.mustNot.q, d, e))
            && (q.mustNot.Many? ==> Q.CountTrue(q.mustNot.qs, d, e) == 0)
  {
    hide Q.CountTrue, Q.Needed;
  }

  // ---- the clauses Query does not have -------------------------------------------------

  function Object(key: string, v: Json): Json {
    JObj([Member(key, v)])
  }

  /** A wrapper asks its query, dis_max any of its queries, nested of the documents under
      the path. */
  lemma WrappersAsk(q: Json, qs: seq<Json>, path: string, d: int, e: T.Engine)
    requires q.JObj?
    ensures Holds(Object("constant_score", Object("filter", q)), d, e) <==> Holds(q, d, e)
    ensures Holds(Object("function_score", Object("query", q)), d, e) <==> Holds(q, d, e)
    ensures Holds(Object("boosting", Object("positive", q)), d, e) <==> Holds(q, d, e)
    ensures Holds(Object("dis_max", Object("queries", JArr(qs))), d, e) <==> exists i :: 0 <= i < |qs| && Holds(qs[i], d, e)
    ensures Holds(Object("nested", JObj([Member("path", JStr(path)), Member("query", q)])), d, e)
       <==> exists k :: 0 <= k < |e.children(path, d)| && Holds(q, e.children(path, d)[k], e)
  {
    hide Holds, ClauseHolds, Object;
    WrapperAsks("constant_score", "filter", q, d, e);
    WrapperAsks("function_score", "query", q, d, e);
    WrapperAsks("boosting", "positive", q, d, e);
    WrapperAsks("dis_max", "queries", JArr(qs), d, e);
    AnyHolding(qs, d, e);
    NestedAsks(q, path, d, e);
  }

  lemma WrapperAsks(key: string, inner: string, q: Json, d: int, e: T.Engine)
    requires (key, inner) in {("constant_score", "filter"), ("function_score", "query"), ("boosting", "positive"), ("dis_max", "queries")}
    ensures Holds(Object(key, Object(inner, q)), d, e)
       <==> if q.JArr? then CountHolding(q.items, d, e) > 0 else Holds(q, d, e)
  {
    var m := Member(key, Object(inner, q));
    OneClause(m, d, e);
    FindOne(Member(inner, q), "min_score");
    assert IndexOf([Member(inner, q)], inner) == 0;
    hide Holds, CountHolding, Find, IndexOf;
    assert SubKey(key) == inner && Wraps(m) && Asked(m, d, e) == [d];
    assert SubHolds(Member(inner, q), [d][0], e) <==> if q.JArr? then CountHolding(q.items, d, e) > 0 else Holds(q, d, e);
  }

  lemma {:induction false} AnyHolding(qs: seq<Json>, d: int, e: T.Engine)
    ensures CountHolding(qs, d, e) > 0 <==> exists i :: 0 <= i < |qs| && Holds(qs[i], d, e)
  {
    hide Holds;
    if qs != [] {
      AnyHolding(qs[1..], d, e);
      if i :| 0 <= i < |qs| && Holds(qs[i], d, e) {
        assert i > 0 ==> Holds(qs[1..][i - 1], d, e);
      }
    }
  }

  lemma NestedAsks(q: Json, path: string, d: int, e: T.Engine)
    requires q.JObj?
    ensures Holds(Object("nested", JObj([Member("path", JStr(path)), Member("query", q)])), d, e)
       <==> exists k :: 0 <= k < |e.children(path, d)| && Holds(q, e.children(path, d)[k], e)
  {
    var a, b := Member("path", JStr(path)), Member("query", q);
    var m := Member("nested", JObj([a, b]));
    OneClause(m, d, e);
    assert [a, b] == [a] + [b] && [a, b][1..] == [b];
    FindSum([a], [b], "min_score");
    FindSum([a], [b], "path");
    FindOne(a, "min_score");
    FindOne(b, "min_score");
    FindOne(a, "path");
    assert IndexOf([b], "query") == 0 && IndexOf([a, b], "query") == 1;
    hide Holds, CountHolding, Find, IndexOf;
    assert Wraps(m) && Asked(m, d, e) == e.children(path, d);
    forall k | 0 <= k < |e.children(path, d)|
      ensures SubHolds(b, e.children(path, d)[k], e) <==> Holds(q, e.children(path, d)[k], e)
    {
    }
  }

  /** In a bool a lone object counts as a list of one, and other keys decide nothing. */
  lemma LoneIsListOfOne(key: string, q: Json, needed: int, d: int, e: T.Engine)
    requires q.JObj?
    ensures OccurHolds(Member(key, q), needed, d, e) <==> OccurHolds(Member(key, JArr([q])), needed, d, e)
    ensures key !in {"must", "filter", "must_not", "should"} ==> OccurHolds(Member(key, q), needed, d, e)
  {
    assert [q][1..] == [] && CountHolding([], d, e) == 0;
    assert CountHolding([q], d, e) == if Holds(q, d, e) then 1 else 0;
    hide Holds, CountHolding;
  }
}
