/** Timestamp bounds in a query rewritten to epoch milliseconds at any depth
    (watchtower_client.py), and what that does to the query's meaning. */
module QueryTimestamps {
  import opened Wrappers
  import opened Json
  import opened Decimal

  /** The two library parsers: float() and the five strptime formats, the latter
      already in milliseconds. */
  datatype Clocks = Clocks(float: string -> Option<real>, date: string -> Option<int>)

  /** int(x): towards zero. */
  function Truncate(x: real): int {
    if x >= 0.0 then x.Floor else -((-x).Floor)
  }

  /** Numbers from a million million up are milliseconds, others seconds. */
  function FromNumber(x: real): int {
    if x >= 1000000000000.0 then Truncate(x) else Truncate(x * 1000.0)
  }

  function ToEpochMs(s: string, c: Clocks): Option<int> {
    match c.float(s)
    case Some(x) => Some(FromNumber(x))
    case None => c.date(s)
  }

  /** A whole number of milliseconds reads as itself iff it is a million million or
      more (from September 2001 on), or zero; an earlier one is taken for seconds
      and lands a thousand times later. */
  lemma MillisecondsKeptIff(ms: int)
    ensures FromNumber(ms as real) == ms <==> ms >= 1000000000000 || ms == 0
  {
    assert (ms as real) * 1000.0 == (ms * 1000) as real;
    hide Truncate;
  }

  /** A number of seconds before the year 33658 becomes that instant in
      milliseconds. */
  lemma SecondsBecomeMilliseconds(seconds: int)
    requires seconds < 1000000000000
    ensures FromNumber(seconds as real) == 1000 * seconds
  {
    assert (seconds as real) * 1000.0 == (seconds * 1000) as real;
  }

  /** n is x without its fraction. */
  predicate CutOff(x: real, n: int) {
    if x >= 0.0 then 0 <= n && n as real <= x < (n + 1) as real else n <= 0 && (n - 1) as real < x <= n as real
  }

  /** A fraction of a second counts down to the millisecond, what is left over is cut
      off; of a fractional millisecond likewise. */
  lemma FractionsAreCutOff(x: real)
    ensures x < 1000000000000.0 ==> CutOff(1000.0 * x, FromNumber(x))
    ensures x >= 1000000000000.0 ==> CutOff(x, FromNumber(x))
  {
    TruncateCutsOff(x);
    TruncateCutsOff(x * 1000.0);
    hide Truncate, CutOff;
  }

  lemma TruncateCutsOff(x: real)
    ensures CutOff(x, Truncate(x))
  {
  }

  function AsJson(ms: Option<int>): Json {
    match ms case Some(n) => JNum(IntText(n)) case None => JNull
  }

  // ---- the rewriting ---------------------------------------------------------

  function RewriteBounds(bounds: seq<Member>, c: Clocks): (r: seq<Member>)
    ensures |r| == |bounds|
    ensures forall i :: 0 <= i < |bounds| ==> r[i] == Member(bounds[i].key, RewriteBound(bounds[i].val, c))
  {
    if bounds == [] then []
    else [Member(bounds[0].key, RewriteBound(bounds[0].val, c))] + RewriteBounds(bounds[1..], c)
  }

  function RewriteBound(v: Json, c: Clocks): Json {
    if v.JStr? then AsJson(ToEpochMs(v.text, c)) else v
  }

  predicate IsTimestamp(m: Member) {
    m.key == "timestamp" && m.val.JObj?
  }

  function RewriteFields(fields: seq<Member>, c: Clocks): (r: seq<Member>)
    ensures |r| == |fields|
    ensures forall i :: 0 <= i < |fields| ==>
              r[i] == if IsTimestamp(fields[i]) then Member(fields[i].key, JObj(RewriteBounds(fields[i].val.members, c))) else fields[i]
  {
    if fields == [] then []
    else
      [if IsTimestamp(fields[0]) then Member(fields[0].key, JObj(RewriteBounds(fields[0].val.members, c))) else fields[0]]
      + RewriteFields(fields[1..], c)
  }

  predicate IsRange(m: Member) {
    m.key == "range" && m.val.JObj?
  }

  function Rewrite(j: Json, c: Clocks): Json {
    match j
    case JArr(items) => JArr(RewriteItems(items, c))
    case JObj(ms) => JObj(RewriteMembers(ms, c))
    case _ => j
  }

  function RewriteItems(items: seq<Json>, c: Clocks): (r: seq<Json>)
    ensures |r| == |items|
    ensures forall i :: 0 <= i < |items| ==> r[i] == Rewrite(items[i], c)
  {
    if items == [] then [] else [Rewrite(items[0], c)] + RewriteItems(items[1..], c)
  }

  function RewriteMembers(ms: seq<Member>, c: Clocks): (r: seq<Member>)
    ensures |r| == |ms|
    ensures forall i :: 0 <= i < |ms| ==>
              r[i] == if IsRange(ms[i]) then Member(ms[i].key, JObj(RewriteFields(ms[i].val.members, c)))
                      else Member(ms[i].key, Rewrite(ms[i].val, c))
  {
    if ms == [] then []
    else
      [if IsRange(ms[0]) then Member(ms[0].key, JObj(RewriteFields(ms[0].val.members, c)))
       else Member(ms[0].key, Rewrite(ms[0].val, c))]
      + RewriteMembers(ms[1..], c)
  }

  // ---- what it leaves alone --------------------------------------------------

  predicate BoundsSettled(bounds: seq<Member>) {
    forall i :: 0 <= i < |bounds| ==> !bounds[i].val.JStr?
  }

  predicate FieldsSettled(fields: seq<Member>) {
    forall i :: 0 <= i < |fields| && IsTimestamp(fields[i]) ==> BoundsSettled(fields[i].val.members)
  }

  /** No string stands in a timestamp range, at any depth. */
  predicate Settled(j: Json) {
    match j
    case JArr(items) => forall i :: 0 <= i < |items| ==> Settled(items[i])
    case JObj(ms) => forall i :: 0 <= i < |ms| ==>
        if IsRange(ms[i]) then FieldsSettled(ms[i].val.members) else Settled(ms[i].val)
    case _ => true
  }

  lemma FieldsFixedIff(fields: seq<Member>, c: Clocks)
    ensures RewriteFields(fields, c) == fields <==> FieldsSettled(fields)
  {
    hide RewriteFields, RewriteBounds;
    forall i | 0 <= i < |fields|
      ensures RewriteFields(fields, c)[i] == fields[i] <==> (IsTimestamp(fields[i]) ==> BoundsSettled(fields[i].val.members))
    {
    }
    if RewriteFields(fields, c) == fields {
      assert forall i :: 0 <= i < |fields| ==> RewriteFields(fields, c)[i] == fields[i];
    }
  }

  /** The rewriting changes a query iff some string stands in a timestamp range;
      everything else, at every depth, is left exactly as it was. */
  lemma {:induction false} FixedIff(j: Json, c: Clocks)
    ensures Rewrite(j, c) == j <==> Settled(j)
    decreases j
  {
    match j
    case JArr(items) =>
      forall i | 0 <= i < |items| ensures Rewrite(items[i], c) == items[i] <==> Settled(items[i]) {
        FixedIff(items[i], c);
      }
    case JObj(ms) =>
      forall i | 0 <= i < |ms| && !IsRange(ms[i]) ensures Rewrite(ms[i].val, c) == ms[i].val <==> Settled(ms[i].val) {
        FixedIff(ms[i].val, c);
      }
      MembersFixedIff(ms, c);
    case _ =>
  }

  lemma MembersFixedIff(ms: seq<Member>, c: Clocks)
    requires forall i :: 0 <= i < |ms| && !IsRange(ms[i]) ==> (Rewrite(ms[i].val, c) == ms[i].val <==> Settled(ms[i].val))
    ensures RewriteMembers(ms, c) == ms
       <==> forall i :: 0 <= i < |ms| ==> if IsRange(ms[i]) then FieldsSettled(ms[i].val.members) else Settled(ms[i].val)
  {
    hide RewriteMembers, Rewrite, Settled, FieldsSettled, RewriteFields;
    var r := RewriteMembers(ms, c);
    forall i | 0 <= i < |ms|
      ensures r[i] == ms[i] <==> if IsRange(ms[i]) then FieldsSettled(ms[i].val.members) else Settled(ms[i].val)
    {
      if IsRange(ms[i]) {
        FieldsFixedIff(ms[i].val.members, c);
      }
    }
    if r == ms {
      assert forall i :: 0 <= i < |ms| ==> r[i] == ms[i];
    }
  }

  lemma {:induction false} RewriteSettles(j: Json, c: Clocks)
    ensures Settled(Rewrite(j, c))
    decreases j
  {
    match j
    case JArr(items) =>
      forall i | 0 <= i < |items| ensures Settled(Rewrite(items[i], c)) {
        RewriteSettles(items[i], c);
      }
    case JObj(ms) =>
      var r := RewriteMembers(ms, c);
      forall i | 0 <= i < |ms|
        ensures if IsRange(r[i]) then FieldsSettled(r[i].val.members) else Settled(r[i].val)
      {
        if !IsRange(ms[i]) {
          RewriteSettles(ms[i].val, c);
        }
      }
    case _ =>
  }

  /** Rewriting twice is rewriting once, on every JSON value. */
  lemma RewriteIsIdempotent(j: Json, c: Clocks)
    ensures Rewrite(Rewrite(j, c), c) == Rewrite(j, c)
  {
    RewriteSettles(j, c);
    FixedIff(Rewrite(j, c), c);
  }

  // ---- meaning ---------------------------------------------------------------

  /** How the engine reads a bound: no bound, an instant, or an error. */
  datatype Reading = Open | At(ms: int) | Rejected

  /** `text` is the engine's own reading of a string bound, date arithmetic
      included; `option` an entry of a range that is no bound, `other` the range of
      another field, `leaf` every clause kind that is not compound here. A document
      is its index in the collection: `time` gives its stamp and `children` the
      nested documents under a path. */
  datatype Engine = Engine(
    text: string -> Reading,
    option: Member -> bool,
    other: (Member, int) -> bool,
    leaf: (string, Json, int) -> bool,
    time: int -> int,
    children: (string, int) -> seq<int>)

  function ReadBound(v: Json, e: Engine): Reading {
    match v
    case JNull => Open
    case JNum(n) => (match IntValue(n) case Some(ms) => At(ms) case None => Rejected)
    case JStr(s) => e.text(s)
    case _ => Rejected
  }

  predicate IsBound(key: string) {
    key == "gte" || key == "gt" || key == "lte" || key == "lt"
  }

  predicate Satisfies(key: string, r: Reading, ts: int) {
    match r
    case Open => true
    case Rejected => false
    case At(ms) =>
      if key == "gte" then ts >= ms
      else if key == "gt" then ts > ms
      else if key == "lte" then ts <= ms
      else ts < ms
  }

  /** One entry of a timestamp range against a document's time. */
  predicate Within(m: Member, ts: int, e: Engine) {
    if IsBound(m.key) then Satisfies(m.key, ReadBound(m.val, e), ts) else e.option(m)
  }

  predicate AllWithin(bounds: seq<Member>, ts: int, e: Engine) {
    forall i :: 0 <= i < |bounds| ==> Within(bounds[i], ts, e)
  }

  predicate FieldHolds(m: Member, doc: int, e: Engine) {
    if IsTimestamp(m) then AllWithin(m.val.members, e.time(doc), e) else e.other(m, doc)
  }

  predicate AllFields(fields: seq<Member>, doc: int, e: Engine) {
    forall i :: 0 <= i < |fields| ==> FieldHolds(fields[i], doc, e)
  }

  predicate Holds(q: Json, doc: int, e: Engine) {
    match q
    case JObj(ms) => forall i :: 0 <= i < |ms| ==> ClauseHolds(ms[i], doc, e)
    case _ => false
  }

  /** Where a compound clause keeps the query that decides what it matches; empty
      for the other kinds. */
  function SubKey(key: string): string {
    if key == "constant_score" then "filter"
    else if key == "function_score" || key == "nested" then "query"
    else if key == "boosting" then "positive"
    else if key == "dis_max" then "queries"
    else ""
  }

  /** Index of the first member with the key; the number of members if none has. */
  function IndexOf(ms: seq<Member>, key: string): (i: nat)
    ensures i <= |ms|
    ensures i < |ms| ==> ms[i].key == key
  {
    if ms == [] || ms[0].key == key then 0 else 1 + IndexOf(ms[1..], key)
  }

  /** A compound clause with its query; a minimum score leaves a function_score to
      the engine. */
  predicate Wraps(m: Member) {
    && m.val.JObj? && SubKey(m.key) != ""
    && IndexOf(m.val.members, SubKey(m.key)) < |m.val.members|
    && Find(m.val.members, "min_score").None?
  }

  /** The documents the wrapped query is asked about: the nested ones under the
      path, or the document itself. */
  function Asked(m: Member, doc: int, e: Engine): seq<int>
    requires m.val.JObj?
  {
    if m.key == "nested"
    then e.children(match Find(m.val.members, "path") case Some(JStr(path)) => path case _ => "", doc)
    else [doc]
  }

  /** One key of a query object: range, bool, a wrapper, or a leaf. */
  predicate ClauseHolds(m: Member, doc: int, e: Engine)
    decreases m
  {
    if IsRange(m) then AllFields(m.val.members, doc, e)
    else if m.key == "bool" && m.val.JObj? then
      && (Find(m.val.members, "should").Some? || ShouldNeeded(m.val.members) <= 0)
      && forall i :: 0 <= i < |m.val.members| ==> OccurHolds(m.val.members[i], ShouldNeeded(m.val.members), doc, e)
    else if Wraps(m) then
      var docs, sub := Asked(m, doc, e), m.val.members[IndexOf(m.val.members, SubKey(m.key))];
      exists k :: 0 <= k < |docs| && SubHolds(sub, docs[k], e)
    else e.leaf(m.key, m.val, doc)
  }

  /** The wrapped query; a list matches what any of its queries matches. */
  predicate SubHolds(sub: Member, doc: int, e: Engine)
    decreases sub
  {
    match sub.val
    case JArr(items) => CountHolding(items, doc, e) > 0
    case _ => Holds(sub.val, doc, e)
  }

  function Find(ms: seq<Member>, key: string): Option<Json> {
    if ms == [] then None
    else if ms[0].key == key then Some(ms[0].val)
    else Find(ms[1..], key)
  }

  /** Present, and not an empty list. */
  predicate Given(v: Option<Json>) {
    v.Some? && v.value != JArr([]) && v.value != JNull
  }

  /** minimum_should_match as a number, or the default. */
  function ShouldNeeded(ms: seq<Member>): int {
    match Find(ms, "minimum_should_match")
    case Some(JNum(n)) => (match IntValue(n) case Some(k) => k case None => 0)
    case _ => if Given(Find(ms, "should")) && !Given(Find(ms, "must")) && !Given(Find(ms, "filter")) then 1 else 0
  }

  /** One occurrence list of a bool query; a lone object counts as a list of
      one. */
  predicate OccurHolds(m: Member, needed: int, doc: int, e: Engine)
    decreases m
  {
    match m.val
    case JArr(items) =>
      if m.key == "must" || m.key == "filter" then CountHolding(items, doc, e) == |items|
      else if m.key == "must_not" then CountHolding(items, doc, e) == 0
      else if m.key == "should" then CountHolding(items, doc, e) >= needed
      else true
    case JObj(_) =>
      if m.key == "must" || m.key == "filter" then Holds(m.val, doc, e)
      else if m.key == "must_not" then !Holds(m.val, doc, e)
      else if m.key == "should" then (if Holds(m.val, doc, e) then 1 else 0) >= needed
      else true
    case _ => true
  }

  function CountHolding(qs: seq<Json>, doc: int, e: Engine): nat {
    if qs == [] then 0
    else (if Holds(qs[0], doc, e) then 1 else 0) + CountHolding(qs[1..], doc, e)
  }

  // ---- which bounds are kept ---------------------------------------------------

  /** The two parsers and the engine read the string alike; one the parsers do not
      know must be no bound to the engine either. */
  predicate BoundKept(v: Json, c: Clocks, e: Engine) {
    v.JStr? ==> e.text(v.text) == match ToEpochMs(v.text, c) case Some(ms) => At(ms) case None => Open
  }

  /** Options such as format are rewritten like bounds: none may be a string. */
  predicate EntryKept(m: Member, c: Clocks, e: Engine) {
    if IsBound(m.key) then BoundKept(m.val, c, e) else !m.val.JStr?
  }

  predicate FieldsKept(fields: seq<Member>, c: Clocks, e: Engine) {
    forall i :: 0 <= i < |fields| && IsTimestamp(fields[i]) ==>
      forall k :: 0 <= k < |fields[i].val.members| ==> EntryKept(fields[i].val.members[k], c, e)
  }

  /** Every timestamp range, at any depth, has only such entries. */
  predicate Kept(j: Json, c: Clocks, e: Engine) {
    match j
    case JArr(items) => forall i :: 0 <= i < |items| ==> Kept(items[i], c, e)
    case JObj(ms) => forall i :: 0 <= i < |ms| ==>
        if IsRange(ms[i]) then FieldsKept(ms[i].val.members, c, e) else Kept(ms[i].val, c, e)
    case _ => true
  }

  /** A clause that is not compound here may still hold queries: where all their
      bounds are kept, it matches the same documents. */
  ghost predicate ReadsByValue(c: Clocks, e: Engine) {
    forall key, v, doc :: Kept(v, c, e) ==> e.leaf(key, Rewrite(v, c), doc) == e.leaf(key, v, doc)
  }

  lemma BoundReadsTheSameIff(v: Json, c: Clocks, e: Engine)
    ensures ReadBound(RewriteBound(v, c), e) == ReadBound(v, e) <==> BoundKept(v, c, e)
  {
    if v.JStr? {
      var ms := ToEpochMs(v.text, c);
      if ms.Some? {
        IntValueRoundTrip(ms.value);
      }
    }
  }

  /** To an engine that reads a numeral as milliseconds, a numeral is kept iff it
      is at least a million million, or zero. */
  lemma NumeralKeptIff(ms: int, c: Clocks, e: Engine)
    requires c.float(IntText(ms)) == Some(ms as real) && e.text(IntText(ms)) == At(ms)
    ensures BoundKept(JStr(IntText(ms)), c, e) <==> ms >= 1000000000000 || ms == 0
  {
    MillisecondsKeptIff(ms);
    hide IntText, FromNumber;
  }

  /** To an engine that reads a numeral of seconds as that instant, the bound is kept
      iff it is below a million million. */
  lemma SecondsKeptIff(seconds: int, c: Clocks, e: Engine)
    requires c.float(IntText(seconds)) == Some(seconds as real) && e.text(IntText(seconds)) == At(1000 * seconds)
    ensures BoundKept(JStr(IntText(seconds)), c, e) <==> seconds < 1000000000000
  {
    if seconds < 1000000000000 {
      SecondsBecomeMilliseconds(seconds);
    } else {
      MillisecondsKeptIff(seconds);
    }
    hide IntText, FromNumber;
  }

  /** A date in one of the five formats is kept iff the engine reads it as the same
      instant, and text neither parser knows iff it is no bound to the engine. */
  lemma DateKeptIff(text: string, c: Clocks, e: Engine)
    requires c.float(text).None?
    ensures BoundKept(JStr(text), c, e)
       <==> if c.date(text).Some? then e.text(text) == At(c.date(text).value) else e.text(text) == Open
  {
  }

  // ---- the rewriting keeps the meaning -----------------------------------------

  lemma BoundsKeepMeaning(bounds: seq<Member>, ts: int, c: Clocks, e: Engine)
    requires forall k :: 0 <= k < |bounds| ==> EntryKept(bounds[k], c, e)
    ensures AllWithin(RewriteBounds(bounds, c), ts, e) <==> AllWithin(bounds, ts, e)
  {
    hide RewriteBounds, ReadBound, BoundKept;
    var r := RewriteBounds(bounds, c);
    forall k | 0 <= k < |bounds| ensures Within(r[k], ts, e) <==> Within(bounds[k], ts, e) {
      BoundReadsTheSameIff(bounds[k].val, c, e);
    }
    hide Within;
    assert forall k :: 0 <= k < |bounds| ==> (Within(r[k], ts, e) <==> Within(bounds[k], ts, e));
  }

  lemma FieldsKeepMeaning(fields: seq<Member>, doc: int, c: Clocks, e: Engine)
    requires FieldsKept(fields, c, e)
    ensures AllFields(RewriteFields(fields, c), doc, e) <==> AllFields(fields, doc, e)
  {
    hide RewriteFields, RewriteBounds, EntryKept, AllWithin;
    var r := RewriteFields(fields, c);
    forall i | 0 <= i < |fields| ensures FieldHolds(r[i], doc, e) <==> FieldHolds(fields[i], doc, e) {
      if IsTimestamp(fields[i]) {
        BoundsKeepMeaning(fields[i].val.members, e.time(doc), c, e);
      }
    }
    hide FieldHolds, FieldsKept;
    assert forall i :: 0 <= i < |fields| ==> (FieldHolds(r[i], doc, e) <==> FieldHolds(fields[i], doc, e));
  }

  lemma {:induction false} FindRewritten(ms: seq<Member>, key: string, c: Clocks)
    requires key != "range"
    ensures Find(RewriteMembers(ms, c), key)
         == match Find(ms, key) case Some(v) => Some(Rewrite(v, c)) case None => None
    ensures IndexOf(RewriteMembers(ms, c), key) == IndexOf(ms, key)
  {
    hide Rewrite, RewriteFields;
    if ms != [] {
      FindRewritten(ms[1..], key, c);
      assert RewriteMembers(ms, c)[1..] == RewriteMembers(ms[1..], c);
    }
  }

  lemma GivenRewritten(ms: seq<Member>, key: string, c: Clocks)
    requires key != "range"
    ensures Given(Find(RewriteMembers(ms, c), key)) == Given(Find(ms, key))
  {
    FindRewritten(ms, key, c);
    hide Find, IndexOf, RewriteMembers;
  }

  lemma NeededRewritten(ms: seq<Member>, c: Clocks)
    ensures ShouldNeeded(RewriteMembers(ms, c)) == ShouldNeeded(ms)
    ensures Find(RewriteMembers(ms, c), "should").Some? == Find(ms, "should").Some?
  {
    hide RewriteMembers, Find, IndexOf, Given;
    GivenRewritten(ms, "should", c);
    GivenRewritten(ms, "must", c);
    GivenRewritten(ms, "filter", c);
    FindRewritten(ms, "should", c);
    FindRewritten(ms, "minimum_should_match", c);
    hide RewriteItems;
  }

  /** If the parsers and the engine agree on every bound of a timestamp range, the
      rewritten query matches the same documents. */
  lemma {:induction false} QueryKeepsMeaning(q: Json, doc: int, c: Clocks, e: Engine)
    requires Kept(q, c, e) && ReadsByValue(c, e)
    ensures Holds(Rewrite(q, c), doc, e) <==> Holds(q, doc, e)
    decreases q, 1
  {
    if q.JObj? {
      var ms, r := q.members, RewriteMembers(q.members, c);
      forall i | 0 <= i < |ms| ensures ClauseHolds(r[i], doc, e) <==> ClauseHolds(ms[i], doc, e) {
        if IsRange(ms[i]) {
          RangeKeepsMeaning(ms[i], doc, c, e);
        } else {
          ClauseKeepsMeaning(ms[i], doc, c, e);
        }
      }
      hide *;
      assert Holds(q, doc, e) <==> forall i :: 0 <= i < |ms| ==> ClauseHolds(ms[i], doc, e);
    }
  }

  lemma RangeKeepsMeaning(m: Member, doc: int, c: Clocks, e: Engine)
    requires IsRange(m) && FieldsKept(m.val.members, c, e)
    ensures ClauseHolds(Member(m.key, JObj(RewriteFields(m.val.members, c))), doc, e) <==> ClauseHolds(m, doc, e)
  {
    FieldsKeepMeaning(m.val.members, doc, c, e);
    hide RewriteFields, FieldHolds, FieldsKept;
  }

  lemma {:induction false} ClauseKeepsMeaning(m: Member, doc: int, c: Clocks, e: Engine)
    requires !IsRange(m) && Kept(m.val, c, e) && ReadsByValue(c, e)
    ensures ClauseHolds(Member(m.key, Rewrite(m.val, c)), doc, e) <==> ClauseHolds(m, doc, e)
    decreases m, 1
  {
    if m.key == "bool" && m.val.JObj? {
      BoolKeepsMeaning(m, doc, c, e);
    } else if Wraps(m) {
      WrapperKeepsMeaning(m, doc, c, e);
    } else {
      WrapsRewritten(m, c);
    }
  }

  lemma WrapsRewritten(m: Member, c: Clocks)
    requires !IsRange(m)
    ensures Wraps(Member(m.key, Rewrite(m.val, c))) <==> Wraps(m)
  {
    if m.val.JObj? && SubKey(m.key) != "" {
      FindRewritten(m.val.members, SubKey(m.key), c);
      FindRewritten(m.val.members, "min_score", c);
    }
  }

  lemma AskedRewritten(m: Member, doc: int, c: Clocks, e: Engine)
    requires m.val.JObj?
    ensures Asked(Member(m.key, Rewrite(m.val, c)), doc, e) == Asked(m, doc, e)
  {
    FindRewritten(m.val.members, "path", c);
  }

  lemma {:induction false} WrapperKeepsMeaning(m: Member, doc: int, c: Clocks, e: Engine)
    requires Wraps(m) && m.key != "bool" && Kept(m.val, c, e) && ReadsByValue(c, e)
    ensures ClauseHolds(Member(m.key, Rewrite(m.val, c)), doc, e) <==> ClauseHolds(m, doc, e)
    decreases m, 0
  {
    var ms, m' := m.val.members, Member(m.key, Rewrite(m.val, c));
    var i := IndexOf(ms, SubKey(m.key));
    WrapsRewritten(m, c);
    AskedRewritten(m, doc, c, e);
    FindRewritten(ms, SubKey(m.key), c);
    var docs := Asked(m, doc, e);
    assert m'.val.members[i] == Member(ms[i].key, Rewrite(ms[i].val, c));
    hide Rewrite, IndexOf, Asked, Find, ReadsByValue, SubHolds, Wraps;
    forall k | 0 <= k < |docs|
      ensures SubHolds(Member(ms[i].key, Rewrite(ms[i].val, c)), docs[k], e) <==> SubHolds(ms[i], docs[k], e)
    {
      SubKeepsMeaning(ms[i], docs[k], c, e);
    }
    hide Kept;
  }

  lemma {:induction false} SubKeepsMeaning(sub: Member, doc: int, c: Clocks, e: Engine)
    requires Kept(sub.val, c, e) && ReadsByValue(c, e)
    ensures SubHolds(Member(sub.key, Rewrite(sub.val, c)), doc, e) <==> SubHolds(sub, doc, e)
    decreases sub, 0
  {
    match sub.val
    case JArr(items) =>
      CountKeepsMeaning(items, doc, c, e);
    case _ =>
      QueryKeepsMeaning(sub.val, doc, c, e);
  }

  predicate AllOccur(ms: seq<Member>, needed: int, doc: int, e: Engine) {
    forall i :: 0 <= i < |ms| ==> OccurHolds(ms[i], needed, doc, e)
  }

  lemma BoolHolds(ms: seq<Member>, doc: int, e: Engine)
    ensures ClauseHolds(Member("bool", JObj(ms)), doc, e)
       <==> (Find(ms, "should").Some? || ShouldNeeded(ms) <= 0) && AllOccur(ms, ShouldNeeded(ms), doc, e)
  {
    hide OccurHolds, ShouldNeeded, Find, Wraps;
  }

  lemma {:induction false} BoolKeepsMeaning(m: Member, doc: int, c: Clocks, e: Engine)
    requires m.key == "bool" && m.val.JObj? && Kept(m.val, c, e) && ReadsByValue(c, e)
    ensures ClauseHolds(Member(m.key, JObj(RewriteMembers(m.val.members, c))), doc, e) <==> ClauseHolds(m, doc, e)
    decreases m, 0
  {
    var ms, r := m.val.members, RewriteMembers(m.val.members, c);
    hide ClauseHolds, RewriteMembers, ShouldNeeded, Find, ReadsByValue, OccurHolds, Rewrite;
    NeededRewritten(ms, c);
    BoolHolds(ms, doc, e);
    BoolHolds(r, doc, e);
    var needed := ShouldNeeded(ms);
    forall i | 0 <= i < |ms| ensures OccurHolds(r[i], needed, doc, e) <==> OccurHolds(ms[i], needed, doc, e) {
      if IsRange(ms[i]) {
        NoOccurrence(ms[i], r[i], needed, doc, e);
      } else {
        OccurKeepsMeaning(ms[i], needed, doc, c, e);
      }
    }
    hide Kept;
  }

  /** A range is not an occurrence list. */
  lemma NoOccurrence(m: Member, n: Member, needed: int, doc: int, e: Engine)
    requires m.key == n.key == "range" && m.val.JObj? && n.val.JObj?
    ensures OccurHolds(m, needed, doc, e) <==> OccurHolds(n, needed, doc, e)
  {
  }

  lemma {:induction false} OccurKeepsMeaning(m: Member, needed: int, doc: int, c: Clocks, e: Engine)
    requires Kept(m.val, c, e) && ReadsByValue(c, e)
    ensures OccurHolds(Member(m.key, Rewrite(m.val, c)), needed, doc, e) <==> OccurHolds(m, needed, doc, e)
    decreases m, 0
  {
    match m.val
    case JArr(items) =>
      CountKeepsMeaning(items, doc, c, e);
    case JObj(_) =>
      QueryKeepsMeaning(m.val, doc, c, e);
    case _ =>
  }

  lemma {:induction false} CountKeepsMeaning(items: seq<Json>, doc: int, c: Clocks, e: Engine)
    requires ReadsByValue(c, e) && forall i :: 0 <= i < |items| ==> Kept(items[i], c, e)
    ensures CountHolding(RewriteItems(items, c), doc, e) == CountHolding(items, doc, e)
    decreases items, 0
  {
    if items != [] {
      QueryKeepsMeaning(items[0], doc, c, e);
      CountKeepsMeaning(items[1..], doc, c, e);
      hide Holds, Kept, Rewrite, ReadsByValue;
      assert RewriteItems(items, c)[1..] == RewriteItems(items[1..], c);
    }
  }

  // ---- what the assumption on other clauses admits --------------------------------

  /** The engine whose other clauses each ask the query they hold. */
  function Asking(e: Engine): Engine {
    e.(leaf := (key: string, v: Json, doc: int) => Holds(v, doc, e))
  }

  lemma {:induction false} KeptByText(j: Json, c: Clocks, e: Engine, f: Engine)
    requires e.text == f.text
    ensures Kept(j, c, e) <==> Kept(j, c, f)
    decreases j
  {
    match j
    case JArr(items) =>
      forall i | 0 <= i < |items| ensures Kept(items[i], c, e) <==> Kept(items[i], c, f) {
        KeptByText(items[i], c, e, f);
      }
    case JObj(ms) =>
      forall i | 0 <= i < |ms|
        ensures (if IsRange(ms[i]) then FieldsKept(ms[i].val.members, c, e) else Kept(ms[i].val, c, e))
             == (if IsRange(ms[i]) then FieldsKept(ms[i].val.members, c, f) else Kept(ms[i].val, c, f))
      {
        if !IsRange(ms[i]) {
          KeptByText(ms[i].val, c, e, f);
        }
      }
    case _ =>
  }

  /** Clauses that ask queries of their own, date arithmetic and all, meet the
      assumption, to any depth. */
  lemma AskingReadsByValue(c: Clocks, e: Engine)
    requires ReadsByValue(c, e)
    ensures ReadsByValue(c, Asking(e))
  {
    var f := Asking(e);
    forall key, v, doc | Kept(v, c, f) ensures f.leaf(key, Rewrite(v, c), doc) == f.leaf(key, v, doc) {
      KeptByText(v, c, e, f);
      QueryKeepsMeaning(v, doc, c, e);
      hide *;
    }
  }

  // ---- one bound: exactly when it is kept ----------------------------------------

  function RangeOf(key: string, bound: Json): Json {
    JObj([Member("range", JObj([Member("timestamp", JObj([Member(key, bound)]))]))])
  }

  /** Two queries match the same documents of the engine with its clock replaced:
      documents of every time. */
  predicate SameMatch(a: Json, b: Json, doc: int, e: Engine) {
    Holds(a, doc, e.(time := x => x)) <==> Holds(b, doc, e.(time := x => x))
  }

  /** A document on which two different readings of a bound part. */
  function Parting(key: string, r: Reading, s: Reading): int {
    match (r, s)
    case (At(a), At(b)) =>
      var low, high := if a < b then a else b, if a < b then b else a;
      if key == "gte" || key == "lt" then low else high
    case (At(a), Rejected) => Inside(key, a)
    case (Rejected, At(a)) => Inside(key, a)
    case (At(a), Open) => Outside(key, a)
    case (Open, At(a)) => Outside(key, a)
    case _ => 0
  }

  function Inside(key: string, ms: int): int {
    if key == "gt" then ms + 1 else if key == "lt" then ms - 1 else ms
  }

  function Outside(key: string, ms: int): int {
    if key == "gte" then ms - 1 else if key == "lte" then ms + 1 else ms
  }

  lemma ReadingsPart(key: string, r: Reading, s: Reading)
    requires IsBound(key) && r != s
    ensures Satisfies(key, r, Parting(key, r, s)) != Satisfies(key, s, Parting(key, r, s))
  {
  }

  /** A range with one bound, lower or upper, strict or not, keeps its matches
      exactly when the parsers and the engine read the bound alike; an unknown one,
      such as date arithmetic, becomes null and stops bounding. */
  lemma OneBoundKeptIff(key: string, v: Json, c: Clocks, e: Engine)
    requires IsBound(key)
    ensures (forall doc :: SameMatch(Rewrite(RangeOf(key, v), c), RangeOf(key, v), doc, e)) <==> BoundKept(v, c, e)
  {
    var q, r, s := RangeOf(key, v), ReadBound(RewriteBound(v, c), e), ReadBound(v, e);
    RangeOfRewritten(key, v, c);
    BoundReadsTheSameIff(v, c, e);
    hide BoundKept, RewriteBound, Rewrite;
    forall doc ensures SameMatch(Rewrite(q, c), q, doc, e) <==> (Satisfies(key, r, doc) <==> Satisfies(key, s, doc)) {
      var e' := e.(time := x => x);
      RangeOfHolds(key, v, doc, e');
      RangeOfHolds(key, RewriteBound(v, c), doc, e');
      assert ReadBound(v, e') == s && ReadBound(RewriteBound(v, c), e') == r;
      hide ReadBound, Holds;
    }
    hide SameMatch, RangeOf;
    if r != s {
      ReadingsPart(key, r, s);
      assert !SameMatch(Rewrite(q, c), q, Parting(key, r, s), e);
    }
  }

  lemma RangeOfRewritten(key: string, v: Json, c: Clocks)
    ensures Rewrite(RangeOf(key, v), c) == RangeOf(key, RewriteBound(v, c))
  {
    var bounds := [Member(key, v)];
    assert RewriteBounds(bounds, c) == [Member(key, RewriteBound(v, c))];
    var fields := [Member("timestamp", JObj(bounds))];
    assert RewriteFields(fields, c) == [Member("timestamp", JObj(RewriteBounds(bounds, c)))];
    var ms := [Member("range", JObj(fields))];
    assert RewriteMembers(ms, c) == [Member("range", JObj(RewriteFields(fields, c)))];
  }

  lemma RangeOfHolds(key: string, v: Json, doc: int, e: Engine)
    requires IsBound(key)
    ensures Holds(RangeOf(key, v), doc, e) <==> Satisfies(key, ReadBound(v, e), e.time(doc))
  {
    hide Satisfies, ReadBound;
    var bounds := [Member(key, v)];
    assert AllWithin(bounds, e.time(doc), e) <==> Within(bounds[0], e.time(doc), e);
    var fields := [Member("timestamp", JObj(bounds))];
    assert AllFields(fields, doc, e) <==> FieldHolds(fields[0], doc, e);
    var ms := [Member("range", JObj(fields))];
    assert Holds(JObj(ms), doc, e) <==> ClauseHolds(ms[0], doc, e);
  }
}
