/** Operator filter rules spliced into searches as exclusions, and the table that
    holds them (log_filters.py). */
module LogFilters {
  import opened Wrappers
  import opened Text
  import opened Decimal
  import opened Glob
  import opened Query

  datatype Rule = Rule(
    id: nat,
    name: string,
    enabled: bool,
    scope: string,
    field: string,
    op: string,
    value: string,
    reason: string,
    createdBy: string,
    createdAt: int,
    updatedAt: int,
    matchCount: nat)

  const VALID_OPS: set<string> := {"equals", "contains", "in", "regex"}
  const VALID_SCOPES: set<string> := {"events", "alerts", "both"}

  predicate Valid(name: string, scope: string, field: string, op: string, value: string) {
    Strip(name) != "" && scope in VALID_SCOPES && Strip(field) != "" && op in VALID_OPS && value != ""
  }

  predicate ValidRule(r: Rule) {
    Valid(r.name, r.scope, r.field, r.op, r.value)
  }

  // ---- one rule --------------------------------------------------------------

  /** The non-empty stripped parts of a comma-separated list. */
  function ListParts(parts: seq<string>): seq<string> {
    if parts == [] then []
    else (if Strip(parts[0]) != "" then [Strip(parts[0])] else []) + ListParts(parts[1..])
  }

  function RuleToClause(r: Rule): Option<Query> {
    if r.op == "equals" then
      match PyInt(r.value)
      case Some(n) => Some(Bool([], [Term(r.field, Num(n)), Term(r.field, Str(IntText(n)))], [], Absent, Some(1)))
      case None => Some(Term(r.field, Str(r.value)))
    else if r.op == "contains" then Some(Wildcard(r.field, "*" + r.value + "*"))
    else if r.op == "in" then
      var parts := ListParts(Split(r.value, ','));
      if parts == [] then None else Some(Terms(r.field, parts))
    else if r.op == "regex" then Some(Regexp(r.field, r.value))
    else None
  }

  /** The documents the rule's clause excludes. */
  predicate Hits(r: Rule, d: Doc, e: Engine) {
    RuleToClause(r).Some? && Eval(RuleToClause(r).value, d, e)
  }

  /** A value that reads as an integer excludes that number and its plain
      spelling; any other value excludes exactly its own text, or the number a
      numeric field makes of it. */
  lemma EqualsHitsIff(r: Rule, d: Doc, e: Engine)
    requires r.op == "equals"
    ensures Hits(r, d, e)
       <==> match PyInt(r.value)
            case Some(n) => AnyTerm(Values(d, r.field), Num(n)) || AnyTerm(Values(d, r.field), Str(IntText(n)))
            case None => AnyTerm(Values(d, r.field), Str(r.value))
  {
    hide AnyTerm, PyInt, IntText;
    var clause := RuleToClause(r).value;
    if PyInt(r.value).Some? {
      assert clause.should[1..] == [clause.should[1]] && clause.should[1..][1..] == [];
      assert CountTrue(clause.should, d, e)
          == (if Eval(clause.should[0], d, e) then 1 else 0) + CountTrue(clause.should[1..], d, e);
      assert CountTrue(clause.should[1..], d, e)
          == (if Eval(clause.should[1], d, e) then 1 else 0) + CountTrue(clause.should[1..][1..], d, e);
    }
  }

  /** So a rule does not exclude the very text it names when that is a numeral in
      another spelling: "007" excludes "7". */
  lemma EqualsExcludesItsTextIff(r: Rule, d: Doc, e: Engine)
    requires r.op == "equals" && Values(d, r.field) == [Str(r.value)]
    ensures Hits(r, d, e) <==> PyInt(r.value).None? || r.value == IntText(PyInt(r.value).value)
  {
    EqualsHitsIff(r, d, e);
    hide *;
    OneText(r.value, if PyInt(r.value).Some? then PyInt(r.value).value else 0, r.value);
    if PyInt(r.value).Some? {
      OneText(r.value, 0, IntText(PyInt(r.value).value));
    }
  }

  lemma OneText(v: string, k: int, t: string)
    ensures AnyTerm([Str(v)], Num(k)) <==> v == IntText(k)
    ensures AnyTerm([Str(v)], Str(t)) <==> v == t
  {
    TermMatchesIff(Str(v), k, t);
    assert [Str(v)][0] == Str(v);
    hide TermMatches, IntValue, IntText;
  }

  /** And excludes a stored number iff it reads as that number, in whatever spelling. */
  lemma EqualsExcludesNumberIff(r: Rule, d: Doc, e: Engine, n: int)
    requires r.op == "equals" && Values(d, r.field) == [Num(n)]
    ensures Hits(r, d, e) <==> PyInt(r.value) == Some(n)
  {
    EqualsHitsIff(r, d, e);
    hide *;
    if PyInt(r.value).Some? {
      var k := PyInt(r.value).value;
      OneNumber(n, k, IntText(k));
      IntValueRoundTrip(k);
    } else {
      OneNumber(n, n, r.value);
      NumeralsArePyInts(r.value);
    }
  }

  lemma OneNumber(n: int, k: int, t: string)
    ensures AnyTerm([Num(n)], Num(k)) <==> n == k
    ensures AnyTerm([Num(n)], Str(t)) <==> IntValue(t) == Some(n)
  {
    TermMatchesIff(Num(n), k, t);
    assert [Num(n)][0] == Num(n);
    hide TermMatches, IntValue, IntText;
  }

  /** A contains rule excludes exactly the documents with the value inside some
      text of the field, for every document, iff the value has no wildcard
      character. */
  lemma ContainsMeansSubstringIff(r: Rule, e: Engine)
    requires r.op == "contains"
    ensures (forall d: Doc :: Hits(r, d, e) <==> HasSubstring(d, r.field, r.value)) <==> Plain(r.value)
  {
    hide Matches, Tokens, Contains;
    WrappedMeansContainsIff(r.value);
    if Plain(r.value) {
      forall d: Doc ensures Hits(r, d, e) <==> HasSubstring(d, r.field, r.value) {
        assert forall s :: Found(r.value, s) <==> Contains(s, r.value);
        ContainsHits(r, d, e);
      }
    } else {
      var s :| !(Found(r.value, s) <==> Contains(s, r.value));
      var d: Doc := map[r.field := [Str(s)]];
      ContainsHits(r, d, e);
      var stored := Values(d, r.field);
      assert stored[0] == Str(s);
      assert HasSubstring(d, r.field, r.value) <==> Contains(s, r.value);
      assert (exists i :: 0 <= i < |stored| && stored[i].Str? && Found(r.value, stored[i].s)) <==> Found(r.value, s);
    }
  }

  ghost predicate HasSubstring(d: Doc, field: string, value: string) {
    exists i :: 0 <= i < |Values(d, field)| && Values(d, field)[i].Str? && Contains(Values(d, field)[i].s, value)
  }

  lemma ContainsHits(r: Rule, d: Doc, e: Engine)
    requires r.op == "contains"
    ensures Hits(r, d, e)
       <==> exists i :: 0 <= i < |Values(d, r.field)| && Values(d, r.field)[i].Str? && Found(r.value, Values(d, r.field)[i].s)
  {
    hide Matches, Tokens;
    var stored, f := Values(d, r.field), s => Matches(Tokens("*" + r.value + "*"), s);
    assert Hits(r, d, e) <==> AnyText(stored, f);
    assert forall i :: 0 <= i < |stored| && stored[i].Str? ==> (f(stored[i].s) <==> Found(r.value, stored[i].s));
  }

  function Join(vs: seq<string>): string {
    if vs == [] then ""
    else if |vs| == 1 then vs[0]
    else vs[0] + "," + Join(vs[1..])
  }

  predicate CleanItem(v: string) {
    v != "" && Stripped(v) && ',' !in v
  }

  /** A comma-joined list of clean items reads back as those items. */
  lemma {:induction false} ListRoundTrip(vs: seq<string>)
    requires vs != [] && forall i :: 0 <= i < |vs| ==> CleanItem(vs[i])
    ensures ListParts(Split(Join(vs), ',')) == vs
  {
    StripIsIdentity(vs[0]);
    if |vs| == 1 {
      assert Split(Join(vs), ',') == [vs[0]];
      assert [vs[0]][1..] == [];
    } else {
      ListRoundTrip(vs[1..]);
      var s, rest := Join(vs), Join(vs[1..]);
      assert s == vs[0] + [','] + rest;
      BeforeOfSum(vs[0], ',', rest);
      assert s[|vs[0]|] == ',';
      assert s[|vs[0]| + 1..] == rest;
      assert Split(s, ',') == [vs[0]] + Split(rest, ',');
      assert ([vs[0]] + Split(rest, ','))[1..] == Split(rest, ',');
      assert [vs[0]] + vs[1..] == vs;
    }
  }

  /** What stands in the list: each part stripped, none of them empty. */
  lemma {:induction false} ListPartsHold(parts: seq<string>, x: string)
    ensures x in ListParts(parts) <==> x != "" && exists i :: 0 <= i < |parts| && Strip(parts[i]) == x
  {
    hide Strip;
    if parts != [] {
      var rest := parts[1..];
      ListPartsHold(rest, x);
      assert forall i :: 0 <= i < |rest| ==> rest[i] == parts[i + 1];
      if i :| 0 <= i < |parts| && Strip(parts[i]) == x {
        assert i == 0 || Strip(rest[i - 1]) == x;
      }
    }
  }

  /** Some value of the field is one of the items, as text or as the number a numeric
      field makes of it. */
  predicate HoldsOneOf(stored: seq<Val>, items: seq<string>) {
    exists i :: 0 <= i < |items| && AnyTerm(stored, Str(items[i]))
  }

  lemma InHitsParts(r: Rule, d: Doc, e: Engine)
    requires r.op == "in"
    ensures Hits(r, d, e) <==> HoldsOneOf(Values(d, r.field), ListParts(Split(r.value, ',')))
  {
    hide Split, ListParts, AnyTerm, Values;
  }

  /** An in rule excludes exactly the documents whose field holds one of the listed
      items. */
  lemma InHitsIff(r: Rule, d: Doc, e: Engine)
    requires r.op == "in"
    ensures Hits(r, d, e)
       <==> exists i :: 0 <= i < |Split(r.value, ',')|
                        && Strip(Split(r.value, ',')[i]) != "" && AnyTerm(Values(d, r.field), Str(Strip(Split(r.value, ',')[i])))
  {
    var parts, stored := Split(r.value, ','), Values(d, r.field);
    var items := ListParts(parts);
    InHitsParts(r, d, e);
    hide Strip, Split, ListParts, AnyTerm, Hits, Values;
    if i :| 0 <= i < |items| && AnyTerm(stored, Str(items[i])) {
      assert items[i] in items;
      ListPartsHold(parts, items[i]);
    }
    if i :| 0 <= i < |parts| && Strip(parts[i]) != "" && AnyTerm(stored, Str(Strip(parts[i]))) {
      ListPartsHold(parts, Strip(parts[i]));
      var k :| 0 <= k < |items| && items[k] == Strip(parts[i]);
      assert AnyTerm(stored, Str(items[k]));
    }
  }

  /** So a rule made of clean items excludes a document iff its field holds one. */
  lemma JoinedInHitsIff(r: Rule, vs: seq<string>, d: Doc, e: Engine)
    requires r.op == "in" && vs != [] && r.value == Join(vs) && forall i :: 0 <= i < |vs| ==> CleanItem(vs[i])
    ensures Hits(r, d, e) <==> HoldsOneOf(Values(d, r.field), vs)
  {
    hide *;
    ListRoundTrip(vs);
    InHitsParts(r, d, e);
  }

  /** A regex rule excludes the documents with a text of the field that the engine's
      matcher accepts, and a rule of any other operator none. */
  lemma RegexHitsIff(r: Rule, d: Doc, e: Engine)
    requires r.op == "regex" || r.op !in VALID_OPS
    ensures Hits(r, d, e)
       <==> && r.op == "regex"
            && exists i :: 0 <= i < |Values(d, r.field)| && Values(d, r.field)[i].Str?
                           && e.regexp(r.value, Values(d, r.field)[i].s)
  {
    var stored, f := Values(d, r.field), s => e.regexp(r.value, s);
    if r.op == "regex" {
      assert Hits(r, d, e) <==> AnyText(stored, f);
      assert forall i :: 0 <= i < |stored| && stored[i].Str? ==> f(stored[i].s) == e.regexp(r.value, stored[i].s);
    }
  }

  /** The operators a rule may have are those a clause is made for, and a valid rule has
      a clause unless it lists nothing but blanks. */
  lemma ValidRulesHaveClauses(r: Rule)
    ensures r.op in VALID_OPS <==> exists v :: RuleToClause(r.(value := v)).Some?
    ensures ValidRule(r) ==>
              (RuleToClause(r).None? <==> r.op == "in" && forall x :: x in Split(r.value, ',') ==> Strip(x) == "")
  {
    if r.op in VALID_OPS {
      assert Split("x", ',') == ["x"] && ["x"][1..] == [];
      assert Stripped("x");
      StripIsIdentity("x");
      assert ListParts(["x"]) == ["x"];
      assert RuleToClause(r.(value := "x")).Some?;
    }
    BlankListIff(Split(r.value, ','));
    hide Split, Strip, PyInt, ListParts;
  }

  lemma {:induction false} BlankListIff(parts: seq<string>)
    ensures ListParts(parts) == [] <==> forall x :: x in parts ==> Strip(x) == ""
  {
    hide Strip;
    if parts != [] {
      BlankListIff(parts[1..]);
      assert parts == [parts[0]] + parts[1..];
    }
  }

  // ---- splicing --------------------------------------------------------------

  predicate Listed(r: Rule, scope: string, onlyEnabled: bool) {
    (onlyEnabled ==> r.enabled) && (scope == "" || scope == "both" || r.scope == scope || r.scope == "both")
  }

  /** list_rules: newest first. */
  function ListOf(rows: seq<Rule>, scope: string, onlyEnabled: bool): (out: seq<Rule>)
    ensures forall r :: r in out <==> r in rows && Listed(r, scope, onlyEnabled)
  {
    if rows == [] then []
    else
      var n := |rows| - 1;
      (if Listed(rows[n], scope, onlyEnabled) then [rows[n]] else []) + ListOf(rows[..n], scope, onlyEnabled)
  }

  /** Searches of events see the enabled rules for events and those for both, searches
      of alerts likewise; a disabled rule is in none of them. */
  lemma ScopesDivide(r: Rule)
    requires r.scope in {"events", "alerts", "both"}
    ensures Listed(r, "events", true) <==> r.enabled && r.scope != "alerts"
    ensures Listed(r, "alerts", true) <==> r.enabled && r.scope != "events"
    ensures Listed(r, "both", false) && Listed(r, "", false)
  {
  }

  function Clauses(rules: seq<Rule>): seq<Query> {
    if rules == [] then []
    else
      var c := RuleToClause(rules[|rules| - 1]);
      Clauses(rules[..|rules| - 1]) + (if c.Some? then [c.value] else [])
  }

  function BuildExcludes(rows: seq<Rule>, scope: string): seq<Query> {
    Clauses(ListOf(rows, scope, true))
  }

  /** Some enabled rule in scope hits the document. */
  predicate Suppressed(rows: seq<Rule>, scope: string, d: Doc, e: Engine) {
    exists r :: r in rows && Listed(r, scope, true) && Hits(r, d, e)
  }

  datatype Failure = TypeError | ValueError

  /** apply_to_body. A must_not that is one object cannot be added to a list. */
  function Splice(query: Option<Query>, excludes: seq<Query>): Result<Option<Query>, Failure> {
    if excludes == [] then Ok(query)
    else
      match query
      case None => Ok(Some(Bool([], [], [], Many(excludes), None)))
      case Some(Bool(must, should, filters, mustNot, minShould)) =>
        (match mustNot
         case Absent => Ok(Some(Bool(must, should, filters, Many(excludes), minShould)))
         case Many(qs) => Ok(Some(Bool(must, should, filters, Many(qs + excludes), minShould)))
         case Single(_) => Err(TypeError))
      case Some(q) => Ok(Some(Bool([q], [], [], Many(excludes), None)))
  }

  predicate SingleMustNot(query: Option<Query>) {
    query.Some? && query.value.Bool? && query.value.mustNot.Single?
  }

  lemma CountOfSum(a: seq<Query>, b: seq<Query>, d: Doc, e: Engine)
    ensures CountTrue(a + b, d, e) == CountTrue(a, d, e) + CountTrue(b, d, e)
  {
    hide Eval;
    if a == [] {
      assert a + b == b;
    } else {
      assert (a + b)[1..] == a[1..] + b;
      CountOfSum(a[1..], b, d, e);
    }
  }

  lemma CountOfOne(q: Query, d: Doc, e: Engine)
    ensures CountTrue([q], d, e) == if Eval(q, d, e) then 1 else 0
  {
    hide Eval;
    assert [q][1..] == [];
  }

  /** Excluding more from a bool query. */
  lemma BoolExcludes(q: Query, excludes: seq<Query>, d: Doc, e: Engine)
    requires q.Bool? && !q.mustNot.Single?
    ensures Eval(q.(mustNot := Many((if q.mustNot.Many? then q.mustNot.qs else []) + excludes)), d, e)
       <==> Eval(q, d, e) && CountTrue(excludes, d, e) == 0
  {
    var had := if q.mustNot.Many? then q.mustNot.qs else [];
    CountOfSum(had, excludes, d, e);
    var q' := q.(mustNot := Many(had + excludes));
    assert Needed(q') == Needed(q);
    hide CountTrue;
    assert CountTrue([], d, e) == 0;
  }

  /** A spliced body matches what the original matched minus the excluded. */
  lemma SpliceExcludes(query: Option<Query>, excludes: seq<Query>, d: Doc, e: Engine)
    requires Splice(query, excludes).Ok?
    ensures BodyMatches(Splice(query, excludes).value, d, e)
       <==> BodyMatches(query, d, e) && CountTrue(excludes, d, e) == 0
  {
    if excludes != [] {
      if query.Some? && query.value.Bool? {
        hide Eval, CountTrue;
        BoolExcludes(query.value, excludes, d, e);
        assert query.value.mustNot.Absent? ==> [] + excludes == excludes;
      } else if query.Some? {
        hide Eval, CountTrue;
        WrappedExcludes(query.value, excludes, d, e);
      }
    }
  }

  /** A query of another kind is wrapped before anything is excluded. */
  lemma WrappedExcludes(q: Query, excludes: seq<Query>, d: Doc, e: Engine)
    ensures Eval(Bool([q], [], [], Many(excludes), None), d, e) <==> Eval(q, d, e) && CountTrue(excludes, d, e) == 0
  {
    CountOfOne(q, d, e);
    assert Needed(Bool([q], [], [], Many(excludes), None)) == 0;
    assert CountTrue([], d, e) == 0;
    hide CountTrue;
  }

  lemma {:induction false} ExcludesAreHits(rules: seq<Rule>, d: Doc, e: Engine)
    ensures CountTrue(Clauses(rules), d, e) == 0 <==> forall r :: r in rules ==> !Hits(r, d, e)
  {
    hide Eval, RuleToClause;
    if rules == [] {
      assert CountTrue([], d, e) == 0;
    } else {
      var n := |rules| - 1;
      ExcludesAreHits(rules[..n], d, e);
      var c := RuleToClause(rules[n]);
      if c.Some? {
        CountOfSum(Clauses(rules[..n]), [c.value], d, e);
        CountOfOne(c.value, d, e);
      } else {
        assert Clauses(rules) == Clauses(rules[..n]);
      }
      hide CountTrue;
      assert Hits(rules[n], d, e) <==> c.Some? && Eval(c.value, d, e);
      assert rules[n] in rules;
      assert rules == rules[..n] + [rules[n]];
      assert forall r :: r in rules <==> r in rules[..n] || r == rules[n];
    }
  }

  /** A document matches after apply_to_body iff it matched before and no enabled
      rule in scope hits it. The call fails iff there is something to add and
      the body's must_not is a single object. */
  lemma SpliceMeaning(query: Option<Query>, rows: seq<Rule>, scope: string, d: Doc, e: Engine)
    ensures Splice(query, BuildExcludes(rows, scope)).Err?
       <==> BuildExcludes(rows, scope) != [] && SingleMustNot(query)
    ensures Splice(query, BuildExcludes(rows, scope)).Ok? ==>
              (BodyMatches(Splice(query, BuildExcludes(rows, scope)).value, d, e)
               <==> BodyMatches(query, d, e) && !Suppressed(rows, scope, d, e))
  {
    var excludes := BuildExcludes(rows, scope);
    if Splice(query, excludes).Ok? {
      SpliceExcludes(query, excludes, d, e);
      var rules := ListOf(rows, scope, true);
      ExcludesAreHits(rules, d, e);
      hide ListOf, Listed, Hits, Splice;
      assert Suppressed(rows, scope, d, e) <==> exists r :: r in rules && Hits(r, d, e);
    }
  }

  /** A second splice never fails and changes nothing. */
  lemma SpliceTwice(query: Option<Query>, excludes: seq<Query>, d: Doc, e: Engine)
    requires Splice(query, excludes).Ok?
    ensures Splice(Splice(query, excludes).value, excludes).Ok?
    ensures BodyMatches(Splice(Splice(query, excludes).value, excludes).value, d, e)
       <==> BodyMatches(Splice(query, excludes).value, d, e)
  {
    var once := Splice(query, excludes).value;
    assert Splice(once, excludes).Ok?;
    hide Eval;
    SpliceExcludes(query, excludes, d, e);
    SpliceExcludes(once, excludes, d, e);
  }

  /** A request body, mutated in place. */
  class QueryBody {
    var query: Option<Query>

    constructor (q: Option<Query>)
      ensures query == q
    {
      query := q;
    }

    /** False is the TypeError, which leaves the body as it was. */
    method ApplyToBody(store: FilterStore, scope: string) returns (ok: bool)
      modifies this
      ensures ok == Splice(old(query), BuildExcludes(store.rows, scope)).Ok?
      ensures query == if ok then Splice(old(query), BuildExcludes(store.rows, scope)).value else old(query)
    {
      var excludes := store.BuildExcludeList(scope);
      if excludes == [] {
        return true;
      }
      if query.None? {
        query := Some(Bool([], [], [], Many(excludes), None));
        return true;
      }
      var q := query.value;
      if !q.Bool? {
        query := Some(Bool([q], [], [], Many(excludes), None));
        return true;
      }
      match q.mustNot {
        case Absent => query := Some(q.(mustNot := Many(excludes)));
        case Many(qs) => query := Some(q.(mustNot := Many(qs + excludes)));
        case Single(_) => return false;
      }
      return true;
    }
  }

  // ---- the table -------------------------------------------------------------

  /** What an export keeps of a rule and an import restores. */
  datatype Core = Core(name: string, enabled: bool, scope: string, field: string, op: string, value: string, reason: string)

  function CoreOf(r: Rule): Core {
    Core(r.name, r.enabled, r.scope, r.field, r.op, r.value, r.reason)
  }

  function Cores(rows: seq<Rule>): (s: seq<Core>)
    ensures |s| == |rows| && forall i :: 0 <= i < |rows| ==> s[i] == CoreOf(rows[i])
  {
    if rows == [] then [] else Cores(rows[..|rows| - 1]) + [CoreOf(rows[|rows| - 1])]
  }

  function Reversed(s: seq<Rule>): (r: seq<Rule>)
    ensures |r| == |s| && forall i :: 0 <= i < |s| ==> r[i] == s[|s| - 1 - i]
  {
    if s == [] then [] else [s[|s| - 1]] + Reversed(s[..|s| - 1])
  }

  ghost predicate Sound(rows: seq<Rule>, nextId: nat) {
    && (forall i, j :: 0 <= i < j < |rows| ==> rows[i].id < rows[j].id)
    && (forall i :: 0 <= i < |rows| ==> rows[i].id < nextId && ValidRule(rows[i]))
  }

  function Imported(r: Rule, id: nat, createdBy: string, now: int): Rule {
    Rule(id, r.name, r.enabled, r.scope, r.field, r.op, r.value, r.reason,
         if createdBy != "" then createdBy else r.createdBy, now, now, 0)
  }

  /** import_all: each valid rule is appended under the next id, others are
      skipped. */
  function ImportRows(rows: seq<Rule>, nextId: nat, rules: seq<Rule>, createdBy: string, now: int): (out: seq<Rule>)
    ensures |rows| <= |out|
  {
    if rules == [] then rows
    else
      var before := ImportRows(rows, nextId, rules[..|rules| - 1], createdBy, now);
      var r := rules[|rules| - 1];
      if ValidRule(r) then before + [Imported(r, nextId + (|before| - |rows|), createdBy, now)] else before
  }

  lemma {:induction false} ImportGrows(rows: seq<Rule>, nextId: nat, rules: seq<Rule>, createdBy: string, now: int)
    ensures |rows| <= |ImportRows(rows, nextId, rules, createdBy, now)| <= |rows| + |rules|
    ensures rows <= ImportRows(rows, nextId, rules, createdBy, now)
  {
    hide ValidRule;
    if rules != [] {
      ImportGrows(rows, nextId, rules[..|rules| - 1], createdBy, now);
    }
  }

  lemma {:induction false} ImportKeepsSound(rows: seq<Rule>, nextId: nat, rules: seq<Rule>, createdBy: string, now: int)
    requires Sound(rows, nextId)
    ensures |rows| <= |ImportRows(rows, nextId, rules, createdBy, now)|
    ensures Sound(ImportRows(rows, nextId, rules, createdBy, now),
                  nextId + (|ImportRows(rows, nextId, rules, createdBy, now)| - |rows|))
  {
    hide Valid;
    if rules != [] {
      ImportKeepsSound(rows, nextId, rules[..|rules| - 1], createdBy, now);
      ImportGrows(rows, nextId, rules[..|rules| - 1], createdBy, now);
    }
  }

  lemma EmptyIsSound(nextId: nat)
    ensures Sound([], nextId)
  {
  }

  lemma ImportOfNone(rows: seq<Rule>, nextId: nat, rules: seq<Rule>, createdBy: string, now: int)
    ensures ImportRows(rows, nextId, rules[..0], createdBy, now) == rows
  {
  }

  lemma ImportSnoc(rows: seq<Rule>, nextId: nat, rules: seq<Rule>, i: nat, createdBy: string, now: int)
    requires i < |rules|
    ensures var before := ImportRows(rows, nextId, rules[..i], createdBy, now);
            ImportRows(rows, nextId, rules[..i + 1], createdBy, now)
            == if ValidRule(rules[i]) then before + [Imported(rules[i], nextId + (|before| - |rows|), createdBy, now)] else before
  {
    hide ValidRule, Imported;
    assert rules[..i + 1][..i] == rules[..i];
  }

  /** Valid rules come through one for one. */
  lemma {:induction false} ImportOfValid(rules: seq<Rule>, nextId: nat, createdBy: string, now: int)
    requires forall i :: 0 <= i < |rules| ==> ValidRule(rules[i])
    ensures |ImportRows([], nextId, rules, createdBy, now)| == |rules|
    ensures forall i :: 0 <= i < |rules| ==>
              ImportRows([], nextId, rules, createdBy, now)[i] == Imported(rules[i], nextId + i, createdBy, now)
  {
    hide ValidRule, Imported;
    if rules != [] {
      ImportOfValid(rules[..|rules| - 1], nextId, createdBy, now);
    }
  }

  /** What an import refuses, and what it makes of a rule it takes: the next id, new
      times, no hits, and the importer as author if there is one. */
  lemma ImportTakesIff(rows: seq<Rule>, nextId: nat, r: Rule, createdBy: string, now: int)
    ensures var out := ImportRows(rows, nextId, [r], createdBy, now);
      if || AllSpace(r.name) || AllSpace(r.field) || r.value == ""
         || (r.scope != "events" && r.scope != "alerts" && r.scope != "both")
         || (r.op != "equals" && r.op != "contains" && r.op != "in" && r.op != "regex")
      then out == rows
      else
        && |out| == |rows| + 1 && out[..|rows|] == rows
        && (createdBy != "" ==> out[|rows|].createdBy == createdBy)
        && (createdBy == "" ==> out[|rows|].createdBy == r.createdBy)
        && out[|rows|].createdAt == out[|rows|].updatedAt == now && out[|rows|].matchCount == 0
        && out[|rows|].id == nextId && CoreOf(out[|rows|]) == CoreOf(r)
  {
    BlankIff(r.name);
    BlankIff(r.field);
    assert [r][..0] == [];
    assert ImportRows(rows, nextId, [], createdBy, now) == rows;
    hide Strip, AllSpace;
  }

  lemma RestoredRows(rows: seq<Rule>, nextId: nat, createdBy: string, now: int)
    requires Sound(rows, nextId)
    ensures |ImportRows([], nextId, Reversed(rows), createdBy, now)| == |rows|
    ensures forall i :: 0 <= i < |rows| ==>
              CoreOf(ImportRows([], nextId, Reversed(rows), createdBy, now)[i]) == CoreOf(rows[|rows| - 1 - i])
  {
    hide ValidRule;
    var back := Reversed(rows);
    assert forall i :: 0 <= i < |rows| ==> back[i] == rows[|rows| - 1 - i];
    ImportOfValid(back, nextId, createdBy, now);
    hide ImportRows, Reversed, Sound;
  }

  /** A restored backup holds the same rules in reverse order. */
  lemma RestoreReversesRules(rows: seq<Rule>, nextId: nat, createdBy: string, now: int)
    requires Sound(rows, nextId)
    ensures |ImportRows([], nextId, Reversed(rows), createdBy, now)| == |rows|
    ensures forall i :: 0 <= i < |rows| ==>
              CoreOf(ImportRows([], nextId, Reversed(rows), createdBy, now)[i]) == CoreOf(rows[|rows| - 1 - i])
    ensures multiset(Cores(ImportRows([], nextId, Reversed(rows), createdBy, now))) == multiset(Cores(rows))
  {
    RestoredRows(rows, nextId, createdBy, now);
    hide *;
    ReversedCores(rows, ImportRows([], nextId, Reversed(rows), createdBy, now));
  }

  lemma {:induction false} ReversedCores(rows: seq<Rule>, restored: seq<Rule>)
    requires |restored| == |rows|
    requires forall i :: 0 <= i < |rows| ==> CoreOf(restored[i]) == CoreOf(rows[|rows| - 1 - i])
    ensures multiset(Cores(restored)) == multiset(Cores(rows))
  {
    hide CoreOf;
    if rows != [] {
      var n := |rows| - 1;
      ReversedCores(rows[..n], restored[1..]);
      CoresOfCons(restored);
      hide *;
      assert Cores(rows) == Cores(rows[..n]) + [CoreOf(rows[n])];
      assert CoreOf(restored[0]) == CoreOf(rows[n]);
    }
  }

  lemma CoresOfCons(rows: seq<Rule>)
    requires rows != []
    ensures Cores(rows) == [CoreOf(rows[0])] + Cores(rows[1..])
  {
    hide Cores, CoreOf;
  }

  lemma SameCoreSameRule(a: Rule, b: Rule, scope: string, d: Doc, e: Engine)
    requires CoreOf(a) == CoreOf(b)
    ensures Listed(a, scope, true) == Listed(b, scope, true)
    ensures RuleToClause(a) == RuleToClause(b) && Hits(a, d, e) == Hits(b, d, e)
  {
    hide Eval, PyInt;
  }

  /** Every rule of `a` has one in `b` that suppresses the same. */
  ghost predicate Covered(a: seq<Rule>, b: seq<Rule>) {
    forall r :: r in a ==> exists s :: s in b && CoreOf(s) == CoreOf(r)
  }

  lemma CoveredSuppresses(a: seq<Rule>, b: seq<Rule>, scope: string, d: Doc, e: Engine)
    requires Covered(a, b)
    ensures Suppressed(a, scope, d, e) ==> Suppressed(b, scope, d, e)
    ensures BuildExcludes(b, scope) == [] ==> BuildExcludes(a, scope) == []
  {
    hide CoreOf, Listed, Hits, RuleToClause;
    NoExcludesIff(a, scope);
    NoExcludesIff(b, scope);
    hide BuildExcludes;
    forall r | r in a
      ensures exists s :: s in b && Listed(s, scope, true) == Listed(r, scope, true)
                && RuleToClause(s) == RuleToClause(r) && Hits(s, d, e) == Hits(r, d, e)
    {
      var s :| s in b && CoreOf(s) == CoreOf(r);
      SameCoreSameRule(s, r, scope, d, e);
    }
  }

  lemma ReversedCovers(rows: seq<Rule>, restored: seq<Rule>)
    requires |restored| == |rows|
    requires forall i :: 0 <= i < |rows| ==> CoreOf(restored[i]) == CoreOf(rows[|rows| - 1 - i])
    ensures Covered(rows, restored) && Covered(restored, rows)
  {
    hide CoreOf;
    var n := |rows| - 1;
    forall r | r in rows ensures exists s :: s in restored && CoreOf(s) == CoreOf(r) {
      var i :| 0 <= i < |rows| && rows[i] == r;
      assert rows[n - (n - i)] == r;
      assert restored[n - i] in restored;
    }
    forall s | s in restored ensures exists r :: r in rows && CoreOf(r) == CoreOf(s) {
      var i :| 0 <= i < |restored| && restored[i] == s;
      assert rows[n - i] in rows;
    }
  }

  lemma NoExcludesIff(rows: seq<Rule>, scope: string)
    ensures BuildExcludes(rows, scope) == []
       <==> forall r :: r in rows && Listed(r, scope, true) ==> RuleToClause(r).None?
  {
    hide RuleToClause, Listed;
    NoClausesIff(ListOf(rows, scope, true));
  }

  lemma {:induction false} NoClausesIff(rules: seq<Rule>)
    ensures Clauses(rules) == [] <==> forall r :: r in rules ==> RuleToClause(r).None?
  {
    hide RuleToClause;
    if rules != [] {
      var n := |rules| - 1;
      NoClausesIff(rules[..n]);
      assert rules == rules[..n] + [rules[n]];
    }
  }

  /** And every search, of every scope, excludes the same documents afterwards. */
  lemma RestoreKeepsMeaning(query: Option<Query>, rows: seq<Rule>, nextId: nat, createdBy: string, now: int, scope: string, d: Doc, e: Engine)
    requires Sound(rows, nextId)
    ensures Splice(query, BuildExcludes(rows, scope)).Ok?
       <==> Splice(query, BuildExcludes(ImportRows([], nextId, Reversed(rows), createdBy, now), scope)).Ok?
    ensures Splice(query, BuildExcludes(rows, scope)).Ok? ==>
              (BodyMatches(Splice(query, BuildExcludes(rows, scope)).value, d, e)
               <==> BodyMatches(Splice(query, BuildExcludes(ImportRows([], nextId, Reversed(rows), createdBy, now), scope)).value, d, e))
  {
    hide *;
    var restored := ImportRows([], nextId, Reversed(rows), createdBy, now);
    RestoredRows(rows, nextId, createdBy, now);
    ReversedCovers(rows, restored);
    CoveredSuppresses(rows, restored, scope, d, e);
    CoveredSuppresses(restored, rows, scope, d, e);
    SpliceMeaning(query, rows, scope, d, e);
    SpliceMeaning(query, restored, scope, d, e);
  }

  /** None keeps the current value. */
  datatype Changes = Changes(
    name: Option<string>, enabled: Option<bool>, scope: Option<string>, field: Option<string>,
    op: Option<string>, value: Option<string>, reason: Option<string>)

  function Pick<T>(change: Option<T>, current: T): T {
    if change.Some? then change.value else current
  }

  function Merged(r: Rule, c: Changes, now: int): Rule {
    r.(name := Pick(c.name, r.name), enabled := Pick(c.enabled, r.enabled), scope := Pick(c.scope, r.scope),
       field := Pick(c.field, r.field), op := Pick(c.op, r.op), value := Pick(c.value, r.value),
       reason := Pick(c.reason, r.reason), updatedAt := now)
  }

  /** An update takes every given value, keeps every other, and leaves id, author, age
      and hits alone. */
  lemma UpdateKeepsTheRest(r: Rule, c: Changes, now: int)
    ensures var s := Merged(r, c, now);
      && s.id == r.id && s.createdBy == r.createdBy && s.createdAt == r.createdAt && s.matchCount == r.matchCount
      && s.updatedAt == now
      && (c == Changes(None, None, None, None, None, None, None) ==> s == r.(updatedAt := now))
      && Merged(s, c, now) == s
      && (forall v :: c.value == Some(v) ==> s.value == v) && (c.value.None? ==> s.value == r.value)
      && (forall v :: c.name == Some(v) ==> s.name == v) && (c.name.None? ==> s.name == r.name)
      && (forall v :: c.scope == Some(v) ==> s.scope == v) && (c.scope.None? ==> s.scope == r.scope)
      && (forall v :: c.field == Some(v) ==> s.field == v) && (c.field.None? ==> s.field == r.field)
      && (forall v :: c.op == Some(v) ==> s.op == v) && (c.op.None? ==> s.op == r.op)
      && (forall v :: c.reason == Some(v) ==> s.reason == v) && (c.reason.None? ==> s.reason == r.reason)
      && (forall v :: c.enabled == Some(v) ==> s.enabled == v) && (c.enabled.None? ==> s.enabled == r.enabled)
  {
  }

  /** export_all lists everything, newest first. */
  lemma {:induction false} ExportIsReversed(rows: seq<Rule>)
    ensures ListOf(rows, "", false) == Reversed(rows)
  {
    if rows != [] {
      ExportIsReversed(rows[..|rows| - 1]);
    }
  }

  predicate NewestFirst(rules: seq<Rule>) {
    forall i, j :: 0 <= i < j < |rules| ==> rules[i].id > rules[j].id
  }

  lemma {:induction false} ListIsNewestFirst(rows: seq<Rule>, scope: string, onlyEnabled: bool)
    requires forall i, j :: 0 <= i < j < |rows| ==> rows[i].id < rows[j].id
    ensures NewestFirst(ListOf(rows, scope, onlyEnabled))
  {
    hide *;
    if rows == [] {
      NoneIsNewestFirst(scope, onlyEnabled);
    } else {
      var n := |rows| - 1;
      var tail := ListOf(rows[..n], scope, onlyEnabled);
      ListIsNewestFirst(rows[..n], scope, onlyEnabled);
      ListedLast(rows, scope, onlyEnabled);
      forall r | r in tail ensures r.id < rows[n].id {
        OlderThanLast(rows, r);
      }
      ConsIsNewest(rows[n], tail);
    }
  }

  lemma NoneIsNewestFirst(scope: string, onlyEnabled: bool)
    ensures NewestFirst(ListOf([], scope, onlyEnabled))
  {
  }

  lemma ListedLast(rows: seq<Rule>, scope: string, onlyEnabled: bool)
    requires rows != []
    ensures var tail := ListOf(rows[..|rows| - 1], scope, onlyEnabled);
      && (ListOf(rows, scope, onlyEnabled) == [rows[|rows| - 1]] + tail || ListOf(rows, scope, onlyEnabled) == tail)
      && forall r :: r in tail ==> r in rows[..|rows| - 1]
  {
    hide Listed;
    assert [] + ListOf(rows[..|rows| - 1], scope, onlyEnabled) == ListOf(rows[..|rows| - 1], scope, onlyEnabled);
  }

  lemma OlderThanLast(rows: seq<Rule>, r: Rule)
    requires forall i, j :: 0 <= i < j < |rows| ==> rows[i].id < rows[j].id
    requires rows != [] && r in rows[..|rows| - 1]
    ensures r.id < rows[|rows| - 1].id
  {
    var k :| 0 <= k < |rows| - 1 && rows[..|rows| - 1][k] == r;
    assert rows[k].id < rows[|rows| - 1].id;
  }

  lemma ConsIsNewest(r: Rule, tail: seq<Rule>)
    requires NewestFirst(tail) && forall t :: t in tail ==> t.id < r.id
    ensures NewestFirst([r] + tail)
  {
  }

  class FilterStore {
    /** In id order. */
    var rows: seq<Rule>
    var nextId: nat

    ghost predicate WellFormed()
      reads this
    {
      Sound(rows, nextId)
    }

    constructor ()
      ensures WellFormed() && rows == []
    {
      rows, nextId := [], 1;
    }

    method ListRules(scope: string, onlyEnabled: bool) returns (out: seq<Rule>)
      ensures out == ListOf(rows, scope, onlyEnabled)
    {
      hide Listed;
      out := [];
      for i := 0 to |rows|
        invariant out == ListOf(rows[..i], scope, onlyEnabled)
      {
        assert rows[..i + 1][..i] == rows[..i];
        if Listed(rows[i], scope, onlyEnabled) {
          out := [rows[i]] + out;
        }
      }
      assert rows[..|rows|] == rows;
    }

    method BuildExcludeList(scope: string) returns (clauses: seq<Query>)
      ensures clauses == BuildExcludes(rows, scope)
    {
      hide RuleToClause, ListOf;
      var rules := ListRules(scope, true);
      clauses := [];
      for i := 0 to |rules|
        invariant clauses == Clauses(rules[..i])
      {
        assert rules[..i + 1][..i] == rules[..i];
        var c := RuleToClause(rules[i]);
        if c.Some? {
          clauses := clauses + [c.value];
        }
      }
      assert rules[..|rules|] == rules;
    }

    /** None is the ValueError. */
    method Create(name: string, scope: string, field: string, op: string, value: string, reason: string,
                  createdBy: string, enabled: bool, now: int)
      returns (made: Option<Rule>)
      requires WellFormed()
      modifies this
      ensures WellFormed()
      ensures made.Some? <==> Valid(name, scope, field, op, value)
      ensures made.None? ==> rows == old(rows) && nextId == old(nextId)
      ensures made.Some? ==> rows == old(rows) + [made.value]
      ensures made.Some? ==> made.value == Rule(old(nextId), Strip(name), enabled, scope, Strip(field), op, value, reason, createdBy, now, now, 0)
    {
      if !Valid(name, scope, field, op, value) {
        return None;
      }
      var r := Rule(nextId, Strip(name), enabled, scope, Strip(field), op, value, reason, createdBy, now, now, 0);
      StripIsIdentity(Strip(name));
      StripIsIdentity(Strip(field));
      rows, nextId := rows + [r], nextId + 1;
      return Some(r);
    }

    function Index(id: nat): (i: nat)
      reads this
      ensures i <= |rows| && (i < |rows| ==> rows[i].id == id)
      ensures i == |rows| ==> forall k :: 0 <= k < |rows| ==> rows[k].id != id
    {
      FindId(rows, id)
    }

    static function FindId(rows: seq<Rule>, id: nat): (i: nat)
      ensures i <= |rows| && (i < |rows| ==> rows[i].id == id)
      ensures i == |rows| ==> forall k :: 0 <= k < |rows| ==> rows[k].id != id
    {
      if rows == [] then 0
      else if rows[0].id == id then 0
      else FindId(rows[1..], id) + 1
    }

    /** Nothing happens for an unknown id (Ok(None)) or invalid values (Err). */
    method Update(id: nat, c: Changes, now: int) returns (r: Result<Option<Rule>, Failure>)
      requires WellFormed()
      modifies this
      ensures WellFormed() && nextId == old(nextId)
      ensures r == Ok(None) <==> old(Index(id)) == |old(rows)|
      ensures r.Err? <==> old(Index(id)) < |old(rows)| && !ValidRule(Merged(old(rows[Index(id)]), c, now))
      ensures r.Err? ==> r.error == ValueError
      ensures r.Err? || r.value.None? ==> rows == old(rows)
      ensures r.Ok? && r.value.Some? ==>
                r.value.value == Merged(old(rows[Index(id)]), c, now) && rows == old(rows)[old(Index(id)) := r.value.value]
    {
      hide Valid;
      var i := Index(id);
      if i == |rows| {
        return Ok(None);
      }
      var merged := Merged(rows[i], c, now);
      if !ValidRule(merged) {
        return Err(ValueError);
      }
      rows := rows[i := merged];
      return Ok(Some(merged));
    }

    method Toggle(id: nat, now: int) returns (r: Result<Option<Rule>, Failure>)
      requires WellFormed()
      modifies this
      ensures WellFormed() && r.Ok?
      ensures old(Index(id)) == |old(rows)| ==> rows == old(rows)
      ensures old(Index(id)) < |old(rows)| ==>
                rows == old(rows)[old(Index(id)) := old(rows[Index(id)]).(enabled := !old(rows[Index(id)]).enabled, updatedAt := now)]
    {
      var i := Index(id);
      if i == |rows| {
        return Ok(None);
      }
      r := Update(id, Changes(None, Some(!rows[i].enabled), None, None, None, None, None), now);
    }

    method Delete(id: nat) returns (deleted: bool)
      requires WellFormed()
      modifies this
      ensures WellFormed() && nextId == old(nextId)
      ensures deleted <==> old(Index(id)) < |old(rows)|
      ensures rows == if deleted then old(rows)[..old(Index(id))] + old(rows)[old(Index(id)) + 1..] else old(rows)
    {
      hide Valid;
      var i := Index(id);
      if i == |rows| {
        return false;
      }
      rows := rows[..i] + rows[i + 1..];
      return true;
    }

    method ImportAll(rules: seq<Rule>, replace: bool, createdBy: string, now: int) returns (inserted: nat)
      requires WellFormed()
      modifies this
      ensures WellFormed()
      ensures rows == ImportRows(if replace then [] else old(rows), old(nextId), rules, createdBy, now)
      ensures inserted == |rows| - (if replace then 0 else |old(rows)|)
    {
      hide *;
      SoundIsValid();
      if replace {
        rows := [];
        EmptyIsSound(nextId);
      }
      inserted := 0;
      ghost var base, first := rows, nextId;
      ImportOfNone(base, first, rules, createdBy, now);
      for i := 0 to |rules|
        invariant rows == ImportRows(base, first, rules[..i], createdBy, now)
        invariant |rows| == |base| + inserted && nextId == first + inserted
      {
        ImportSnoc(base, first, rules, i, createdBy, now);
        var r := rules[i];
        if !ValidRule(r) {
          continue;
        }
        rows := rows + [Imported(r, nextId, createdBy, now)];
        nextId := nextId + 1;
        inserted := inserted + 1;
      }
      assert rules[..|rules|] == rules;
      ImportKeepsSound(base, first, rules, createdBy, now);
      SoundIsValid();
    }

    lemma SoundIsValid()
      ensures WellFormed() <==> Sound(rows, nextId)
    {
    }

    /** Export, then restore with replacement. */
    method BackupAndRestore(now: int)
      requires WellFormed()
      modifies this
      ensures WellFormed() && |rows| == |old(rows)|
      ensures forall i :: 0 <= i < |rows| ==> CoreOf(rows[i]) == CoreOf(old(rows)[|rows| - 1 - i])
    {
      var snapshot := ListRules("", false);
      ExportIsReversed(rows);
      ghost var before, id := rows, nextId;
      var _ := ImportAll(snapshot, true, "", now);
      RestoreReversesRules(before, id, "", now);
    }
  }
}
