/** Wildcard patterns as the search engine reads them: a star is any text, a
    question mark any one character, a backslash quotes what follows it. */
module Glob {
  import opened Text

  /** OneOf is a character class, any of the ranges or, negated, none of them. */
  datatype Token = Star | Any | Lit(c: char) | OneOf(negated: bool, ranges: seq<Range>)

  /** Both ends included. */
  datatype Range = Range(low: char, high: char)

  predicate InRanges(c: char, ranges: seq<Range>) {
    exists k :: 0 <= k < |ranges| && ranges[k].low <= c <= ranges[k].high
  }

  /** A trailing backslash stands for itself. */
  function Tokens(p: string): seq<Token> {
    if p == "" then []
    else if p[0] == '*' then [Star] + Tokens(p[1..])
    else if p[0] == '?' then [Any] + Tokens(p[1..])
    else if p[0] == '\\' && |p| > 1 then [Lit(p[1])] + Tokens(p[2..])
    else [Lit(p[0])] + Tokens(p[1..])
  }

  predicate Matches(ts: seq<Token>, s: string)
    decreases |ts|, |s|
  {
    if ts == [] then s == ""
    else
      match ts[0]
      case Star => Matches(ts[1..], s) || (s != "" && Matches(ts, s[1..]))
      case Any => s != "" && Matches(ts[1..], s[1..])
      case Lit(c) => s != "" && s[0] == c && Matches(ts[1..], s[1..])
      case OneOf(negated, ranges) => s != "" && InRanges(s[0], ranges) != negated && Matches(ts[1..], s[1..])
  }

  /** No character with a meaning of its own. */
  predicate Plain(s: string) {
    '*' !in s && '?' !in s && '\\' !in s
  }

  function Literals(s: string): seq<Token> {
    if s == "" then [] else [Lit(s[0])] + Literals(s[1..])
  }

  // ---- what each token stands for ----------------------------------------------

  predicate SplitsAt(a: seq<Token>, b: seq<Token>, s: string, k: nat) {
    k <= |s| && Matches(a, s[..k]) && Matches(b, s[k..])
  }

  lemma FrontGrows(a: seq<Token>, b: seq<Token>, s: string, k: nat)
    requires a != [] && s != "" && k < |s|
    ensures SplitsAt(a[1..], b, s[1..], k) <==> k + 1 <= |s| && Matches(a[1..], s[..k + 1][1..]) && Matches(b, s[k + 1..])
    ensures s[..k + 1][0] == s[0] && s[..k + 1] != ""
  {
    assert s[1..][..k] == s[..k + 1][1..] && s[1..][k..] == s[k + 1..];
  }

  lemma {:induction false} SumMatchesHere(a: seq<Token>, b: seq<Token>, s: string, k: nat)
    requires SplitsAt(a, b, s, k)
    ensures Matches(a + b, s)
    decreases |a|, |s|
  {
    if a == [] {
      assert a + b == b && s[k..] == s;
    } else {
      assert (a + b)[1..] == a[1..] + b && (a + b)[0] == a[0];
      if a[0].Star? && Matches(a[1..], s[..k]) {
        SumMatchesHere(a[1..], b, s, k);
      } else {
        FrontGrows(a, b, s, k - 1);
        if a[0].Star? {
          assert s[1..][..k - 1] == s[..k][1..] && s[1..][k - 1..] == s[k..];
          SumMatchesHere(a, b, s[1..], k - 1);
        } else {
          SumMatchesHere(a[1..], b, s[1..], k - 1);
        }
      }
    }
  }

  lemma {:induction false} SumSplits(a: seq<Token>, b: seq<Token>, s: string) returns (k: nat)
    requires Matches(a + b, s)
    ensures SplitsAt(a, b, s, k)
    decreases |a|, |s|
  {
    if a == [] {
      assert a + b == b && s[0..] == s && s[..0] == "";
      k := 0;
    } else {
      assert (a + b)[1..] == a[1..] + b && (a + b)[0] == a[0];
      if a[0].Star? && Matches(a[1..] + b, s) {
        k := SumSplits(a[1..], b, s);
      } else if a[0].Star? {
        var i := SumSplits(a, b, s[1..]);
        k := i + 1;
        assert s[1..][..i] == s[..k][1..] && s[1..][i..] == s[k..];
      } else {
        var i := SumSplits(a[1..], b, s[1..]);
        k := i + 1;
        FrontGrows(a, b, s, i);
      }
    }
  }

  /** A pattern put together from two matches a text iff the text can be cut so that
      each part matches its piece. */
  lemma MatchesOfSum(a: seq<Token>, b: seq<Token>, s: string)
    ensures Matches(a + b, s) <==> exists k: nat :: SplitsAt(a, b, s, k)
  {
    if Matches(a + b, s) {
      var k := SumSplits(a, b, s);
      assert SplitsAt(a, b, s, k);
    }
    if k: nat :| SplitsAt(a, b, s, k) {
      SumMatchesHere(a, b, s, k);
    }
  }

  /** And one token: a star any text, a question mark any character, a letter itself, a
      class its members or all but them. */
  lemma TokenMatches(t: Token, s: string)
    ensures Matches([], s) <==> s == ""
    ensures Matches([t], s)
       <==> match t
            case Star => true
            case Any => |s| == 1
            case Lit(c) => s == [c]
            case OneOf(negated, ranges) => |s| == 1 && InRanges(s[0], ranges) != negated
  {
    if t.Star? {
      StarMatchesAll(s);
    } else {
      assert [t][1..] == [];
      assert s != "" ==> (Matches([], s[1..]) <==> |s| == 1);
      assert t.Lit? && |s| == 1 && s[0] == t.c ==> s == [t.c];
    }
  }

  /** The pattern for one text: each character behind a backslash. */
  function Quoted(v: string): string {
    if v == "" then "" else "\\" + [v[0]] + Quoted(v[1..])
  }

  lemma {:induction false} QuotedMatches(v: string, s: string)
    ensures Matches(Tokens(Quoted(v)), s) <==> s == v
  {
    if v != "" {
      var q := Quoted(v);
      assert q[0] == '\\' && q[1] == v[0] && q[2..] == Quoted(v[1..]);
      assert Tokens(q) == [Lit(v[0])] + Tokens(q[2..]);
      assert Tokens(q)[1..] == Tokens(q[2..]);
      if s != "" {
        QuotedMatches(v[1..], s[1..]);
        assert s == [s[0]] + s[1..] && v == [v[0]] + v[1..];
      }
    }
  }

  // ---- plain values ----------------------------------------------------------

  lemma {:induction false} PlainTokens(v: string)
    requires Plain(v)
    ensures Tokens(v + "*") == Literals(v) + [Star]
  {
    if v != "" {
      assert (v + "*")[1..] == v[1..] + "*";
      PlainTokens(v[1..]);
    } else {
      assert v + "*" == "*";
      assert Tokens("*"[1..]) == [];
    }
  }

  lemma {:induction false} PrefixMatches(v: string, s: string)
    ensures Matches(Literals(v) + [Star], s) <==> v <= s
  {
    if v == "" {
      assert Literals(v) + [Star] == [Star];
      StarMatchesAll(s);
    } else {
      assert (Literals(v) + [Star])[1..] == Literals(v[1..]) + [Star];
      if s != "" {
        PrefixMatches(v[1..], s[1..]);
        assert v <= s <==> v[0] == s[0] && v[1..] <= s[1..];
      }
    }
  }

  lemma {:induction false} StarMatchesAll(s: string)
    ensures Matches([Star], s)
  {
    if s != "" {
      StarMatchesAll(s[1..]);
    } else {
      assert [Star][1..] == [];
    }
  }

  lemma {:induction false} StarFinds(ts: seq<Token>, s: string)
    ensures Matches([Star] + ts, s) <==> exists i :: 0 <= i <= |s| && Matches(ts, s[i..])
  {
    var star := [Star] + ts;
    assert star[1..] == ts;
    assert s[0..] == s;
    if s != "" {
      StarFinds(ts, s[1..]);
      if Matches(star, s) && !Matches(ts, s) {
        var i :| 0 <= i <= |s[1..]| && Matches(ts, s[1..][i..]);
        assert s[1..][i..] == s[i + 1..];
      }
      if i :| 0 <= i <= |s| && Matches(ts, s[i..]) {
        if i > 0 {
          assert s[1..][i - 1..] == s[i..];
        }
      }
    }
  }

  lemma PlainContains(v: string, s: string)
    requires Plain(v)
    ensures Matches(Tokens("*" + v + "*"), s) <==> Contains(s, v)
  {
    PlainTokens(v);
    assert ("*" + v + "*")[1..] == v + "*";
    StarFinds(Literals(v) + [Star], s);
    forall i | 0 <= i <= |s| ensures Matches(Literals(v) + [Star], s[i..]) <==> v <= s[i..] {
      PrefixMatches(v, s[i..]);
    }
  }

  // ---- values with special characters ----------------------------------------

  /** A short text the pattern matches: stars dropped, question marks filled in,
      quotes removed. */
  function Instance(p: string): string {
    if p == "" then ""
    else if p[0] == '*' then Instance(p[1..])
    else if p[0] == '?' then "x" + Instance(p[1..])
    else if p[0] == '\\' && |p| > 1 then [p[1]] + Instance(p[2..])
    else [p[0]] + Instance(p[1..])
  }

  lemma {:induction false} InstanceMatches(p: string)
    ensures Matches(Tokens(p), Instance(p))
  {
    if p != "" {
      var k := if p[0] == '\\' && |p| > 1 then 2 else 1;
      InstanceMatches(p[k..]);
      assert Tokens(p)[1..] == Tokens(p[k..]);
      assert p[0] != '*' ==> Instance(p)[1..] == Instance(p[k..]);
    }
  }

  /** For a value with a special character that text is shorter than the value or
      differs from it. */
  lemma {:induction false} InstanceDiffers(v: string)
    ensures |Instance(v + "*")| <= |v|
    ensures Instance(v + "*") == v ==> Plain(v)
  {
    var p := v + "*";
    if v == "" {
      assert p == "*" && p[1..] == "";
    } else if v[0] == '\\' {
      if |v| == 1 {
        assert p[2..] == "" && Instance(p) == [p[1]] + "";
      } else {
        assert p[2..] == v[2..] + "*";
        InstanceDiffers(v[2..]);
      }
    } else {
      assert p[1..] == v[1..] + "*";
      InstanceDiffers(v[1..]);
      if Instance(p) == v && v[0] != '*' {
        assert Instance(p)[1..] == Instance(p[1..]);
        assert v == [v[0]] + v[1..];
      }
    }
  }

  lemma SpecialMatchesMore(v: string) returns (s: string)
    requires !Plain(v)
    ensures Matches(Tokens("*" + v + "*"), s) && !Contains(s, v)
  {
    s := Instance(v + "*");
    InstanceDiffers(v);
    InstanceMatches("*" + v + "*");
    assert ("*" + v + "*")[1..] == v + "*";
    if Contains(s, v) {
      assert false;
    }
  }

  predicate Found(v: string, s: string) {
    Matches(Tokens("*" + v + "*"), s)
  }

  /** Wrapping a value in stars means "contains the value" iff the value has no
      star, question mark or backslash. */
  lemma WrappedMeansContainsIff(v: string)
    ensures (forall s :: Found(v, s) <==> Contains(s, v)) <==> Plain(v)
  {
    if Plain(v) {
      forall s ensures Found(v, s) <==> Contains(s, v) {
        PlainContains(v, s);
      }
    } else {
      var s := SpecialMatchesMore(v);
      assert Found(v, s) && !Contains(s, v);
    }
  }
}
