/** Shell patterns as Python's fnmatch.fnmatchcase reads them, which decide the
    threshold of a source (silent_sources.py). */
module Fnmatch {
  import opened Text
  import opened Glob

  /** Where the class that begins p ends: the first closing bracket that is not
      its first member; the length of p if it is not closed. */
  function ClassEnd(p: string): (e: nat)
    requires p != "" && p[0] == '['
    ensures 1 < e <= |p| || (e == 1 && |p| == 1)
  {
    var first := if |p| > 1 && p[1] == '!' then 2 else 1;
    var from := if |p| > first && p[first] == ']' then first + 1 else first;
    if from >= |p| then |p| else from + |Before(p[from..], ']')|
  }

  /** A hyphen between two members makes a range of them. */
  function Members(body: string): seq<Range> {
    if body == "" then []
    else if |body| > 2 && body[1] == '-' then [Range(body[0], body[2])] + Members(body[3..])
    else [Range(body[0], body[0])] + Members(body[1..])
  }

  /** Ranges that run backwards are taken out. */
  function Proper(ranges: seq<Range>): seq<Range> {
    if ranges == [] then []
    else (if ranges[0].low <= ranges[0].high then [ranges[0]] else []) + Proper(ranges[1..])
  }

  /** An exclamation mark in front negates, also one that comes to stand in front
      because a backward range was taken out; then a hyphen after it is itself. */
  function Class(body: string): Token {
    if body != "" && body[0] == '!' then OneOf(true, Proper(Members(body[1..])))
    else
      var ranges := Proper(Members(body));
      if ranges == [] || ranges[0].low != '!' then OneOf(false, ranges)
      else if ranges[0].high == '!' then OneOf(true, ranges[1..])
      else OneOf(true, [Range('-', '-'), Range(ranges[0].high, ranges[0].high)] + ranges[1..])
  }

  /** A bracket that is never closed is itself. */
  function FnTokens(p: string): seq<Token> {
    if p == "" then []
    else if p[0] == '*' then [Star] + FnTokens(p[1..])
    else if p[0] == '?' then [Any] + FnTokens(p[1..])
    else if p[0] == '[' && ClassEnd(p) < |p| then [Class(p[1..ClassEnd(p)])] + FnTokens(p[ClassEnd(p) + 1..])
    else [Lit(p[0])] + FnTokens(p[1..])
  }

  predicate Simple(s: string) {
    '*' !in s && '?' !in s && '[' !in s
  }

  lemma {:induction false} PrefixTokens(v: string)
    requires Simple(v)
    ensures FnTokens(v + "*") == Literals(v) + [Star]
  {
    if v == "" {
      assert v + "*" == "*" && FnTokens("*"[1..]) == [];
    } else {
      assert (v + "*")[1..] == v[1..] + "*";
      PrefixTokens(v[1..]);
    }
  }

  /** A plain prefix and a star: exactly the texts that begin with the prefix. */
  lemma PrefixPattern(v: string, s: string)
    requires Simple(v)
    ensures Matches(FnTokens(v + "*"), s) <==> v <= s
  {
    PrefixTokens(v);
    PrefixMatches(v, s);
  }

  lemma InSum(c: char, a: seq<Range>, b: seq<Range>)
    ensures InRanges(c, a + b) <==> InRanges(c, a) || InRanges(c, b)
  {
    if k :| 0 <= k < |b| && b[k].low <= c <= b[k].high {
      assert (a + b)[|a| + k] == b[k];
    }
    if k :| 0 <= k < |a| && a[k].low <= c <= a[k].high {
      assert (a + b)[k] == a[k];
    }
  }

  /** A class of plain members, no exclamation mark in front and no hyphen, admits
      exactly its members. */
  lemma {:induction false} PlainMembers(body: string, c: char)
    requires '-' !in body
    ensures InRanges(c, Members(body)) <==> c in body
  {
    if body != "" {
      PlainMembers(body[1..], c);
      InSum(c, [Range(body[0], body[0])], Members(body[1..]));
      assert body == [body[0]] + body[1..];
      assert [Range(body[0], body[0])][0] == Range(body[0], body[0]);
    }
  }

  lemma {:induction false} PlainIsProper(body: string)
    requires '-' !in body
    ensures Proper(Members(body)) == Members(body) && |Members(body)| == |body|
    ensures body != "" ==> Members(body)[0] == Range(body[0], body[0])
  {
    if body != "" {
      PlainIsProper(body[1..]);
      assert Members(body)[1..] == Members(body[1..]);
    }
  }

  lemma BracketTokens(inner: string)
    requires inner != "" && ']' !in inner && inner != "!"
    ensures FnTokens("[" + inner + "]") == [Class(inner)]
  {
    var p := "[" + inner + "]";
    BracketEnds(inner);
    assert p[1..|inner| + 1] == inner && p[|inner| + 2..] == "";
    hide ClassEnd, Class;
    assert FnTokens("") == [];
  }

  lemma BracketEnds(inner: string)
    requires inner != "" && ']' !in inner && inner != "!"
    ensures ClassEnd("[" + inner + "]") == |inner| + 1
  {
    var p := "[" + inner + "]";
    var first := if p[1] == '!' then 2 else 1;
    assert p[1] == inner[0] && p[|inner| + 1] == ']' && forall i :: 1 <= i <= |inner| ==> p[i] == inner[i - 1];
    BeforeOfSum(p[first..|inner| + 1], ']', "");
    assert p[first..] == p[first..|inner| + 1] + [']'] + "";
  }

  /** A class of plain members is one character of them, one with an exclamation mark in
      front one character that is none of them. */
  lemma ClassPattern(body: string, s: string)
    requires body != "" && '-' !in body && ']' !in body && body[0] != '!'
    ensures Matches(FnTokens("[" + body + "]"), s) <==> |s| == 1 && s[0] in body
    ensures Matches(FnTokens("[" + ("!" + body) + "]"), s) <==> |s| == 1 && s[0] !in body
  {
    BracketTokens(body);
    BracketTokens("!" + body);
    PlainIsProper(body);
    assert ("!" + body)[1..] == body;
    TokenMatches(Class(body), s);
    TokenMatches(Class("!" + body), s);
    if |s| == 1 {
      PlainMembers(body, s[0]);
    }
    hide Matches, FnTokens, Members, Proper, InRanges;
  }

  /** A hyphen between two members admits what lies between them; nothing if they stand
      the wrong way round. */
  lemma RangePattern(low: char, high: char, s: string)
    requires low != '!' && low != ']' && low != '-' && high != ']'
    ensures Matches(FnTokens("[" + [low, '-', high] + "]"), s) <==> |s| == 1 && low <= s[0] <= high
  {
    var body := [low, '-', high];
    BracketTokens(body);
    assert body[3..] == "" && Members("") == [];
    assert Members(body) == [Range(low, high)];
    assert [Range(low, high)][1..] == [] && Proper([]) == [];
    var ranges := Proper([Range(low, high)]);
    assert ranges == if low <= high then [Range(low, high)] else [];
    TokenMatches(Class(body), s);
    hide Matches, FnTokens, Members, Proper;
    if |s| == 1 {
      assert InRanges(s[0], ranges) <==> low <= s[0] <= high by {
        if low <= high {
          assert ranges[0] == Range(low, high);
        }
      }
    }
  }

  /** An exclamation mark that comes to stand in front because a backward range before
      it was taken out negates as well. */
  lemma LateNegation(low: char, high: char, rest: string, s: string)
    requires low > high && low != '!' && low != ']' && low != '-' && high != ']' && rest != ""
    requires '-' !in rest && ']' !in rest
    ensures Matches(FnTokens("[" + ([low, '-', high, '!'] + rest) + "]"), s) <==> |s| == 1 && s[0] !in rest
  {
    var body := [low, '-', high, '!'] + rest;
    BracketTokens(body);
    LateMembers(low, high, rest);
    TokenMatches(Class(body), s);
    hide Matches, FnTokens, Members, Proper, InRanges;
    assert body[0] != '!' && Class(body) == OneOf(true, Members(rest));
    if |s| == 1 {
      PlainMembers(rest, s[0]);
    }
  }

  lemma LateMembers(low: char, high: char, rest: string)
    requires low > high && rest != "" && '-' !in rest
    ensures var r := Proper(Members([low, '-', high, '!'] + rest));
      r != [] && r[0] == Range('!', '!') && r[1..] == Members(rest)
  {
    var body, tail := [low, '-', high, '!'] + rest, ['!'] + rest;
    assert body[3..] == tail && tail[1..] == rest && tail[1] == rest[0];
    RangeFirst(body);
    PlainFirst(tail);
    PlainIsProper(tail);
    hide Members;
    assert ([Range(low, high)] + Members(tail))[1..] == Members(tail);
    assert ([Range('!', '!')] + Members(rest))[1..] == Members(rest);
    assert [] + Proper(Members(tail)) == Proper(Members(tail));
  }

  lemma RangeFirst(body: string)
    requires |body| > 2 && body[1] == '-'
    ensures Members(body) == [Range(body[0], body[2])] + Members(body[3..])
  {
  }

  lemma PlainFirst(body: string)
    requires |body| > 1 && body[1] != '-'
    ensures Members(body) == [Range(body[0], body[0])] + Members(body[1..])
  {
  }

  lemma {:induction false} TokensOfSum(a: string, b: string)
    requires '[' !in a
    ensures FnTokens(a + b) == FnTokens(a) + FnTokens(b)
  {
    if a == "" {
      assert a + b == b;
    } else {
      assert (a + b)[1..] == a[1..] + b;
      TokensOfSum(a[1..], b);
    }
  }

  predicate OneBetween(a: string, b: string, s: string, k: nat) {
    k < |s| && Matches(FnTokens(a), s[..k]) && Matches(FnTokens(b), s[k + 1..])
  }

  predicate AnyBetween(a: string, b: string, s: string, j: nat, k: nat) {
    j <= k <= |s| && Matches(FnTokens(a), s[..j]) && Matches(FnTokens(b), s[k..])
  }

  /** A question mark stands for one character; what is before and behind it matches the
      rest. */
  lemma QuestionIsOne(a: string, b: string, s: string)
    requires '[' !in a
    ensures Matches(FnTokens(a + "?" + b), s) <==> exists k: nat :: OneBetween(a, b, s, k)
  {
    assert a + "?" + b == a + ("?" + b) && ("?" + b)[1..] == b;
    TokensOfSum(a, "?" + b);
    var front, back := FnTokens(a), [Any] + FnTokens(b);
    assert FnTokens("?" + b) == back;
    MatchesOfSum(front, back, s);
    forall k: nat | k <= |s| ensures SplitsAt(front, back, s, k) <==> OneBetween(a, b, s, k) {
      AnyFirst(FnTokens(b), s[k..]);
      assert k < |s| ==> s[k..][1..] == s[k + 1..];
      hide FnTokens, Matches;
    }
    hide FnTokens, Matches;
  }

  lemma AnyFirst(rest: seq<Token>, s: string)
    ensures Matches([Any] + rest, s) <==> s != "" && Matches(rest, s[1..])
  {
    assert ([Any] + rest)[1..] == rest;
  }

  /** A star stands for any number of characters. */
  lemma StarIsAny(a: string, b: string, s: string)
    requires '[' !in a
    ensures Matches(FnTokens(a + "*" + b), s) <==> exists j: nat, k: nat :: AnyBetween(a, b, s, j, k)
  {
    assert a + "*" + b == a + ("*" + b) && ("*" + b)[1..] == b;
    TokensOfSum(a, "*" + b);
    var front, back := FnTokens(a), [Star] + FnTokens(b);
    assert FnTokens("*" + b) == back;
    MatchesOfSum(front, back, s);
    hide FnTokens, Matches;
    if j: nat :| SplitsAt(front, back, s, j) {
      var i := StarFirst(FnTokens(b), s[j..]);
      assert s[j..][i..] == s[j + i..];
      assert AnyBetween(a, b, s, j, j + i);
    }
    if j: nat, k: nat :| AnyBetween(a, b, s, j, k) {
      assert s[j..][k - j..] == s[k..];
      StarTakes(FnTokens(b), s[j..], k - j);
      assert SplitsAt(front, back, s, j);
    }
  }

  lemma StarFirst(rest: seq<Token>, s: string) returns (i: nat)
    requires Matches([Star] + rest, s)
    ensures i <= |s| && Matches(rest, s[i..])
  {
    MatchesOfSum([Star], rest, s);
    hide Matches;
    i :| SplitsAt([Star], rest, s, i);
  }

  lemma StarTakes(rest: seq<Token>, s: string, i: nat)
    requires i <= |s| && Matches(rest, s[i..])
    ensures Matches([Star] + rest, s)
  {
    MatchesOfSum([Star], rest, s);
    TokenMatches(Star, s[..i]);
    hide Matches;
    assert SplitsAt([Star], rest, s, i);
  }
}
