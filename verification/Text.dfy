/** ASCII string helpers: the whitespace, case and splitting operations the
    Go and Python sources rely on. */
module Text {

  predicate IsSpace(c: char) {
    c == ' ' || '\t' <= c <= '\r'
  }

  function StripLeft(s: string): (r: string)
    ensures r == "" || !IsSpace(r[0])
    ensures |r| <= |s|
    ensures forall c :: c in r ==> c in s
  {
    if s != "" && IsSpace(s[0]) then StripLeft(s[1..]) else s
  }

  function StripRight(s: string): (r: string)
    ensures r == "" || !IsSpace(r[|r| - 1])
    ensures r <= s
  {
    if s != "" && IsSpace(s[|s| - 1]) then StripRight(s[..|s| - 1]) else s
  }

  function Strip(s: string): (r: string)
    ensures Stripped(r)
    ensures forall c :: c in r ==> c in s
  {
    var left := StripLeft(s);
    var r := StripRight(left);
    assert r != "" ==> r[0] == left[0];
    r
  }

  /** No whitespace at either end. */
  predicate Stripped(s: string) {
    s == "" || (!IsSpace(s[0]) && !IsSpace(s[|s| - 1]))
  }

  lemma StripIsIdentity(s: string)
    requires Stripped(s)
    ensures Strip(s) == s
  {
  }

  function LowerChar(c: char): (r: char)
    ensures !('A' <= r <= 'Z')
    ensures IsSpace(r) <==> IsSpace(c)
  {
    if 'A' <= c <= 'Z' then ((c as int) + 32) as char else c
  }

  /** An upper-case letter becomes the lower-case one at its place in the alphabet. */
  lemma LetterKeepsItsPlace(c: char)
    requires 'A' <= c <= 'Z'
    ensures 'a' <= LowerChar(c) <= 'z'
    ensures (LowerChar(c) as int) - ('a' as int) == (c as int) - ('A' as int)
  {
  }

  function Lower(s: string): (r: string)
    ensures |r| == |s|
    ensures forall i :: 0 <= i < |s| ==> r[i] == LowerChar(s[i])
  {
    if s == "" then "" else [LowerChar(s[0])] + Lower(s[1..])
  }

  /** Everything before the first `sep`, or the whole string. */
  function Before(s: string, sep: char): (r: string)
    ensures sep !in r && r <= s
    ensures sep !in s ==> r == s
    ensures sep in s ==> |r| < |s| && s[|r|] == sep
  {
    if s == "" || s[0] == sep then "" else [s[0]] + Before(s[1..], sep)
  }

  /** Everything after the last `sep`, or the whole string. */
  function AfterLast(s: string, sep: char): (r: string)
    ensures sep !in r && |r| <= |s|
    ensures sep !in s ==> r == s
  {
    if s == "" || s[|s| - 1] == sep then ""
    else AfterLast(s[..|s| - 1], sep) + [s[|s| - 1]]
  }

  /** The fields between separators: always at least one. */
  function Split(s: string, sep: char): (r: seq<string>)
    ensures |r| >= 1
    ensures forall p :: p in r ==> sep !in p
  {
    if sep !in s then [s]
    else
      var head := Before(s, sep);
      [head] + Split(s[|head| + 1..], sep)
  }

  /** `needle` occurs somewhere in `s`. */
  ghost predicate Contains(s: string, needle: string) {
    exists i :: 0 <= i <= |s| && needle <= s[i..]
  }

  // ---- how the helpers interact ----------------------------------------------

  predicate AllSpace(s: string) {
    forall i :: 0 <= i < |s| ==> IsSpace(s[i])
  }

  lemma {:induction false} StripLeftOfPadded(l: string, m: string)
    requires AllSpace(l)
    ensures StripLeft(l + m) == StripLeft(m)
  {
    if l == "" {
      assert l + m == m;
    } else {
      StripLeftOfPadded(l[1..], m);
      assert (l + m)[1..] == l[1..] + m;
    }
  }

  lemma {:induction false} StripRightOfPadded(m: string, r: string)
    requires AllSpace(r)
    ensures StripRight(m + r) == StripRight(m)
  {
    if r == "" {
      assert m + r == m;
    } else {
      var n := |r| - 1;
      StripRightOfPadded(m, r[..n]);
      assert (m + r)[..|m + r| - 1] == m + r[..n];
    }
  }

  /** The whitespace at the two ends. */
  lemma StripSplits(s: string) returns (l: string, r: string)
    ensures AllSpace(l) && AllSpace(r) && s == l + Strip(s) + r
  {
    l := StripLeftSplits(s);
    r := StripRightSplits(StripLeft(s));
  }

  lemma {:induction false} StripLeftSplits(s: string) returns (l: string)
    ensures AllSpace(l) && s == l + StripLeft(s)
  {
    if s != "" && IsSpace(s[0]) {
      l := StripLeftSplits(s[1..]);
      l := [s[0]] + l;
    } else {
      l := "";
    }
  }

  lemma {:induction false} StripRightSplits(s: string) returns (r: string)
    ensures AllSpace(r) && s == StripRight(s) + r
  {
    if s != "" && IsSpace(s[|s| - 1]) {
      r := StripRightSplits(s[..|s| - 1]);
      r := r + [s[|s| - 1]];
    } else {
      r := "";
    }
  }

  /** Nothing is left of a text iff it is all blanks, tabs, line feeds, vertical tabs,
      form feeds and carriage returns. */
  lemma BlankIff(s: string)
    ensures Strip(s) == "" <==> AllSpace(s)
    ensures Strip(s) == "" <==> forall c :: c in s ==> c as int in {32, 9, 10, 11, 12, 13}
  {
    if AllSpace(s) {
      assert forall c :: c in s ==> IsSpace(c);
    } else {
      var i :| 0 <= i < |s| && !IsSpace(s[i]);
      assert s[i] in s;
    }
    var l, r := StripSplits(s);
    if AllSpace(s) {
      StripRightOfPadded("", s);
      StripLeftOfPadded(s, "");
      assert s + "" == s && "" + s == s;
    }
  }

  lemma {:induction false} StripOfPadded(l: string, m: string, r: string)
    requires AllSpace(l) && AllSpace(r)
    ensures Strip(l + m + r) == Strip(m)
  {
    StripLeftOfPadded(l, m + r);
    assert l + m + r == l + (m + r);
    var r' := StripLeftSplits(m);
    if StripLeft(m) == "" {
      assert m + r == r' + r;
      StripLeftOfPadded(r' + r, "");
      assert r' + r + "" == m + r;
    } else {
      StripLeftOfPadded(r', StripLeft(m) + r);
      assert r' + (StripLeft(m) + r) == m + r;
      assert StripLeft(StripLeft(m) + r) == StripLeft(m) + r;
      StripRightOfPadded(StripLeft(m), r);
    }
  }

  lemma {:induction false} LowerIsIdempotent(s: string)
    ensures Lower(Lower(s)) == Lower(s)
  {
  }

  lemma LowerOfSum(a: string, b: string)
    ensures Lower(a + b) == Lower(a) + Lower(b)
  {
  }

  lemma StripOfLower(s: string)
    ensures Strip(Lower(s)) == Lower(Strip(s))
  {
    var l, r := StripSplits(s);
    var m := Strip(s);
    LowerOfSum(l, m);
    LowerOfSum(l + m, r);
    StripOfPadded(Lower(l), Lower(m), Lower(r));
    StripIsIdentity(Lower(m));
  }

  predicate IsLetter(c: char) {
    'A' <= c <= 'Z' || 'a' <= c <= 'z'
  }

  lemma {:induction false} BeforeOfLower(s: string, sep: char)
    requires !IsLetter(sep)
    ensures Before(Lower(s), sep) == Lower(Before(s, sep))
    ensures sep in Lower(s) <==> sep in s
  {
    if s != "" {
      BeforeOfLower(s[1..], sep);
      assert Lower(s)[1..] == Lower(s[1..]);
      assert LowerChar(s[0]) == sep <==> s[0] == sep;
      assert sep in s <==> s[0] == sep || sep in s[1..];
      assert sep in Lower(s) <==> Lower(s)[0] == sep || sep in Lower(s)[1..];
    }
  }

  lemma {:induction false} AfterLastOfLower(s: string, sep: char)
    requires !IsLetter(sep)
    ensures AfterLast(Lower(s), sep) == Lower(AfterLast(s, sep))
  {
    if s != "" {
      var t, c := s[..|s| - 1], s[|s| - 1];
      LowerOfLast(s);
      hide Lower;
      assert LowerChar(c) == sep <==> c == sep;
      hide LowerChar;
      AfterLastUnfolds(Lower(s), sep);
      AfterLastUnfolds(s, sep);
      hide AfterLast;
      if c != sep {
        AfterLastOfLower(t, sep);
        LowerOfSum(AfterLast(t, sep), [c]);
        LowerOfOne(c);
      }
    }
  }

  lemma LowerOfOne(c: char)
    ensures Lower([c]) == [LowerChar(c)]
  {
  }

  lemma LowerOfLast(s: string)
    requires s != ""
    ensures Lower(s)[..|s| - 1] == Lower(s[..|s| - 1])
    ensures Lower(s)[|s| - 1] == LowerChar(s[|s| - 1])
  {
    hide Lower;
  }

  lemma {:induction false} BeforeOfSum(a: string, sep: char, b: string)
    requires sep !in a
    ensures Before(a + [sep] + b, sep) == a
  {
    if a != "" {
      assert (a + [sep] + b)[1..] == a[1..] + [sep] + b;
      BeforeOfSum(a[1..], sep, b);
    }
  }

  lemma {:induction false} AfterLastOfSum(a: string, sep: char, b: string)
    ensures AfterLast(a + [sep] + b, sep) == AfterLast(b, sep)
  {
    var s := a + [sep] + b;
    AfterLastUnfolds(s, sep);
    AfterLastUnfolds(b, sep);
    hide AfterLast;
    if b != "" && b[|b| - 1] != sep {
      assert s[..|s| - 1] == a + [sep] + b[..|b| - 1];
      AfterLastOfSum(a, sep, b[..|b| - 1]);
    } else {
      assert s[|s| - 1] == sep;
    }
  }

  lemma AfterLastUnfolds(s: string, sep: char)
    ensures AfterLast(s, sep)
         == if s == "" || s[|s| - 1] == sep then "" else AfterLast(s[..|s| - 1], sep) + [s[|s| - 1]]
  {
  }
}
