/** Decimal numerals: how Go prints byte offsets and integers, and how Python
    reads an integer back. */
module Decimal {
  import opened Wrappers
  import opened Text

  predicate IsDigit(c: char) {
    '0' <= c <= '9'
  }

  predicate AllDigits(s: string) {
    forall i :: 0 <= i < |s| ==> IsDigit(s[i])
  }

  function DigitChar(d: nat): (c: char)
    requires d < 10
    ensures IsDigit(c) && DigitValue(c) == d
  {
    (d + 48) as char
  }

  function DigitValue(c: char): (d: nat)
    requires IsDigit(c)
    ensures d < 10
  {
    (c as int) - 48
  }

  function NatText(n: nat): (s: string)
    ensures s != "" && AllDigits(s)
  {
    if n < 10 then [DigitChar(n)] else NatText(n / 10) + [DigitChar(n % 10)]
  }

  function NatValue(s: string): nat
    requires AllDigits(s)
  {
    if s == "" then 0 else 10 * NatValue(s[..|s| - 1]) + DigitValue(s[|s| - 1])
  }

  lemma {:induction false} NatRoundTrip(n: nat)
    ensures NatValue(NatText(n)) == n
  {
    if n < 10 {
      assert NatText(n)[..0] == "";
      assert NatValue("") == 0;
    } else {
      NatRoundTrip(n / 10);
      assert NatText(n)[..|NatText(n)| - 1] == NatText(n / 10);
    }
  }

  function IntText(n: int): (s: string)
    ensures s != "" && (s[0] == '-' || IsDigit(s[0]))
  {
    if n < 0 then "-" + NatText(-n) else NatText(n)
  }

  /** strconv.ParseInt in base 10, without the range check. */
  function IntValue(s: string): Option<int> {
    var negative := s != "" && s[0] == '-';
    var digits := if negative then s[1..] else s;
    if digits == "" || !AllDigits(digits) then None
    else
      var n: int := NatValue(digits);
      Some(if negative then -n else n)
  }

  lemma IntValueRoundTrip(n: int)
    ensures IntValue(IntText(n)) == Some(n)
  {
    var m: nat := if n < 0 then -n else n;
    NatRoundTrip(m);
    assert n < 0 ==> IntText(n)[1..] == NatText(m);
  }

  /** The longest digit prefix. */
  function LeadingDigits(s: string): (r: string)
    ensures AllDigits(r) && r <= s
    ensures |r| < |s| ==> !IsDigit(s[|r|])
  {
    if s != "" && IsDigit(s[0]) then [s[0]] + LeadingDigits(s[1..]) else ""
  }

  lemma {:induction false} LeadingDigitsOf(digits: string, rest: string)
    requires AllDigits(digits)
    requires rest == "" || !IsDigit(rest[0])
    ensures LeadingDigits(digits + rest) == digits
  {
    if digits == "" {
      assert digits + rest == rest;
    } else {
      LeadingDigitsOf(digits[1..], rest);
      assert (digits + rest)[1..] == digits[1..] + rest;
    }
  }

  // ---- numerals with a fraction or an exponent -------------------------------

  function Pow10(k: nat): (p: nat)
    ensures p >= 1
  {
    if k == 0 then 1 else 10 * Pow10(k - 1)
  }

  /** x times ten to the e. */
  function Shift(x: real, e: int): real {
    if e >= 0 then x * (Pow10(e) as real) else x / (Pow10(-e) as real)
  }

  /** What stands behind the digits: an e, a sign and digits, or nothing. */
  function Exponent(t: string): int {
    if t == "" then 0
    else
      var u := t[1..];
      var digits := LeadingDigits(if u != "" && (u[0] == '+' || u[0] == '-') then u[1..] else u);
      var e: int := NatValue(digits);
      if u != "" && u[0] == '-' then -e else e
  }

  /** What the digits stand for with what comes behind them. */
  function Scaled(whole: string, rest: string): real
    requires AllDigits(whole)
  {
    if rest != "" && rest[0] == '.' then
      var fraction := LeadingDigits(rest[1..]);
      Shift(NatValue(whole + fraction) as real, Exponent(rest[1 + |fraction|..]) - |fraction|)
    else Shift(NatValue(whole) as real, Exponent(rest))
  }

  function Unsigned(t: string): real {
    var whole := LeadingDigits(t);
    Scaled(whole, t[|whole|..])
  }

  /** The number a numeral stands for. */
  function RealValue(tok: string): real {
    if tok != "" && tok[0] == '-' then -Unsigned(tok[1..]) else Unsigned(tok)
  }

  lemma RealOfInt(n: int)
    ensures RealValue(IntText(n)) == n as real
  {
    var m: nat := if n < 0 then -n else n;
    NatRoundTrip(m);
    var t := NatText(m);
    LeadingDigitsOf(t, "");
    assert t + "" == t && t[|t|..] == "";
    assert n < 0 ==> IntText(n)[1..] == t;
    assert Pow10(0) == 1;
    assert Shift(m as real, 0) == m as real;
    hide NatText, NatValue, LeadingDigits, Shift;
  }

  /** A numeral's parts put together; e is left out if zero, the point if nothing stands
      behind it. */
  function Numeral(negative: bool, whole: string, fraction: string, e: int): string {
    (if negative then "-" else "") + (whole + (FractionText(fraction) + ExponentText(e)))
  }

  function FractionText(fraction: string): string {
    if fraction == "" then "" else "." + fraction
  }

  function ExponentText(e: int): string {
    if e == 0 then "" else "e" + IntText(e)
  }

  lemma ExponentReads(e: int)
    ensures Exponent(ExponentText(e)) == e
    ensures ExponentText(e) == "" || !(IsDigit(ExponentText(e)[0]) || ExponentText(e)[0] == '.')
  {
    var n: nat := if e < 0 then -e else e;
    var digits := NatText(n);
    NatRoundTrip(n);
    LeadingDigitsOf(digits, "");
    assert digits + "" == digits && IsDigit(digits[0]);
    assert ("-" + digits)[1..] == digits;
    assert e != 0 ==> ExponentText(e)[1..] == IntText(e);
    hide NatText, NatValue, LeadingDigits, AllDigits;
  }

  lemma DigitsOfSum(a: string, b: string)
    requires AllDigits(a) && AllDigits(b)
    ensures AllDigits(a + b)
  {
  }

  lemma SliceBehind(a: string, b: string)
    ensures (a + b)[|a|..] == b
  {
  }

  lemma PointSlices(fraction: string, rest: string)
    ensures var t := "." + fraction + rest; t[0] == '.' && t[1..] == fraction + rest && t[1 + |fraction|..] == rest
  {
  }

  lemma WithPoint(whole: string, fraction: string, rest: string)
    requires AllDigits(whole) && AllDigits(whole + fraction) && LeadingDigits(fraction + rest) == fraction
    ensures Scaled(whole, "." + fraction + rest) == Shift(NatValue(whole + fraction) as real, Exponent(rest) - |fraction|)
  {
    PointSlices(fraction, rest);
    hide LeadingDigits, NatValue, Shift, Exponent, AllDigits;
  }

  lemma WithoutPoint(whole: string, rest: string)
    requires AllDigits(whole) && (rest == "" || rest[0] != '.')
    ensures Scaled(whole, rest) == Shift(NatValue(whole) as real, Exponent(rest))
  {
    hide NatValue, Shift, Exponent, AllDigits;
  }

  lemma NothingBehind(whole: string, rest: string)
    ensures whole + "" == whole && "" + rest == rest
    ensures FractionText("") == ""
  {
  }

  lemma NoFractionReads(whole: string, e: int)
    requires AllDigits(whole)
    ensures Scaled(whole, ExponentText(e)) == Shift(NatValue(whole) as real, e)
  {
    hide *;
    ExponentReads(e);
    WithoutPoint(whole, ExponentText(e));
  }

  lemma SomeFractionReads(whole: string, fraction: string, e: int)
    requires AllDigits(whole) && AllDigits(fraction) && AllDigits(whole + fraction)
    ensures Scaled(whole, "." + fraction + ExponentText(e)) == Shift(NatValue(whole + fraction) as real, e - |fraction|)
  {
    hide *;
    ExponentReads(e);
    LeadingDigitsOf(fraction, ExponentText(e));
    WithPoint(whole, fraction, ExponentText(e));
  }

  lemma FractionReads(whole: string, fraction: string, e: int)
    requires AllDigits(whole) && AllDigits(fraction) && AllDigits(whole + fraction)
    ensures Scaled(whole, FractionText(fraction) + ExponentText(e))
         == Shift(NatValue(whole + fraction) as real, e - |fraction|)
  {
    hide AllDigits, Scaled, Shift, ExponentText, NatValue;
    if fraction == "" {
      NothingBehind(whole, ExponentText(e));
      NoFractionReads(whole, e);
      assert e - |fraction| == e;
      assert whole + fraction == whole;
    } else {
      SomeFractionReads(whole, fraction, e);
    }
  }

  lemma TailIsNoDigit(fraction: string, e: int)
    ensures var t := FractionText(fraction) + ExponentText(e); t == "" || !IsDigit(t[0])
  {
    ExponentReads(e);
    hide Exponent, ExponentText;
  }

  lemma WholePartReads(whole: string, rest: string)
    requires whole != "" && AllDigits(whole) && (rest == "" || !IsDigit(rest[0]))
    ensures Unsigned(whole + rest) == Scaled(whole, rest)
    ensures whole + rest != "" && (whole + rest)[0] != '-'
  {
    LeadingDigitsOf(whole, rest);
    SliceBehind(whole, rest);
    assert (whole + rest)[0] == whole[0] && IsDigit(whole[0]);
    hide LeadingDigits, Scaled, AllDigits;
  }

  lemma SignReads(t: string)
    requires t != "" && t[0] != '-'
    ensures RealValue("" + t) == Unsigned(t) && RealValue("-" + t) == -Unsigned(t)
  {
    assert "" + t == t && ("-" + t)[1..] == t;
    hide Unsigned;
  }

  /** A numeral stands for its digits, the point and the exponent each moving them by
      powers of ten. */
  lemma RealOfNumeral(negative: bool, whole: string, fraction: string, e: int)
    requires whole != "" && AllDigits(whole) && AllDigits(fraction)
    ensures AllDigits(whole + fraction)
    ensures var x := Shift(NatValue(whole + fraction) as real, e - |fraction|);
      RealValue(Numeral(negative, whole, fraction, e)) == if negative then -x else x
  {
    DigitsOfSum(whole, fraction);
    var rest := FractionText(fraction) + ExponentText(e);
    assert Numeral(negative, whole, fraction, e) == (if negative then "-" else "") + (whole + rest);
    hide *;
    FractionReads(whole, fraction, e);
    TailIsNoDigit(fraction, e);
    WholePartReads(whole, rest);
    SignReads(whole + rest);
  }

  lemma OneTenthIs()
    ensures Numeral(false, "0", "1", 0) == "0.1" && AllDigits("0") && AllDigits("1") && AllDigits("01")
    ensures NatValue("01") == 1 && Shift(1.0, -1) == 0.1
  {
    assert "" + ("0" + ("." + "1" + "")) == "0.1";
    assert "01"[..1] == "0" && "0"[..0] == "";
    assert NatValue("0") == 0;
    assert Pow10(1) == 10;
  }

  lemma RealOfOneTenth()
    ensures RealValue("0.1") == 0.1
  {
    hide *;
    OneTenthIs();
    assert "0" + "1" == "01" && 0 - |"1"| == -1;
    RealOfNumeral(false, "0", "1", 0);
  }

  // ---- Python's int(str) ----------------------------------------------------

  /** Digit groups joined by single underscores. */
  predicate DigitGroups(s: string) {
    && s != ""
    && IsDigit(s[0])
    && IsDigit(s[|s| - 1])
    && (forall i :: 0 <= i < |s| ==> IsDigit(s[i]) || s[i] == '_')
    && (forall i :: 0 < i < |s| ==> s[i] == '_' ==> s[i - 1] != '_')
  }

  function DropUnderscores(s: string): (r: string)
    requires forall i :: 0 <= i < |s| ==> IsDigit(s[i]) || s[i] == '_'
    ensures AllDigits(r)
    ensures AllDigits(s) ==> r == s
  {
    if s == "" then ""
    else if s[0] == '_' then DropUnderscores(s[1..])
    else [s[0]] + DropUnderscores(s[1..])
  }

  /** int(s): surrounding whitespace, one sign and underscores between digits
      are accepted; anything else is a ValueError. */
  function PyInt(s: string): Option<int> {
    var t := Strip(s);
    if t == "" then None
    else
      var signed := t[0] == '-' || t[0] == '+';
      var body := if signed then t[1..] else t;
      if !DigitGroups(body) then None
      else
        var n: int := NatValue(DropUnderscores(body));
        Some(if t[0] == '-' then -n else n)
  }

  lemma GroupsStep(head: string, tail: string)
    requires '_' !in head
    ensures DigitGroups(head + "_" + tail) <==> head != "" && AllDigits(head) && DigitGroups(tail)
  {
    hide *;
    if DigitGroups(head + "_" + tail) {
      HeadIsDigits(head, tail);
      TailIsGroups(head, tail);
    } else if head != "" && AllDigits(head) && DigitGroups(tail) {
      GroupsJoin(head, tail);
    }
  }

  lemma HeadIsDigits(head: string, tail: string)
    requires '_' !in head && DigitGroups(head + "_" + tail)
    ensures head != "" && AllDigits(head)
  {
    var s := head + "_" + tail;
    assert s[|head|] == '_';
    forall i | 0 <= i < |head| ensures IsDigit(head[i]) {
      assert s[i] == head[i] && head[i] in head;
    }
  }

  lemma TailIsGroups(head: string, tail: string)
    requires DigitGroups(head + "_" + tail)
    ensures DigitGroups(tail)
  {
    var s, n := head + "_" + tail, |head| + 1;
    assert s[n - 1] == '_' && s[|s| - 1] != '_';
    assert tail != "" && s[n] == tail[0] && s[|s| - 1] == tail[|tail| - 1];
    forall i | 0 <= i < |tail| ensures (IsDigit(tail[i]) || tail[i] == '_') && (i > 0 && tail[i] == '_' ==> tail[i - 1] != '_') {
      assert s[n + i] == tail[i];
      assert i > 0 ==> s[n + i - 1] == tail[i - 1];
    }
  }

  lemma GroupsJoin(head: string, tail: string)
    requires head != "" && AllDigits(head) && DigitGroups(tail)
    ensures DigitGroups(head + "_" + tail)
  {
    var s, n := head + "_" + tail, |head|;
    assert s[0] == head[0] && s[|s| - 1] == tail[|tail| - 1];
    forall i | 0 <= i < |s| ensures (IsDigit(s[i]) || s[i] == '_') && (i > 0 && s[i] == '_' ==> s[i - 1] != '_') {
      if i < n {
        assert s[i] == head[i];
      } else if i == n {
        assert s[i] == '_' && s[i - 1] == head[i - 1];
      } else {
        assert s[i] == tail[i - n - 1];
        if i > n + 1 {
          assert s[i - 1] == tail[i - n - 2];
        }
      }
    }
  }

  /** Digit groups are what stands between the underscores: each of them digits, none
      empty. */
  lemma {:induction false} DigitGroupsIff(s: string)
    ensures DigitGroups(s) <==> forall p :: p in Split(s, '_') ==> p != "" && AllDigits(p)
  {
    hide *;
    SplitsOnce(s);
    if '_' !in s {
      OneGroup(s);
      assert s in [s] && forall p :: p in [s] ==> p == s;
    } else {
      var head := Before(s, '_');
      var tail := s[|head| + 1..];
      GroupsStep(head, tail);
      DigitGroupsIff(tail);
      assert head in [head] + Split(tail, '_') && forall p :: p in Split(tail, '_') ==> p in [head] + Split(tail, '_');
    }
  }

  lemma SplitsOnce(s: string)
    ensures '_' !in s ==> Split(s, '_') == [s]
    ensures '_' in s ==> var head := Before(s, '_'); var tail := s[|head| + 1..];
      s == head + "_" + tail && Split(s, '_') == [head] + Split(tail, '_')
  {
  }

  lemma OneGroup(s: string)
    requires '_' !in s
    ensures DigitGroups(s) <==> s != "" && AllDigits(s)
  {
    if AllDigits(s) && s != "" {
      assert IsDigit(s[0]) && IsDigit(s[|s| - 1]);
    }
    if DigitGroups(s) {
      forall i | 0 <= i < |s| ensures IsDigit(s[i]) {
        assert s[i] in s;
      }
    }
  }

  /** Every plain numeral is one int accepts, with the same value. */
  lemma NumeralsArePyInts(s: string)
    ensures IntValue(s).Some? ==> PyInt(s) == IntValue(s)
  {
    hide *;
    if IntValue(s).Some? {
      var digits := NumeralDigits(s);
      StripIsIdentity(s);
      DigitsAreGroups(digits);
      PyIntReads(s, digits);
    }
  }

  lemma NumeralDigits(s: string) returns (digits: string)
    requires IntValue(s).Some?
    ensures s != "" && digits == (if s[0] == '-' then s[1..] else s) && digits != "" && AllDigits(digits)
    ensures IntValue(s) == Some(if s[0] == '-' then -(NatValue(digits) as int) else NatValue(digits))
    ensures s[0] != '+' && Stripped(s)
  {
    digits := if s[0] == '-' then s[1..] else s;
    assert IsDigit(digits[0]) && IsDigit(digits[|digits| - 1]) && s[|s| - 1] == digits[|digits| - 1];
    hide NatValue, AllDigits;
  }

  lemma DigitsAreGroups(digits: string)
    requires digits != "" && AllDigits(digits)
    ensures DigitGroups(digits) && DropUnderscores(digits) == digits
  {
    hide DropUnderscores;
  }

  lemma PyIntReads(s: string, digits: string)
    requires s != "" && Strip(s) == s && s[0] != '+' && digits == (if s[0] == '-' then s[1..] else s)
    requires DigitGroups(digits) && AllDigits(digits) && DropUnderscores(digits) == digits
    ensures PyInt(s) == Some(if s[0] == '-' then -(NatValue(digits) as int) else NatValue(digits))
  {
    hide NatValue, DropUnderscores, DigitGroups, Strip, AllDigits;
  }
}
