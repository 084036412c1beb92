/** JSON text as Go's encoding/json writes and reads it.

    A byte string is a `string` with one char per byte, so string lengths are
    byte counts. Strings are taken to hold valid UTF-8. */
module Json {
  import opened Wrappers
  import opened Decimal

  /** `JNum` keeps the numeral's text: which float it denotes is the caller's
      business. */
  datatype Json =
    | JNull
    | JBool(b: bool)
    | JNum(numeral: string)
    | JStr(text: string)
    | JArr(items: seq<Json>)
    | JObj(members: seq<Member>)

  datatype Member = Member(key: string, val: Json)

  // ---- strings --------------------------------------------------------------

  predicate NoControl(s: string) {
    forall i :: 0 <= i < |s| ==> s[i] >= ' '
  }

  function HexChar(d: nat): (c: char)
    requires d < 16
    ensures c >= ' ' && HexValue(c) == Some(d)
  {
    if d < 10 then (d + 48) as char else (d + 87) as char
  }

  function HexValue(c: char): (r: Option<nat>)
    ensures r.Some? ==> r.value < 16
  {
    if '0' <= c <= '9' then Some((c as int) - 48)
    else if 'a' <= c <= 'f' then Some((c as int) - 87)
    else if 'A' <= c <= 'F' then Some((c as int) - 55)
    else None
  }

  /** One byte of a string literal. Control characters, the quote, the
      backslash and the HTML characters are escaped. */
  function EscapeChar(c: char): (r: string)
    ensures r != "" && NoControl(r)
  {
    if c == '"' then "\\\""
    else if c == '\\' then "\\\\"
    else if c == '\n' then "\\n"
    else if c == '\r' then "\\r"
    else if c == '\t' then "\\t"
    else if (c as int) == 8 then "\\b"
    else if (c as int) == 12 then "\\f"
    else if c < ' ' || c == '<' || c == '>' || c == '&' then
      "\\u00" + [HexChar((c as int) / 16), HexChar((c as int) % 16)]
    else [c]
  }

  /** U+2028 and U+2029 in UTF-8: the two line separators Go also escapes. */
  predicate AtLineSeparator(s: string) {
    |s| >= 3 && s[0] as int == 0xE2 && s[1] as int == 0x80
    && (s[2] as int == 0xA8 || s[2] as int == 0xA9)
  }

  /** The escape of U+2028 or U+2029, behind its backslash. */
  function SeparatorEscape(last: nat): (r: string)
    requires last == 8 || last == 9
    ensures |r| == 5 && NoControl(r)
  {
    if last == 8 then "u2028" else "u2029"
  }

  function Escape(s: string): (r: string)
    ensures NoControl(r)
  {
    if s == "" then ""
    else if AtLineSeparator(s) then
      "\\" + SeparatorEscape(s[2] as int - 0xA0) + Escape(s[3..])
    else EscapeChar(s[0]) + Escape(s[1..])
  }

  function Quote(s: string): (r: string)
    ensures r != "" && NoControl(r)
  {
    "\"" + Escape(s) + "\""
  }

  /** The value of four hexadecimal digits at the front of `s`. */
  function Hex4(s: string): (r: Option<nat>)
    ensures r.Some? ==> |s| >= 4 && r.value < 0x10000
  {
    if |s| < 4 then None
    else
      match (HexValue(s[0]), HexValue(s[1]), HexValue(s[2]), HexValue(s[3]))
      case (Some(a), Some(b), Some(c), Some(d)) => Some(4096 * a + 256 * b + 16 * c + d)
      case _ => None
  }

  predicate IsSurrogate(code: nat) {
    0xD800 <= code < 0xE000
  }

  /** UTF-8 of a code point (section 3 of RFC 3629). */
  function Utf8(code: nat): string
    requires code < 0x110000
  {
    if code < 0x80 then [code as char]
    else if code < 0x800 then [(0xC0 + code / 64) as char, (0x80 + code % 64) as char]
    else if code < 0x10000 then
      [(0xE0 + code / 4096) as char, (0x80 + code / 64 % 64) as char, (0x80 + code % 64) as char]
    else
      [(0xF0 + code / 262144) as char, (0x80 + code / 4096 % 64) as char,
       (0x80 + code / 64 % 64) as char, (0x80 + code % 64) as char]
  }

  /** What one to four bytes of UTF-8 stand for, by the table in section 3 of RFC 3629. */
  function CodePoint(s: string): int
    requires 1 <= |s| <= 4
  {
    if |s| == 1 then s[0] as int
    else if |s| == 2 then (s[0] as int - 0xC0) * 64 + (s[1] as int - 0x80)
    else if |s| == 3 then (s[0] as int - 0xE0) * 4096 + (s[1] as int - 0x80) * 64 + (s[2] as int - 0x80)
    else (s[0] as int - 0xF0) * 262144 + (s[1] as int - 0x80) * 4096 + (s[2] as int - 0x80) * 64 + (s[3] as int - 0x80)
  }

  /** A code point is written in as few bytes as there can be, and those stand for it. */
  lemma Utf8RoundTrip(code: nat)
    requires code < 0x110000
    ensures var s := Utf8(code);
      && |s| == (if code < 128 then 1 else if code < 2048 then 2 else if code < 65536 then 3 else 4)
      && CodePoint(s) == code
      && forall i :: 1 <= i < |s| ==> 0x80 <= s[i] as int < 0xC0
  {
    var low, mid, high := code % 64, code / 64 % 64, code / 4096 % 64;
    DigitsBase64(code);
    var s := Utf8(code);
    if code < 0x80 {
    } else if code < 0x800 {
      assert s[0] as int == 0xC0 + code / 64 && s[1] as int == 0x80 + low;
    } else if code < 0x10000 {
      assert s[0] as int == 0xE0 + code / 4096 && s[1] as int == 0x80 + mid && s[2] as int == 0x80 + low;
    } else {
      assert s[0] as int == 0xF0 + code / 262144 && s[1] as int == 0x80 + high;
      assert s[2] as int == 0x80 + mid && s[3] as int == 0x80 + low;
    }
    hide Utf8;
  }

  lemma DigitsBase64(code: nat)
    ensures code == 64 * (code / 64) + code % 64
    ensures code / 64 == 64 * (code / 4096) + code / 64 % 64
    ensures code / 4096 == 64 * (code / 262144) + code / 4096 % 64
  {
  }

  /** The text after a backslash-u: the decoded bytes and what is left. A lone
      surrogate becomes U+FFFD; a high-low pair is one code point. */
  function ParseUnicode(s: string): (r: Option<(string, string)>)
    ensures r.Some? ==> |r.value.1| < |s|
  {
    match Hex4(s)
    case None => None
    case Some(code) =>
      var rest := s[4..];
      if !IsSurrogate(code) then Some((Utf8(code), rest))
      else if code < 0xDC00 && "\\u" <= rest && Hex4(rest[2..]).Some?
              && 0xDC00 <= Hex4(rest[2..]).value < 0xE000 then
        Some((Utf8(0x10000 + 1024 * (code - 0xD800) + (Hex4(rest[2..]).value - 0xDC00)), rest[6..]))
      else Some((Utf8(0xFFFD), rest))
  }

  /** The text after a backslash. */
  function ParseEscape(s: string): (r: Option<(string, string)>)
    ensures r.Some? ==> |r.value.1| < |s|
  {
    if s == "" then None
    else match s[0]
      case '"' => Some(("\"", s[1..]))
      case '\\' => Some(("\\", s[1..]))
      case '/' => Some(("/", s[1..]))
      case 'n' => Some(("\n", s[1..]))
      case 'r' => Some(("\r", s[1..]))
      case 't' => Some(("\t", s[1..]))
      case 'b' => Some(([8 as char], s[1..]))
      case 'f' => Some(([12 as char], s[1..]))
      case 'u' => ParseUnicode(s[1..])
      case _ => None
  }

  /** The text after an opening quote, up to and including the closing one. */
  function ParseChars(s: string): (r: Option<(string, string)>)
    ensures r.Some? ==> |r.value.1| < |s|
    decreases |s|
  {
    if s == "" || s[0] < ' ' then None
    else if s[0] == '"' then Some(("", s[1..]))
    else if s[0] == '\\' then
      match ParseEscape(s[1..])
      case None => None
      case Some((head, rest)) =>
        match ParseChars(rest)
        case None => None
        case Some((tail, rest')) => Some((head + tail, rest'))
    else
      match ParseChars(s[1..])
      case None => None
      case Some((tail, rest')) => Some(([s[0]] + tail, rest'))
  }

  /** Whether a byte is written with a backslash. */
  predicate IsEscaped(c: char) {
    c < ' ' || c == '"' || c == '\\' || c == '<' || c == '>' || c == '&'
  }

  lemma EscapeParses(c: char, tail: string)
    requires IsEscaped(c)
    ensures EscapeChar(c)[0] == '\\'
    ensures ParseEscape(EscapeChar(c)[1..] + tail) == Some(([c], tail))
  {
    if |EscapeChar(c)| <= 2 {
      hide ParseUnicode;
      assert (EscapeChar(c)[1..] + tail)[1..] == tail;
    }
  }

  lemma ParseCharsEnd(rest: string)
    ensures ParseChars("\"" + rest) == Some(("", rest))
  {
    assert ("\"" + rest)[1..] == rest;
  }

  lemma ParseCharsPlain(c: char, tail: string, t: string, rest: string)
    requires !IsEscaped(c)
    requires ParseChars(tail) == Some((t, rest))
    ensures ParseChars([c] + tail) == Some(([c] + t, rest))
  {
    assert ([c] + tail)[1..] == tail;
  }

  lemma ParseCharsEscape(s: string, head: string, tail: string, t: string, rest: string)
    requires s != "" && s[0] == '\\'
    requires ParseEscape(s[1..]) == Some((head, tail))
    requires ParseChars(tail) == Some((t, rest))
    ensures ParseChars(s) == Some((head + t, rest))
  {
  }

  lemma SeparatorParses(last: nat, tail: string)
    requires last == 8 || last == 9
    ensures ParseEscape(SeparatorEscape(last) + tail)
         == Some(([0xE2 as char, 0x80 as char, (0xA0 + last) as char], tail))
  {
    assert (SeparatorEscape(last) + tail)[1..] == [HexChar(2), HexChar(0), HexChar(2), HexChar(last)] + tail;
  }

  /** Every char stands for one byte. */
  predicate IsBytes(s: string) {
    forall i :: 0 <= i < |s| ==> (s[i] as int) < 256
  }

  lemma {:induction false} CharsRoundTrip(s: string, rest: string)
    requires IsBytes(s)
    ensures ParseChars(Escape(s) + "\"" + rest) == Some((s, rest))
    decreases s, 1
  {
    if s == "" {
      ParseCharsEnd(rest);
      assert Escape(s) + "\"" + rest == "\"" + rest;
    } else if AtLineSeparator(s) {
      SeparatorCharsRoundTrip(s, rest);
    } else {
      CharsRoundTrip(s[1..], rest);
      assert Escape(s) == EscapeChar(s[0]) + Escape(s[1..]);
      hide Escape, EscapeChar, ParseEscape, ParseChars;
      var tail := Escape(s[1..]) + "\"" + rest;
      Append3(EscapeChar(s[0]), Escape(s[1..]), "\"");
      Append3(EscapeChar(s[0]), Escape(s[1..]) + "\"", rest);
      OneCharParses(s[0], tail, s[1..], rest);
      assert s == [s[0]] + s[1..];
    }
  }

  lemma OneCharParses(c: char, tail: string, t: string, rest: string)
    requires ParseChars(tail) == Some((t, rest))
    ensures ParseChars(EscapeChar(c) + tail) == Some(([c] + t, rest))
  {
    hide ParseEscape, ParseChars;
    if IsEscaped(c) {
      EscapeParses(c, tail);
      assert (EscapeChar(c) + tail)[1..] == EscapeChar(c)[1..] + tail;
      ParseCharsEscape(EscapeChar(c) + tail, [c], tail, t, rest);
    } else {
      ParseCharsPlain(c, tail, t, rest);
    }
  }

  lemma {:induction false} SeparatorCharsRoundTrip(s: string, rest: string)
    requires IsBytes(s) && AtLineSeparator(s)
    ensures ParseChars(Escape(s) + "\"" + rest) == Some((s, rest))
    decreases s, 0
  {
    CharsRoundTrip(s[3..], rest);
    var last: nat := s[2] as int - 0xA0;
    var separator := [0xE2 as char, 0x80 as char, (0xA0 + last) as char];
    assert s == separator + s[3..];
    assert Escape(s) == "\\" + SeparatorEscape(last) + Escape(s[3..]);
    hide SeparatorEscape, Escape, ParseChars, ParseEscape, AtLineSeparator, IsBytes;
    var tail := Escape(s[3..]) + "\"" + rest;
    SeparatorParses(last, tail);
    OneEscapeParses(SeparatorEscape(last), separator, tail, s[3..], rest);
    Append3("\\" + SeparatorEscape(last), Escape(s[3..]), "\"");
    Append3("\\" + SeparatorEscape(last), Escape(s[3..]) + "\"", rest);
  }

  lemma OneEscapeParses(body: string, head: string, tail: string, t: string, rest: string)
    requires ParseEscape(body + tail) == Some((head, tail))
    requires ParseChars(tail) == Some((t, rest))
    ensures ParseChars("\\" + body + tail) == Some((head + t, rest))
  {
    hide ParseEscape, ParseChars;
    var s := "\\" + body + tail;
    assert s[1..] == body + tail;
    ParseCharsEscape(s, head, tail, t, rest);
  }

  // ---- numbers --------------------------------------------------------------

  predicate IsNumberChar(c: char) {
    IsDigit(c) || c == '-' || c == '+' || c == '.' || c == 'e' || c == 'E'
  }

  function NumberPrefix(s: string): (r: string)
    ensures r <= s && forall i :: 0 <= i < |r| ==> IsNumberChar(r[i])
  {
    if s != "" && IsNumberChar(s[0]) then [s[0]] + NumberPrefix(s[1..]) else ""
  }

  lemma {:induction false} NumberPrefixOf(tok: string, rest: string)
    requires forall i :: 0 <= i < |tok| ==> IsNumberChar(tok[i])
    requires Delimited(rest)
    ensures NumberPrefix(tok + rest) == tok
  {
    if tok == "" {
      assert tok + rest == rest;
    } else {
      NumberPrefixOf(tok[1..], rest);
      assert (tok + rest)[1..] == tok[1..] + rest;
    }
  }

  /** A numeral in the grammar of section 6 of RFC 8259. */
  predicate IsNumeral(tok: string) {
    var t := if tok != "" && tok[0] == '-' then tok[1..] else tok;
    var whole := LeadingDigits(t);
    var afterWhole := t[|whole|..];
    var fraction := if afterWhole != "" && afterWhole[0] == '.' then LeadingDigits(afterWhole[1..]) else "";
    var hasFraction := afterWhole != "" && afterWhole[0] == '.';
    var afterFraction := if hasFraction then afterWhole[1 + |fraction|..] else afterWhole;
    && whole != "" && (whole[0] == '0' ==> |whole| == 1)
    && (hasFraction ==> fraction != "")
    && IsExponent(afterFraction)
  }

  predicate IsExponent(t: string) {
    t == "" ||
    ((t[0] == 'e' || t[0] == 'E') &&
     var u := t[1..];
     var digits := if u != "" && (u[0] == '+' || u[0] == '-') then u[1..] else u;
     digits != "" && AllDigits(digits))
  }

  lemma {:induction false} NatTextHead(n: nat)
    ensures NatText(n)[0] == '0' ==> n == 0
  {
    if n >= 10 {
      NatTextHead(n / 10);
    }
  }

  /** Every printed integer is a JSON numeral. */
  lemma IntTextIsNumeral(n: int)
    ensures IsNumeral(IntText(n))
    ensures forall i :: 0 <= i < |IntText(n)| ==> IsNumberChar(IntText(n)[i])
  {
    var m: nat := if n < 0 then -n else n;
    LeadingDigitsOf(NatText(m), "");
    NatTextHead(m);
    assert NatText(m) + "" == NatText(m);
    if n < 0 {
      assert IntText(n)[1..] == NatText(m);
    }
  }

  lemma ExponentFits(e: int)
    ensures IsExponent(ExponentText(e)) && NumberChars(ExponentText(e))
    ensures ExponentText(e) == "" || (ExponentText(e)[0] != '.' && !IsDigit(ExponentText(e)[0]))
  {
    if e != 0 {
      var n: nat := if e < 0 then -e else e;
      IntTextIsNumeral(e);
      assert ExponentText(e)[1..] == IntText(e);
      assert AllDigits(NatText(n)) && NatText(n) != "";
      assert ("-" + NatText(n))[1..] == NatText(n);
      hide NatText, IsNumeral;
    }
  }

  predicate NumberChars(t: string) {
    forall i :: 0 <= i < |t| ==> IsNumberChar(t[i])
  }

  lemma NumberCharsOfSum(a: string, b: string)
    requires NumberChars(a) && NumberChars(b)
    ensures NumberChars(a + b)
  {
    hide IsNumberChar;
  }

  /** Every numeral, with or without sign, fraction and exponent, is one the grammar
      knows and the parser takes whole, unless it begins with a needless zero. */
  lemma NumeralFits(negative: bool, whole: string, fraction: string, e: int)
    requires whole != "" && AllDigits(whole) && AllDigits(fraction) && (whole[0] == '0' ==> |whole| == 1)
    ensures IsNumeral(Numeral(negative, whole, fraction, e)) && NumberChars(Numeral(negative, whole, fraction, e))
  {
    var rest := FractionText(fraction) + ExponentText(e);
    NumeralFront(negative, whole, rest);
    hide *;
    ExponentFits(e);
    TailIsNoDigit(fraction, e);
    WholeFits(whole, rest);
    FractionFits(fraction, ExponentText(e));
    NumeralIs(negative, whole, fraction, e);
    PartsFit(Numeral(negative, whole, fraction, e), whole + rest, whole, fraction, ExponentText(e));
    NumberCharsFit(negative, whole, fraction, e);
  }

  lemma NumeralIs(negative: bool, whole: string, fraction: string, e: int)
    ensures Numeral(negative, whole, fraction, e)
         == (if negative then "-" else "") + (whole + (FractionText(fraction) + ExponentText(e)))
  {
  }

  lemma NumeralFront(negative: bool, whole: string, rest: string)
    requires whole != "" && AllDigits(whole)
    ensures var tok := (if negative then "-" else "") + (whole + rest);
      tok != "" && (tok[0] == '-' <==> negative) && whole + rest == if negative then tok[1..] else tok
  {
    var t := whole + rest;
    assert t[0] == whole[0] && IsDigit(whole[0]);
    assert "" + t == t && ("-" + t)[1..] == t;
  }

  lemma WholeFits(whole: string, rest: string)
    requires AllDigits(whole) && (rest == "" || !IsDigit(rest[0]))
    ensures LeadingDigits(whole + rest) == whole && (whole + rest)[|whole|..] == rest
  {
    LeadingDigitsOf(whole, rest);
    SliceBehind(whole, rest);
  }

  lemma PartsFit(tok: string, t: string, whole: string, fraction: string, back: string)
    requires tok != "" && t == (if tok[0] == '-' then tok[1..] else tok)
    requires LeadingDigits(t) == whole && whole != "" && (whole[0] == '0' ==> |whole| == 1)
    requires var rest := FractionText(fraction) + back;
      && t[|whole|..] == rest
      && if fraction == "" then rest == back && (back == "" || back[0] != '.')
         else rest != "" && rest[0] == '.' && LeadingDigits(rest[1..]) == fraction && rest[1 + |fraction|..] == back
    requires IsExponent(back)
    ensures IsNumeral(tok)
  {
    hide LeadingDigits, IsExponent, FractionText;
  }

  lemma FractionFits(fraction: string, back: string)
    requires AllDigits(fraction) && (back == "" || (back[0] != '.' && !IsDigit(back[0])))
    ensures var rest := FractionText(fraction) + back;
      if fraction == "" then rest == back && (back == "" || back[0] != '.')
      else rest != "" && rest[0] == '.' && LeadingDigits(rest[1..]) == fraction && rest[1 + |fraction|..] == back
  {
    if fraction == "" {
      NothingBehind("", back);
    } else {
      LeadingDigitsOf(fraction, back);
      PointSlices(fraction, back);
    }
    hide LeadingDigits;
  }

  lemma NumberCharsFit(negative: bool, whole: string, fraction: string, e: int)
    requires AllDigits(whole) && AllDigits(fraction)
    ensures NumberChars(Numeral(negative, whole, fraction, e))
  {
    ExponentFits(e);
    assert NumberChars(whole) && NumberChars(fraction) && NumberChars(".") && NumberChars("-") && NumberChars("");
    hide NumberChars, ExponentText;
    NumberCharsOfSum(".", fraction);
    NumberCharsOfSum(FractionText(fraction), ExponentText(e));
    NumberCharsOfSum(whole, FractionText(fraction) + ExponentText(e));
    NumberCharsOfSum(if negative then "-" else "", whole + (FractionText(fraction) + ExponentText(e)));
  }

  // ---- values ---------------------------------------------------------------

  function Print(v: Json): string
    decreases v, 1
  {
    match v
    case JNull => "null"
    case JBool(b) => if b then "true" else "false"
    case JNum(numeral) => numeral
    case JStr(text) => Quote(text)
    case JArr(items) => "[" + PrintItems(items) + "]"
    case JObj(members) => "{" + PrintMembers(members) + "}"
  }

  function PrintItems(items: seq<Json>): string
    decreases items, 0
  {
    if items == [] then ""
    else if |items| == 1 then Print(items[0])
    else Print(items[0]) + "," + PrintItems(items[1..])
  }

  function PrintMember(m: Member): (r: string)
    ensures r != "" && r[0] == '"'
    decreases m, 1
  {
    Quote(m.key) + ":" + Print(m.val)
  }

  function PrintMembers(members: seq<Member>): string
    decreases members, 0
  {
    if members == [] then ""
    else if |members| == 1 then PrintMember(members[0])
    else PrintMember(members[0]) + "," + PrintMembers(members[1..])
  }

  function SkipSpace(s: string): (r: string)
    ensures |r| <= |s|
    ensures r == "" || !(r[0] == ' ' || r[0] == '\t' || r[0] == '\n' || r[0] == '\r')
  {
    if s != "" && (s[0] == ' ' || s[0] == '\t' || s[0] == '\n' || s[0] == '\r')
    then SkipSpace(s[1..]) else s
  }

  /** One value at the front of `s` and the text behind it. */
  function ParseValue(text: string): (r: Option<(Json, string)>)
    ensures r.Some? ==> |r.value.1| < |text|
    decreases |text|, 0
  {
    var s := SkipSpace(text);
    if s == "" then None
    else if s[0] == '"' then
      match ParseChars(s[1..])
      case None => None
      case Some((t, rest)) => Some((JStr(t), rest))
    else if s[0] == '[' then
      var inner := SkipSpace(s[1..]);
      if inner != "" && inner[0] == ']' then Some((JArr([]), inner[1..]))
      else
        match ParseItems(inner)
        case None => None
        case Some((items, rest)) => Some((JArr(items), rest))
    else if s[0] == '{' then
      var inner := SkipSpace(s[1..]);
      if inner != "" && inner[0] == '}' then Some((JObj([]), inner[1..]))
      else
        match ParseMembers(inner)
        case None => None
        case Some((members, rest)) => Some((JObj(members), rest))
    else if "null" <= s then Some((JNull, s[4..]))
    else if "true" <= s then Some((JBool(true), s[4..]))
    else if "false" <= s then Some((JBool(false), s[5..]))
    else
      var tok := NumberPrefix(s);
      if tok != "" && IsNumeral(tok) then Some((JNum(tok), s[|tok|..])) else None
  }

  function ParseItems(text: string): (r: Option<(seq<Json>, string)>)
    ensures r.Some? ==> |r.value.1| < |text|
    decreases |text|, 1
  {
    match ParseValue(text)
    case None => None
    case Some((head, rest)) =>
      var s := SkipSpace(rest);
      if s == "" then None
      else if s[0] == ']' then Some(([head], s[1..]))
      else if s[0] != ',' then None
      else
        match ParseItems(s[1..])
        case None => None
        case Some((tail, rest')) => Some(([head] + tail, rest'))
  }

  function ParseMember(text: string): (r: Option<(Member, string)>)
    ensures r.Some? ==> |r.value.1| < |text|
    decreases |text|, 1
  {
    var s := SkipSpace(text);
    if s == "" || s[0] != '"' then None
    else
      match ParseChars(s[1..])
      case None => None
      case Some((key, rest)) =>
        var t := SkipSpace(rest);
        if t == "" || t[0] != ':' then None
        else
          match ParseValue(t[1..])
          case None => None
          case Some((val, rest')) => Some((Member(key, val), rest'))
  }

  function ParseMembers(text: string): (r: Option<(seq<Member>, string)>)
    ensures r.Some? ==> |r.value.1| < |text|
    decreases |text|, 2
  {
    match ParseMember(text)
    case None => None
    case Some((head, rest)) =>
      var s := SkipSpace(rest);
      if s == "" then None
      else if s[0] == '}' then Some(([head], s[1..]))
      else if s[0] != ',' then None
      else
        match ParseMembers(s[1..])
        case None => None
        case Some((tail, rest')) => Some(([head] + tail, rest'))
  }

  /** A whole document: one value with nothing but whitespace behind it. */
  function Parse(text: string): Option<Json> {
    match ParseValue(text)
    case None => None
    case Some((v, rest)) => if SkipSpace(rest) == "" then Some(v) else None
  }

  // ---- round trip -----------------------------------------------------------

  /** The text cannot continue a numeral. */
  predicate Delimited(rest: string) {
    rest == "" || !IsNumberChar(rest[0])
  }

  predicate WellFormed(v: Json)
    decreases v, 0
  {
    match v
    case JNull => true
    case JBool(_) => true
    case JNum(tok) => IsNumeral(tok) && forall i :: 0 <= i < |tok| ==> IsNumberChar(tok[i])
    case JStr(t) => IsBytes(t)
    case JArr(items) => forall i :: 0 <= i < |items| ==> WellFormed(items[i])
    case JObj(members) =>
      forall i :: 0 <= i < |members| ==> IsBytes(members[i].key) && WellFormed(members[i].val)
  }

  /** No printed value starts with a character the parser would skip or take
      for the end of a list. */
  lemma PrintHead(v: Json)
    requires WellFormed(v)
    ensures Print(v) != "" && Print(v)[0] > ' ' && Print(v)[0] != ']'
    ensures v.JNum? ==> IsDigit(Print(v)[0]) || Print(v)[0] == '-'
  {
    if v.JNum? {
      var tok := v.numeral;
      var t := if tok != "" && tok[0] == '-' then tok[1..] else tok;
      assert LeadingDigits(t) <= t;
    }
  }

  lemma Append3(a: string, b: string, c: string)
    ensures (a + b) + c == a + (b + c)
  {
  }

  lemma ParseString(s: string, t: string, rest: string)
    requires s != "" && s[0] == '"' && ParseChars(s[1..]) == Some((t, rest))
    ensures ParseValue(s) == Some((JStr(t), rest))
  {
  }

  lemma ParseArray(s: string, items: seq<Json>, rest: string)
    requires |s| >= 2 && s[0] == '[' && SkipSpace(s[1..]) == s[1..]
    requires if s[1] == ']' then items == [] && rest == s[2..]
             else ParseItems(s[1..]) == Some((items, rest))
    ensures ParseValue(s) == Some((JArr(items), rest))
  {
  }

  lemma ParseObject(s: string, members: seq<Member>, rest: string)
    requires |s| >= 2 && s[0] == '{' && SkipSpace(s[1..]) == s[1..]
    requires if s[1] == '}' then members == [] && rest == s[2..]
             else ParseMembers(s[1..]) == Some((members, rest))
    ensures ParseValue(s) == Some((JObj(members), rest))
  {
  }

  lemma ParseLiteral(v: Json, rest: string)
    requires v.JNull? || v.JBool?
    ensures ParseValue(Print(v) + rest) == Some((v, rest))
  {
    hide ParseChars, ParseItems, ParseMembers, NumberPrefix, IsNumeral;
    var s := Print(v) + rest;
    assert SkipSpace(s) == s;
    match v
    case JNull => assert s[..4] == "null" && s[4..] == rest;
    case JBool(b) => assert s[..if b then 4 else 5] == Print(v) && s[if b then 4 else 5..] == rest;
  }

  lemma ParseValueNumber(s: string)
    requires s != "" && (IsDigit(s[0]) || s[0] == '-')
    requires NumberPrefix(s) != "" && IsNumeral(NumberPrefix(s))
    ensures ParseValue(s) == Some((JNum(NumberPrefix(s)), s[|NumberPrefix(s)|..]))
  {
    hide ParseChars, ParseItems, ParseMembers, NumberPrefix, IsNumeral;
    assert SkipSpace(s) == s;
    assert !("null" <= s) && !("true" <= s) && !("false" <= s);
  }

  lemma ParseNumber(tok: string, rest: string)
    requires WellFormed(JNum(tok)) && Delimited(rest)
    ensures ParseValue(tok + rest) == Some((JNum(tok), rest))
  {
    PrintHead(JNum(tok));
    NumberPrefixOf(tok, rest);
    hide ParseValue, NumberPrefix, IsNumeral;
    assert (tok + rest)[0] == tok[0];
    ParseValueNumber(tok + rest);
    assert (tok + rest)[|tok|..] == rest;
  }

  lemma ParseLastItem(s: string, head: Json, rest: string)
    requires ParseValue(s) == Some((head, "]" + rest))
    ensures ParseItems(s) == Some(([head], rest))
  {
    assert ("]" + rest)[1..] == rest;
  }

  lemma ParseMoreItems(s: string, head: Json, tail: string, items: seq<Json>, rest: string)
    requires ParseValue(s) == Some((head, "," + tail))
    requires ParseItems(tail) == Some((items, rest))
    ensures ParseItems(s) == Some(([head] + items, rest))
  {
    assert ("," + tail)[1..] == tail;
  }

  lemma ParseLastMember(s: string, head: Member, rest: string)
    requires ParseMember(s) == Some((head, "}" + rest))
    ensures ParseMembers(s) == Some(([head], rest))
  {
    assert ("}" + rest)[1..] == rest;
  }

  lemma ParseMoreMembers(s: string, head: Member, tail: string, members: seq<Member>, rest: string)
    requires ParseMember(s) == Some((head, "," + tail))
    requires ParseMembers(tail) == Some((members, rest))
    ensures ParseMembers(s) == Some(([head] + members, rest))
  {
    assert ("," + tail)[1..] == tail;
  }

  lemma {:induction false} ValueRoundTrip(v: Json, rest: string)
    requires WellFormed(v) && Delimited(rest)
    ensures ParseValue(Print(v) + rest) == Some((v, rest))
    decreases v, 1
  {
    hide IsNumeral, Escape, PrintItems, PrintMembers, ParseChars, ParseValue;
    match v
    case JStr(t) =>
      CharsRoundTrip(t, rest);
      var s := "\"" + (Escape(t) + "\"" + rest);
      ParseString(s, t, rest);
      assert Print(v) + rest == s;
    case JArr(items) => ArrayRoundTrip(items, rest);
    case JObj(members) => ObjectRoundTrip(members, rest);
    case JNum(tok) => ParseNumber(tok, rest);
    case _ => ParseLiteral(v, rest);
  }

  lemma {:induction false} ArrayRoundTrip(items: seq<Json>, rest: string)
    requires forall i :: 0 <= i < |items| ==> WellFormed(items[i])
    ensures ParseValue(Print(JArr(items)) + rest) == Some((JArr(items), rest))
    decreases items, 1
  {
    hide ParseEscape, ParseChars, ParseValue, ParseItems, ParseMember, ParseMembers;
    var inner := PrintItems(items) + "]" + rest;
    if items != [] {
      ItemsRoundTrip(items, rest);
    }
    var s := "[" + inner;
    assert s[1..] == inner;
    ParseArray(s, items, rest);
    assert Print(JArr(items)) + rest == s;
  }

  lemma {:induction false} ObjectRoundTrip(members: seq<Member>, rest: string)
    requires forall i :: 0 <= i < |members| ==> IsBytes(members[i].key) && WellFormed(members[i].val)
    ensures ParseValue(Print(JObj(members)) + rest) == Some((JObj(members), rest))
    decreases members, 1
  {
    hide ParseEscape, ParseChars, ParseValue, ParseItems, ParseMember, ParseMembers;
    var inner := PrintMembers(members) + "}" + rest;
    if members != [] {
      MembersRoundTrip(members, rest);
    }
    var s := "{" + inner;
    assert s[1..] == inner;
    ParseObject(s, members, rest);
    assert Print(JObj(members)) + rest == s;
  }

  lemma PrintItemsStep(items: seq<Json>, rest: string)
    requires |items| >= 1
    ensures PrintItems(items) + "]" + rest
         == Print(items[0]) + (if |items| == 1 then "]" + rest else "," + (PrintItems(items[1..]) + "]" + rest))
  {
    if |items| > 1 {
      hide Print;
      Append3(Print(items[0]), ",", PrintItems(items[1..]));
      Append3(Print(items[0]), "," + PrintItems(items[1..]), "]");
      Append3(Print(items[0]), "," + PrintItems(items[1..]) + "]", rest);
    } else {
      Append3(Print(items[0]), "]", rest);
    }
  }

  lemma {:induction false} ItemsRoundTrip(items: seq<Json>, rest: string)
    requires items != [] && forall i :: 0 <= i < |items| ==> WellFormed(items[i])
    ensures var s := PrintItems(items) + "]" + rest;
            SkipSpace(s) == s && s[0] != ']' && ParseItems(s) == Some((items, rest))
    decreases items, 0
  {
    hide ParseEscape, ParseChars, ParseValue, ParseItems, ParseMember, ParseMembers, Print, PrintItems;
    PrintHead(items[0]);
    PrintItemsStep(items, rest);
    var s := PrintItems(items) + "]" + rest;
    if |items| == 1 {
      ValueRoundTrip(items[0], "]" + rest);
      ParseLastItem(s, items[0], rest);
      assert items == [items[0]];
    } else {
      var tail := PrintItems(items[1..]) + "]" + rest;
      ValueRoundTrip(items[0], "," + tail);
      ItemsRoundTrip(items[1..], rest);
      ParseMoreItems(s, items[0], tail, items[1..], rest);
      assert items == [items[0]] + items[1..];
    }
  }

  lemma PrintMemberStep(m: Member, rest: string)
    ensures PrintMember(m) + rest
         == "\"" + (Escape(m.key) + "\"" + (":" + (Print(m.val) + rest)))
  {
    var key, val := Escape(m.key), Print(m.val);
    hide Escape, Print;
    assert PrintMember(m) == "\"" + key + "\"" + ":" + val;
  }

  lemma {:induction false} MemberRoundTrip(m: Member, rest: string)
    requires IsBytes(m.key) && WellFormed(m.val) && Delimited(rest)
    ensures ParseMember(PrintMember(m) + rest) == Some((m, rest))
    decreases m, 2
  {
    hide ParseChars, ParseValue, ParseMember, Escape, Print, PrintMember;
    var afterColon := Print(m.val) + rest;
    ValueRoundTrip(m.val, rest);
    var afterQuote := Escape(m.key) + "\"" + (":" + afterColon);
    CharsRoundTrip(m.key, ":" + afterColon);
    var s := "\"" + afterQuote;
    assert s[1..] == afterQuote;
    ParseKeyed(s, m.key, afterColon, m.val, rest);
    PrintMemberStep(m, rest);
  }

  lemma ParseKeyed(s: string, key: string, afterColon: string, val: Json, rest: string)
    requires s != "" && s[0] == '"' && ParseChars(s[1..]) == Some((key, ":" + afterColon))
    requires ParseValue(afterColon) == Some((val, rest))
    ensures ParseMember(s) == Some((Member(key, val), rest))
  {
    assert (":" + afterColon)[1..] == afterColon;
  }

  lemma PrintMembersStep(members: seq<Member>, rest: string)
    requires |members| >= 1
    ensures PrintMembers(members) + "}" + rest
         == PrintMember(members[0])
            + (if |members| == 1 then "}" + rest else "," + (PrintMembers(members[1..]) + "}" + rest))
  {
    if |members| > 1 {
      hide PrintMember;
      Append3(PrintMember(members[0]), ",", PrintMembers(members[1..]));
      Append3(PrintMember(members[0]), "," + PrintMembers(members[1..]), "}");
      Append3(PrintMember(members[0]), "," + PrintMembers(members[1..]) + "}", rest);
    } else {
      Append3(PrintMember(members[0]), "}", rest);
    }
  }

  lemma {:induction false} MembersRoundTrip(members: seq<Member>, rest: string)
    requires members != []
    requires forall i :: 0 <= i < |members| ==> IsBytes(members[i].key) && WellFormed(members[i].val)
    ensures var s := PrintMembers(members) + "}" + rest;
            SkipSpace(s) == s && s[0] == '"' && ParseMembers(s) == Some((members, rest))
    decreases members, 0
  {
    hide ParseEscape, ParseChars, ParseValue, ParseItems, ParseMember, ParseMembers, PrintMember, PrintMembers;
    PrintMembersStep(members, rest);
    var s := PrintMembers(members) + "}" + rest;
    if |members| == 1 {
      MemberRoundTrip(members[0], "}" + rest);
      ParseLastMember(s, members[0], rest);
      assert members == [members[0]];
    } else {
      var tail := PrintMembers(members[1..]) + "}" + rest;
      MemberRoundTrip(members[0], "," + tail);
      MembersRoundTrip(members[1..], rest);
      ParseMoreMembers(s, members[0], tail, members[1..], rest);
      assert members == [members[0]] + members[1..];
    }
  }

  lemma DocumentRoundTrip(v: Json)
    requires WellFormed(v)
    ensures Parse(Print(v)) == Some(v)
  {
    ValueRoundTrip(v, "");
    assert Print(v) + "" == Print(v);
  }

  // ---- no raw control characters --------------------------------------------

  lemma {:induction false} PrintHasNoControl(v: Json)
    requires WellFormed(v)
    ensures NoControl(Print(v))
    decreases v, 1
  {
    hide IsNumeral, Escape, PrintItems, PrintMembers;
    match v
    case JArr(items) => ItemsHaveNoControl(items);
    case JObj(members) => MembersHaveNoControl(members);
    case _ =>
  }

  lemma {:induction false} ItemsHaveNoControl(items: seq<Json>)
    requires forall i :: 0 <= i < |items| ==> WellFormed(items[i])
    ensures NoControl(PrintItems(items))
    decreases items, 0
  {
    if items != [] {
      PrintHasNoControl(items[0]);
      ItemsHaveNoControl(items[1..]);
    }
  }

  lemma {:induction false} MembersHaveNoControl(members: seq<Member>)
    requires forall i :: 0 <= i < |members| ==> IsBytes(members[i].key) && WellFormed(members[i].val)
    ensures NoControl(PrintMembers(members))
    decreases members, 0
  {
    if members != [] {
      PrintHasNoControl(members[0].val);
      MembersHaveNoControl(members[1..]);
    }
  }
}
