/** Telemetry points, their one-line JSON form in the write-ahead log
    (diskqueue.go) and the protobuf values both delivery paths send
    (convert.go). */
module WalCodec {
  import opened Wrappers
  import opened Decimal
  import opened Floats
  import opened Json

  /** The dynamic type of a field value. A finite float is named by the
      shortest numeral that denotes it at its width, which is what Go prints; the
      four integer kinds that fit int64 share a constructor. `GOther` is any other
      kind json.Marshal accepts (slices, maps, but also named strings, uint16,
      durations, typed nils), by its JSON form; `GTree` a slice or map that
      json.Unmarshal made, its numbers doubles; `GUnsupported` a value Marshal
      refuses, by its %v text. */
  datatype GoValue =
    | GNil
    | GString(s: string)
    | GBool(b: bool)
    | GInt(n: int)
    | GUint64(u: nat)
    | GFloat(numeral: string)
    | GFloat32(numeral: string)
    | GNonFinite
    | GBytes(bytes: string)
    | GOther(json: Json)
    | GTree(json: Json)
    | GUnsupported(text: string)

  datatype Tag = Tag(name: string, val: string)
  datatype Field = Field(name: string, val: GoValue)

  /** A point; its two Go maps are listed in key order, as Marshal emits them. */
  datatype DataPoint = DataPoint(nanos: int, kind: string, tags: seq<Tag>, fields: seq<Field>)

  function UnixMilli(nanos: int): int {
    nanos / 1_000_000
  }

  function FromMilli(ms: int): int {
    ms * 1_000_000
  }

  // ---- values ---------------------------------------------------------------

  function Base64Char(d: nat): (c: char)
    requires d < 64
    ensures (c as int) < 256
  {
    if d < 26 then (65 + d) as char
    else if d < 52 then (71 + d) as char
    else if d < 62 then (d - 4) as char
    else if d == 62 then '+' else '/'
  }

  /** encoding/base64 with padding (section 4 of RFC 4648). */
  function Base64(s: string): (r: string)
    requires IsBytes(s)
    ensures IsBytes(r)
  {
    if s == "" then ""
    else
      var a, b, c := s[0] as int, if |s| > 1 then s[1] as int else 0, if |s| > 2 then s[2] as int else 0;
      [Base64Char(a / 4), Base64Char(a % 4 * 16 + b / 16),
       if |s| > 1 then Base64Char(b % 16 * 4 + c / 64) else '=',
       if |s| > 2 then Base64Char(c % 64) else '=']
      + (if |s| > 3 then Base64(s[3..]) else "")
  }

  /** The value of a digit of the base 64 alphabet (table 1 of RFC 4648); the pad counts
      as zero. */
  function Base64Value(c: char): nat {
    if 'A' <= c <= 'Z' then (c as int) - ('A' as int)
    else if 'a' <= c <= 'z' then (c as int) - ('a' as int) + 26
    else if '0' <= c <= '9' then (c as int) - ('0' as int) + 52
    else if c == '+' then 62
    else if c == '/' then 63
    else 0
  }

  lemma DigitHasItsValue(d: nat)
    requires d < 64
    ensures Base64Value(Base64Char(d)) == d && Base64Char(d) != '='
  {
  }

  /** Four digits are 24 bits, three bytes, or fewer if padded. */
  function Group(w: char, x: char, y: char, z: char): (r: string) {
    var n := 262144 * Base64Value(w) + 4096 * Base64Value(x) + 64 * Base64Value(y) + Base64Value(z);
    [(n / 65536 % 256) as char] + (if y == '=' then "" else [(n / 256 % 256) as char])
    + (if z == '=' then "" else [(n % 256) as char])
  }

  function Unbase64(t: string): string {
    if |t| < 4 then "" else Group(t[0], t[1], t[2], t[3]) + Unbase64(t[4..])
  }

  lemma GroupOfThree(a: nat, b: nat, c: nat)
    requires a < 256 && b < 256 && c < 256
    ensures Group(Base64Char(a / 4), Base64Char(a % 4 * 16 + b / 16), Base64Char(b % 16 * 4 + c / 64), Base64Char(c % 64))
         == [a as char, b as char, c as char]
  {
    DigitHasItsValue(a / 4);
    DigitHasItsValue(a % 4 * 16 + b / 16);
    DigitHasItsValue(b % 16 * 4 + c / 64);
    DigitHasItsValue(c % 64);
    hide Base64Char, Base64Value;
    BitsOf(a, b, c);
  }

  lemma GroupOfTwo(a: nat, b: nat)
    requires a < 256 && b < 256
    ensures Group(Base64Char(a / 4), Base64Char(a % 4 * 16 + b / 16), Base64Char(b % 16 * 4), '=') == [a as char, b as char]
  {
    DigitHasItsValue(a / 4);
    DigitHasItsValue(a % 4 * 16 + b / 16);
    DigitHasItsValue(b % 16 * 4);
    assert Base64Value('=') == 0;
    hide Base64Char, Base64Value;
    BitsOf(a, b, 0);
  }

  lemma GroupOfOne(a: nat)
    requires a < 256
    ensures Group(Base64Char(a / 4), Base64Char(a % 4 * 16), '=', '=') == [a as char]
  {
    DigitHasItsValue(a / 4);
    DigitHasItsValue(a % 4 * 16);
    assert Base64Value('=') == 0;
    hide Base64Char, Base64Value;
    BitsOf(a, 0, 0);
  }

  lemma BitsOf(a: nat, b: nat, c: nat)
    requires a < 256 && b < 256 && c < 256
    ensures var n := 262144 * (a / 4) + 4096 * (a % 4 * 16 + b / 16) + 64 * (b % 16 * 4 + c / 64) + c % 64;
      n == 65536 * a + 256 * b + c && n / 65536 % 256 == a && n / 256 % 256 == b && n % 256 == c
  {
    assert a == 4 * (a / 4) + a % 4 && b == 16 * (b / 16) + b % 16 && c == 64 * (c / 64) + c % 64;
    BytesOf(65536 * a + 256 * b + c, a, b, c);
  }

  lemma BytesOf(n: nat, a: nat, b: nat, c: nat)
    requires n == 65536 * a + 256 * b + c && a < 256 && b < 256 && c < 256
    ensures n / 65536 % 256 == a && n / 256 % 256 == b && n % 256 == c
  {
    assert n / 256 == 256 * a + b;
    assert n / 65536 == a;
  }

  lemma Unbase64OfGroup(w: char, x: char, y: char, z: char, rest: string)
    ensures Unbase64([w, x, y, z] + rest) == Group(w, x, y, z) + Unbase64(rest)
  {
    assert ([w, x, y, z] + rest)[4..] == rest;
    hide Group;
  }

  /** A byte slice is read back from its text. */
  lemma {:induction false} Base64RoundTrip(s: string)
    requires IsBytes(s)
    ensures Unbase64(Base64(s)) == s
  {
    hide Group, Base64Char, Unbase64;
    assert Unbase64("") == "" by { NothingDecodes(); }
    if s != "" {
      var a: nat, b: nat, c: nat := s[0] as int, if |s| > 1 then s[1] as int else 0, if |s| > 2 then s[2] as int else 0;
      var rest := if |s| > 3 then Base64(s[3..]) else "";
      var w, x := Base64Char(a / 4), Base64Char(a % 4 * 16 + b / 16);
      if |s| >= 3 {
        if |s| > 3 {
          Base64RoundTrip(s[3..]);
        }
        GroupOfThree(a, b, c);
        assert s == [s[0], s[1], s[2]] + s[3..];
        Unbase64OfGroup(w, x, Base64Char(b % 16 * 4 + c / 64), Base64Char(c % 64), rest);
      } else if |s| == 2 {
        GroupOfTwo(a, b);
        Unbase64OfGroup(w, x, Base64Char(b % 16 * 4), '=', rest);
      } else {
        GroupOfOne(a);
        Unbase64OfGroup(w, x, '=', '=', rest);
      }
    }
  }

  lemma NothingDecodes()
    ensures Unbase64("") == ""
  {
  }

  /** json.Marshal of one field value; a float with no JSON form is an error, as is
      a kind that has none. */
  function Marshal(v: GoValue): Option<Json>
    requires ValidValue(v)
  {
    match v
    case GNil => Some(JNull)
    case GString(s) => Some(JStr(s))
    case GBool(b) => Some(JBool(b))
    case GInt(n) => Some(JNum(IntText(n)))
    case GUint64(u) => Some(JNum(IntText(u)))
    case GFloat(numeral) => Some(JNum(numeral))
    case GFloat32(numeral) => Some(JNum(numeral))
    case GNonFinite => None
    case GBytes(bytes) => Some(JStr(Base64(bytes)))
    case GOther(json) => Some(json)
    case GUnsupported(_) => None
  }

  /** json.Unmarshal into an empty interface: every number becomes a float. */
  function Unmarshal(j: Json): GoValue {
    match j
    case JNull => GNil
    case JBool(b) => GBool(b)
    case JNum(numeral) => GFloat(numeral)
    case JStr(s) => GString(s)
    case _ => GTree(j)
  }

  predicate ValidValue(v: GoValue) {
    match v
    case GString(s) => IsBytes(s)
    case GFloat(numeral) => WellFormed(JNum(numeral))
    case GFloat32(numeral) => WellFormed(JNum(numeral))
    case GBytes(bytes) => IsBytes(bytes)
    case GOther(json) => WellFormed(json)
    case GTree(_) => false
    case _ => true
  }

  /** What a collector emits: no tree that was read from the log. */
  predicate ValidPoint(p: DataPoint) {
    && IsBytes(p.kind)
    && (forall i :: 0 <= i < |p.tags| ==> IsBytes(p.tags[i].name) && IsBytes(p.tags[i].val))
    && (forall i :: 0 <= i < |p.fields| ==> IsBytes(p.fields[i].name) && ValidValue(p.fields[i].val))
  }

  // ---- records --------------------------------------------------------------

  function TagMembers(tags: seq<Tag>): (r: seq<Member>)
    ensures |r| == |tags|
    ensures forall i :: 0 <= i < |tags| ==> r[i] == Member(tags[i].name, JStr(tags[i].val))
  {
    if tags == [] then [] else [Member(tags[0].name, JStr(tags[0].val))] + TagMembers(tags[1..])
  }

  /** A null tag value leaves the empty string; any other kind is an error. */
  function TagsOf(members: seq<Member>): Option<seq<Tag>> {
    if members == [] then Some([])
    else
      match (members[0].val, TagsOf(members[1..]))
      case (JStr(s), Some(rest)) => Some([Tag(members[0].key, s)] + rest)
      case (JNull, Some(rest)) => Some([Tag(members[0].key, "")] + rest)
      case _ => None
  }

  predicate Refused(v: GoValue) {
    v.GNonFinite? || v.GUnsupported?
  }

  function FieldMembers(fields: seq<Field>): (r: Option<seq<Member>>)
    requires forall i :: 0 <= i < |fields| ==> IsBytes(fields[i].name) && ValidValue(fields[i].val)
    ensures r.Some? <==> forall i :: 0 <= i < |fields| ==> !Refused(fields[i].val)
    ensures r.Some? ==> |r.value| == |fields|
    ensures r.Some? ==> forall i :: 0 <= i < |fields| ==> IsBytes(r.value[i].key) && WellFormed(r.value[i].val)
  {
    if fields == [] then Some([])
    else
      assert fields[0].val.GInt? ==> WellFormed(JNum(IntText(fields[0].val.n))) by {
        if fields[0].val.GInt? { IntTextIsNumeral(fields[0].val.n); }
      }
      assert fields[0].val.GUint64? ==> WellFormed(JNum(IntText(fields[0].val.u))) by {
        if fields[0].val.GUint64? { IntTextIsNumeral(fields[0].val.u); }
      }
      match (Marshal(fields[0].val), FieldMembers(fields[1..]))
      case (Some(j), Some(rest)) => Some([Member(fields[0].name, j)] + rest)
      case _ => None
  }

  function FieldsOf(members: seq<Member>): seq<Field> {
    if members == [] then []
    else [Field(members[0].key, Unmarshal(members[0].val))] + FieldsOf(members[1..])
  }

  /** The members of a walRecord: empty maps are omitted. */
  function RecordMembers(ts: Json, kind: Json, tags: seq<Member>, fields: seq<Member>): seq<Member> {
    [Member("ts", ts), Member("type", kind)]
    + (if tags == [] then [] else [Member("tags", JObj(tags))])
    + (if fields == [] then [] else [Member("fields", JObj(fields))])
  }

  function RecordOf(p: DataPoint): Option<Json>
    requires ValidPoint(p)
  {
    match FieldMembers(p.fields)
    case None => None
    case Some(fields) =>
      Some(JObj(RecordMembers(JNum(IntText(UnixMilli(p.nanos))), JStr(p.kind), TagMembers(p.tags), fields)))
  }

  /** The line Write appends, without its newline; None when Marshal fails. */
  function Encode(p: DataPoint): Option<string>
    requires ValidPoint(p)
  {
    match RecordOf(p)
    case None => None
    case Some(j) => Some(Print(j))
  }

  /** The value of the last member with this key; JNull when there is none. */
  function Lookup(members: seq<Member>, key: string): Json {
    if members == [] then JNull
    else if members[|members| - 1].key == key then members[|members| - 1].val
    else Lookup(members[..|members| - 1], key)
  }

  /** json.Unmarshal into a walRecord and the point the reader rebuilds. A
      missing or null member leaves the zero value, a member of the wrong kind
      is an error. */
  function PointOf(j: Json): Option<DataPoint> {
    match j
    case JNull => Some(DataPoint(0, "", [], []))
    case JObj(members) =>
      var ts := match Lookup(members, "ts") case JNum(tok) => IntValue(tok) case JNull => Some(0) case _ => None;
      var kind := match Lookup(members, "type") case JStr(s) => Some(s) case JNull => Some("") case _ => None;
      var tags := match Lookup(members, "tags") case JObj(ms) => TagsOf(ms) case JNull => Some([]) case _ => None;
      var fields := match Lookup(members, "fields")
                    case JObj(ms) => Some(FieldsOf(ms))
                    case JNull => Some([])
                    case _ => None;
      (match (ts, kind, tags, fields)
       case (Some(ms), Some(k), Some(t), Some(f)) => Some(DataPoint(FromMilli(ms), k, t, f))
       case _ => None)
    case _ => None
  }

  function Decode(line: string): Option<DataPoint> {
    match Parse(line)
    case None => None
    case Some(j) => PointOf(j)
  }

  // ---- round trip -----------------------------------------------------------

  /** What a field value is after a trip through the log. */
  function RereadValue(v: GoValue): GoValue
    requires ValidValue(v)
  {
    match v
    case GInt(n) => GFloat(IntText(n))
    case GUint64(u) => GFloat(IntText(u))
    case GFloat32(numeral) => GFloat(numeral)
    case GBytes(bytes) => GString(Base64(bytes))
    case GOther(json) => Unmarshal(json)
    case _ => v
  }

  function RereadFields(fields: seq<Field>): (r: seq<Field>)
    requires forall i :: 0 <= i < |fields| ==> ValidValue(fields[i].val)
    ensures |r| == |fields|
    ensures forall i :: 0 <= i < |fields| ==> r[i] == Field(fields[i].name, RereadValue(fields[i].val))
  {
    if fields == [] then []
    else [Field(fields[0].name, RereadValue(fields[0].val))] + RereadFields(fields[1..])
  }

  /** What a point is after a trip through the log. */
  function Reread(p: DataPoint): DataPoint
    requires ValidPoint(p)
  {
    p.(nanos := FromMilli(UnixMilli(p.nanos)), fields := RereadFields(p.fields))
  }

  lemma {:induction false} TagsRoundTrip(tags: seq<Tag>)
    ensures TagsOf(TagMembers(tags)) == Some(tags)
  {
    if tags != [] {
      TagsRoundTrip(tags[1..]);
      assert TagMembers(tags)[1..] == TagMembers(tags[1..]);
      assert tags == [tags[0]] + tags[1..];
    }
  }

  lemma {:induction false} FieldsRoundTrip(fields: seq<Field>)
    requires forall i :: 0 <= i < |fields| ==> IsBytes(fields[i].name) && ValidValue(fields[i].val)
    requires FieldMembers(fields).Some?
    ensures FieldsOf(FieldMembers(fields).value) == RereadFields(fields)
  {
    if fields != [] {
      FieldsRoundTrip(fields[1..]);
      var members := FieldMembers(fields).value;
      assert members[1..] == FieldMembers(fields[1..]).value;
    }
  }

  /** `Lookup` finds the last member with the key, or nothing. */
  lemma {:induction false} LookupIs(members: seq<Member>, key: string, i: int)
    requires -1 <= i < |members|
    requires i >= 0 ==> members[i].key == key
    requires forall k :: i < k < |members| ==> members[k].key != key
    ensures Lookup(members, key) == if i >= 0 then members[i].val else JNull
    decreases |members|
  {
    if |members| > 0 && i < |members| - 1 {
      LookupIs(members[..|members| - 1], key, i);
    }
  }

  lemma RecordLookups(ts: Json, kind: Json, tags: seq<Member>, fields: seq<Member>)
    ensures var ms := RecordMembers(ts, kind, tags, fields);
            && Lookup(ms, "ts") == ts
            && Lookup(ms, "type") == kind
            && Lookup(ms, "tags") == (if tags == [] then JNull else JObj(tags))
            && Lookup(ms, "fields") == (if fields == [] then JNull else JObj(fields))
  {
    hide Lookup;
    var ms := RecordMembers(ts, kind, tags, fields);
    LookupIs(ms, "ts", 0);
    LookupIs(ms, "type", 1);
    LookupIs(ms, "tags", if tags == [] then -1 else 2);
    LookupIs(ms, "fields", if fields == [] then -1 else |ms| - 1);
  }

  predicate WellFormedMembers(ms: seq<Member>) {
    forall i :: 0 <= i < |ms| ==> IsBytes(ms[i].key) && WellFormed(ms[i].val)
  }

  lemma MembersWellFormed(ms: seq<Member>, j: Json)
    requires j == JObj(ms)
    ensures WellFormed(j) <==> WellFormedMembers(ms)
  {
  }

  lemma RecordKeysAreBytes()
    ensures IsBytes("ts") && IsBytes("type") && IsBytes("tags") && IsBytes("fields")
  {
  }

  lemma ConcatWellFormed(a: seq<Member>, b: seq<Member>)
    requires WellFormedMembers(a) && WellFormedMembers(b)
    ensures WellFormedMembers(a + b)
  {
    hide IsBytes, WellFormed;
  }

  lemma OneWellFormed(key: string, j: Json)
    requires IsBytes(key) && WellFormed(j)
    ensures WellFormedMembers([Member(key, j)])
  {
    hide IsBytes, WellFormed;
  }

  lemma RecordMembersWellFormed(ts: Json, kind: Json, tags: seq<Member>, fields: seq<Member>)
    requires WellFormed(ts) && WellFormed(kind) && WellFormedMembers(tags) && WellFormedMembers(fields)
    ensures WellFormedMembers(RecordMembers(ts, kind, tags, fields))
  {
    hide WellFormedMembers, IsBytes, WellFormed;
    RecordKeysAreBytes();
    var tagObject, fieldObject := JObj(tags), JObj(fields);
    MembersWellFormed(tags, tagObject);
    MembersWellFormed(fields, fieldObject);
    OneWellFormed("ts", ts);
    OneWellFormed("type", kind);
    OneWellFormed("tags", tagObject);
    OneWellFormed("fields", fieldObject);
    ConcatWellFormed([Member("ts", ts)], [Member("type", kind)]);
    var head := [Member("ts", ts), Member("type", kind)];
    assert [Member("ts", ts)] + [Member("type", kind)] == head;
    var withTags := head + (if tags == [] then [] else [Member("tags", tagObject)]);
    if tags == [] { assert withTags == head; } else { ConcatWellFormed(head, [Member("tags", tagObject)]); }
    if fields == [] {
      assert RecordMembers(ts, kind, tags, fields) == withTags;
    } else {
      ConcatWellFormed(withTags, [Member("fields", fieldObject)]);
    }
  }

  lemma RecordIsWellFormed(p: DataPoint)
    requires ValidPoint(p) && RecordOf(p).Some?
    ensures WellFormed(RecordOf(p).value)
  {
    IntTextIsNumeral(UnixMilli(p.nanos));
    var fields := FieldMembers(p.fields).value;
    assert WellFormedMembers(fields);
    var ts, kind := JNum(IntText(UnixMilli(p.nanos))), JStr(p.kind);
    assert WellFormed(ts) && WellFormed(kind);
    RecordMembersWellFormed(ts, kind, TagMembers(p.tags), fields);
    hide IsNumeral, IsBytes, FieldMembers, TagMembers, IntText, WellFormed, RecordMembers;
    MembersWellFormed(RecordOf(p).value.members, RecordOf(p).value);
  }

  lemma PointOfMembers(ms: seq<Member>, ts: int, kind: string, tags: seq<Tag>, fields: seq<Field>)
    requires Lookup(ms, "ts") == JNum(IntText(ts)) && Lookup(ms, "type") == JStr(kind)
    requires Lookup(ms, "tags") == if tags == [] then JNull else JObj(TagMembers(tags))
    requires var f := Lookup(ms, "fields");
             (f == JNull && fields == []) || (f.JObj? && FieldsOf(f.members) == fields)
    ensures PointOf(JObj(ms)) == Some(DataPoint(FromMilli(ts), kind, tags, fields))
  {
    IntValueRoundTrip(ts);
    TagsRoundTrip(tags);
    hide Lookup, IntText, IntValue, TagMembers, TagsOf, FieldsOf;
  }

  lemma RecordReadsBack(p: DataPoint)
    requires ValidPoint(p) && RecordOf(p).Some?
    ensures PointOf(RecordOf(p).value) == Some(Reread(p))
  {
    var fields := FieldMembers(p.fields).value;
    FieldsRoundTrip(p.fields);
    RecordLookups(JNum(IntText(UnixMilli(p.nanos))), JStr(p.kind), TagMembers(p.tags), fields);
    assert fields == [] <==> p.fields == [];
    assert TagMembers(p.tags) == [] <==> p.tags == [];
    hide RecordMembers, IsBytes, ValidValue, Lookup, IntText, TagMembers, FieldMembers, FieldsOf, RereadFields, PointOf;
    PointOfMembers(RecordOf(p).value.members, UnixMilli(p.nanos), p.kind, p.tags, RereadFields(p.fields));
  }

  /** Reading back the line Write appended gives the same point up to the sub-
      millisecond part of the time and each field's RereadValue: integers and
      float32 come back as doubles, byte slices as base64, any other kind as the
      plain value of its JSON form. */
  lemma LineRoundTrip(p: DataPoint)
    requires ValidPoint(p) && Encode(p).Some?
    ensures Decode(Encode(p).value) == Some(Reread(p))
  {
    RecordIsWellFormed(p);
    DocumentRoundTrip(RecordOf(p).value);
    RecordReadsBack(p);
    hide WellFormed, Parse, Print, RecordOf, PointOf, Reread;
  }

  /** A line carries no raw control character: no newline to split it early and
      no carriage return for the scanner to drop. */
  lemma LineIsClean(p: DataPoint)
    requires ValidPoint(p) && Encode(p).Some?
    ensures NoControl(Encode(p).value)
  {
    RecordIsWellFormed(p);
    PrintHasNoControl(RecordOf(p).value);
  }

  /** Write reports a marshalling error for exactly the points that hold a NaN or
      an infinity, or a value Marshal refuses. */
  lemma EncodeFailsIff(p: DataPoint)
    requires ValidPoint(p)
    ensures Encode(p).None? <==> exists i :: 0 <= i < |p.fields| && Refused(p.fields[i].val)
  {
  }

  // ---- what reaches the manager ---------------------------------------------

  /** A proto.Value; a finite double by the number it holds. */
  datatype ProtoValue =
    | PNil
    | PString(s: string)
    | PInt(n: int)
    | PDouble(x: real)
    | PNonFinite
    | PBool(b: bool)
    | PBytes(bytes: string)

  datatype ProtoPoint = ProtoPoint(kind: string, ms: int, tags: seq<Tag>, fields: map<string, ProtoValue>)

  /** Conversion of an unsigned 64-bit value to int64. */
  function WrapInt64(u: nat): int {
    var low := u % 0x1_0000_0000_0000_0000;
    if low < 0x8000_0000_0000_0000 then low else low - 0x1_0000_0000_0000_0000
  }

  /** How json.Marshal prints a double: a numeral that stands for it. */
  type Format = real -> string

  /** A tree whose numbers are printed anew. */
  function Reprint(j: Json, fmt: Format): Json {
    match j
    case JNum(numeral) => JNum(fmt(Nearest64(RealValue(numeral))))
    case JArr(items) => JArr(ReprintItems(items, fmt))
    case JObj(ms) => JObj(ReprintMembers(ms, fmt))
    case _ => j
  }

  function ReprintItems(items: seq<Json>, fmt: Format): (r: seq<Json>)
    ensures |r| == |items|
    ensures forall i :: 0 <= i < |items| ==> r[i] == Reprint(items[i], fmt)
  {
    if items == [] then [] else [Reprint(items[0], fmt)] + ReprintItems(items[1..], fmt)
  }

  function ReprintMembers(ms: seq<Member>, fmt: Format): (r: seq<Member>)
    ensures |r| == |ms|
    ensures forall i :: 0 <= i < |ms| ==> r[i] == Member(ms[i].key, Reprint(ms[i].val, fmt))
  {
    if ms == [] then [] else [Member(ms[0].key, Reprint(ms[0].val, fmt))] + ReprintMembers(ms[1..], fmt)
  }

  /** A float32 is widened; any kind the switch does not list becomes its JSON
      text. */
  function InterfaceToValue(v: GoValue, fmt: Format): ProtoValue {
    match v
    case GNil => PNil
    case GString(s) => PString(s)
    case GBool(b) => PBool(b)
    case GInt(n) => PInt(n)
    case GUint64(u) => PInt(WrapInt64(u))
    case GFloat(numeral) => PDouble(Nearest64(RealValue(numeral)))
    case GFloat32(numeral) => PDouble(Nearest32(RealValue(numeral)))
    case GNonFinite => PNonFinite
    case GBytes(bytes) => PBytes(bytes)
    case GOther(json) => PString(Print(json))
    case GTree(json) => PString(Print(Reprint(json, fmt)))
    case GUnsupported(text) => PString(text)
  }

  /** The fields of a sent point: a later entry replaces an earlier one. */
  function ProtoFields(fields: seq<Field>, fmt: Format): map<string, ProtoValue> {
    if fields == [] then map[]
    else ProtoFields(fields[..|fields| - 1], fmt)
           [fields[|fields| - 1].name := InterfaceToValue(fields[|fields| - 1].val, fmt)]
  }

  method DataPointToProto(p: DataPoint, fmt: Format) returns (dp: ProtoPoint)
    ensures dp == ProtoPoint(p.kind, UnixMilli(p.nanos), p.tags, ProtoFields(p.fields, fmt))
  {
    var fields: map<string, ProtoValue> := map[];
    for i := 0 to |p.fields|
      invariant fields == ProtoFields(p.fields[..i], fmt)
    {
      assert p.fields[..i + 1][..i] == p.fields[..i];
      fields := fields[p.fields[i].name := InterfaceToValue(p.fields[i].val, fmt)];
    }
    assert p.fields[..|p.fields|] == p.fields;
    dp := ProtoPoint(p.kind, UnixMilli(p.nanos), p.tags, fields);
  }

  // ---- which fields survive unchanged ---------------------------------------

  /** The number a sent value denotes, if it denotes one. */
  function Number(v: ProtoValue): Option<real> {
    match v
    case PInt(n) => Some(n as real)
    case PDouble(x) => Some(x)
    case _ => None
  }

  /** The manager reads the same value, or the same number. */
  predicate SameReading(a: ProtoValue, b: ProtoValue) {
    a == b || (Number(a).Some? && Number(a) == Number(b))
  }

  /** Every numeral in the tree is printed again as it stands. */
  predicate Settled(j: Json, fmt: Format) {
    match j
    case JNum(numeral) => fmt(Nearest64(RealValue(numeral))) == numeral
    case JArr(items) => forall i :: 0 <= i < |items| ==> Settled(items[i], fmt)
    case JObj(ms) => forall i :: 0 <= i < |ms| ==> Settled(ms[i].val, fmt)
    case _ => true
  }

  ghost predicate PrintsNumerals(fmt: Format) {
    forall x :: WellFormed(JNum(fmt(x)))
  }

  lemma {:induction false} ReprintedIff(j: Json, fmt: Format)
    ensures Reprint(j, fmt) == j <==> Settled(j, fmt)
    decreases j
  {
    hide Nearest64, RealValue;
    match j
    case JArr(items) =>
      forall i | 0 <= i < |items| ensures Reprint(items[i], fmt) == items[i] <==> Settled(items[i], fmt) {
        ReprintedIff(items[i], fmt);
      }
      hide ReprintItems;
      if Reprint(j, fmt) == j {
        assert forall i :: 0 <= i < |items| ==> ReprintItems(items, fmt)[i] == items[i];
      }
    case JObj(ms) =>
      forall i | 0 <= i < |ms| ensures Reprint(ms[i].val, fmt) == ms[i].val <==> Settled(ms[i].val, fmt) {
        ReprintedIff(ms[i].val, fmt);
      }
      hide ReprintMembers;
      if Reprint(j, fmt) == j {
        assert forall i :: 0 <= i < |ms| ==> ReprintMembers(ms, fmt)[i] == ms[i];
      }
    case _ =>
  }

  lemma {:induction false} ReprintIsWellFormed(j: Json, fmt: Format)
    requires WellFormed(j) && PrintsNumerals(fmt)
    ensures WellFormed(Reprint(j, fmt))
    decreases j
  {
    hide Nearest64, RealValue, IsNumeral, IsBytes;
    match j
    case JArr(items) =>
      forall i | 0 <= i < |items| ensures WellFormed(Reprint(items[i], fmt)) {
        ReprintIsWellFormed(items[i], fmt);
      }
    case JObj(ms) =>
      forall i | 0 <= i < |ms| ensures WellFormed(Reprint(ms[i].val, fmt)) {
        ReprintIsWellFormed(ms[i].val, fmt);
      }
    case _ =>
  }

  /** The text of a tree is the same again iff all its numerals are settled. */
  lemma TreeTextIff(j: Json, fmt: Format)
    requires WellFormed(j) && PrintsNumerals(fmt)
    ensures Print(Reprint(j, fmt)) == Print(j) <==> Settled(j, fmt)
  {
    ReprintedIff(j, fmt);
    ReprintIsWellFormed(j, fmt);
    hide WellFormed, Print, Parse, Settled, Reprint;
    DocumentRoundTrip(j);
    DocumentRoundTrip(Reprint(j, fmt));
  }

  lemma {:induction false} EscapeIsNoShorter(s: string)
    ensures |Escape(s)| >= |s|
  {
    hide EscapeChar, SeparatorEscape;
    if s != "" {
      EscapeIsNoShorter(s[if AtLineSeparator(s) then 3 else 1..]);
    }
  }

  /** Whether the log changes what the manager reads in a field. Strings, booleans,
      nulls and doubles never change. Integers change iff no double holds them,
      unsigned ones also when they do not fit int64; a float32 iff the double
      nearest to its numeral needs more than 24 bits; a slice or map iff a number
      in it is printed differently as a double. Byte slices always change (base64
      text), and so does every scalar of a kind the switch does not list (JSON text
      one way, the plain value the other). */
  lemma PathsAgreeIff(v: GoValue, fmt: Format)
    requires ValidValue(v) && !Refused(v) && PrintsNumerals(fmt)
    requires v.GUint64? ==> v.u < 0x1_0000_0000_0000_0000
    ensures SameReading(InterfaceToValue(v, fmt), InterfaceToValue(RereadValue(v), fmt))
       <==> match v
            case GInt(n) => IsDouble(n)
            case GUint64(u) => WrapInt64(u) == NearestDoubleInt(u)
            case GFloat32(numeral) => FitsFloat32(RealValue(numeral))
            case GBytes(_) => false
            case GOther(json) => (json.JArr? || json.JObj?) && Settled(json, fmt)
            case _ => true
  {
    hide IntText, RealValue, Nearest64, Nearest32, NearestDouble, IsDouble, IsBytes, IsNumeral, Base64, WrapInt64, FitsFloat32;
    match v
    case GInt(n) =>
      RealOfInt(n);
      WholeReads(n);
      IntIsExactIff(n);
    case GUint64(u) =>
      RealOfInt(u);
      WholeReads(u);
    case GFloat32(numeral) => SameFloatIff(RealValue(numeral));
    case GOther(json) =>
      if json.JStr? {
        EscapeIsNoShorter(json.text);
        hide Escape;
        assert |Print(json)| > |json.text|;
      } else {
        hide Print, Settled, Reprint;
        if json.JArr? || json.JObj? {
          TreeTextIff(json, fmt);
        }
      }
    case _ =>
  }

  /** So a float32 of one tenth, such as a memory percentage, arrives as a different
      number over the log. */
  lemma Float32Changes(fmt: Format)
    ensures !SameReading(InterfaceToValue(GFloat32("0.1"), fmt), InterfaceToValue(GFloat("0.1"), fmt))
  {
    RealOfOneTenth();
    OneTenthDiffers();
    hide RealValue, Nearest64, Nearest32;
  }

  /** The whole point on both paths: same type, tags and millisecond time, the
      same field names, and each field as PathsAgreeIff says. */
  lemma DiskPathSendsSamePoint(p: DataPoint, fmt: Format)
    requires ValidPoint(p) && Encode(p).Some?
    ensures var back := Decode(Encode(p).value);
            && back.Some?
            && back.value.kind == p.kind && back.value.tags == p.tags
            && UnixMilli(back.value.nanos) == UnixMilli(p.nanos)
            && ProtoFields(back.value.fields, fmt).Keys == ProtoFields(p.fields, fmt).Keys
            && |back.value.fields| == |p.fields|
            && forall i :: 0 <= i < |p.fields| ==>
                 && back.value.fields[i].name == p.fields[i].name
                 && back.value.fields[i].val == RereadValue(p.fields[i].val)
  {
    LineRoundTrip(p);
    SameNamesSameKeys(p.fields, RereadFields(p.fields), fmt);
  }

  lemma {:induction false} SameNamesSameKeys(a: seq<Field>, b: seq<Field>, fmt: Format)
    requires |a| == |b| && forall i :: 0 <= i < |a| ==> a[i].name == b[i].name
    ensures ProtoFields(a, fmt).Keys == ProtoFields(b, fmt).Keys
  {
    if a != [] {
      SameNamesSameKeys(a[..|a| - 1], b[..|b| - 1], fmt);
    }
  }
}
